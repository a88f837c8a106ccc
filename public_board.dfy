/** The public notice board: which units of a building have paid for a month,
    and the list of fundraisers. Neither needs a signed-in user. */
module PublicBoard {
  import opened Store
  import opened Ordering
  import opened TextOps
  import AdminDesk

  // ---------------------------------------------------------------------
  // The period asked about

  /** A `year`/`month` query argument that is absent, not an integer, or 0
      falls back to the current one. */
  function PeriodArg(arg: Option<int>, current: int): (r: int)
    ensures Given(arg) ==> r == arg.value
    ensures r == current || (arg == Some(r) && r != 0)
  {
    if Given(arg) then arg.value else current
  }

  // ---------------------------------------------------------------------
  // One unit's row

  /** The payments recorded against invoice `invoiceId`. */
  function PaymentsFor(ps: seq<Payment>, invoiceId: int): (r: seq<Payment>)
    ensures forall p :: p in r <==> p in ps && p.invoiceId == invoiceId
    ensures r == [] <==> forall p :: p in ps ==> p.invoiceId != invoiceId
  {
    if ps == [] then []
    else
      var rest := PaymentsFor(ps[1..], invoiceId);
      if ps[0].invoiceId == invoiceId then [ps[0]] + rest else rest
  }

  lemma {:induction false} PaymentsForAppend(ps: seq<Payment>, p: Payment, invoiceId: int)
    ensures PaymentsFor(ps + [p], invoiceId) == PaymentsFor(ps, invoiceId) + (if p.invoiceId == invoiceId then [p] else [])
  {
    if ps == [] {
      assert [p][1..] == [];
    } else {
      assert (ps + [p])[1..] == ps[1..] + [p];
      PaymentsForAppend(ps[1..], p, invoiceId);
    }
  }

  /** Payment `p` was recorded by a user whose role is ONLINE_ADMIN. */
  predicate CollectedOnline(users: seq<User>, p: Payment) {
    p.collectedBy.Some? && UserById(users, p.collectedBy.value).Some?
    && UserById(users, p.collectedBy.value).value.role == ONLINE_ADMIN
  }

  /** `MAX(CASE WHEN collector.role = 'ONLINE_ADMIN' THEN 1 ELSE 0 END) = 1`. */
  function AnyOnline(users: seq<User>, ps: seq<Payment>): (r: bool)
    ensures r <==> exists p :: p in ps && CollectedOnline(users, p)
  {
    if ps == [] then false
    else
      assert ps[0] in ps;
      assert forall p :: p in ps[1..] ==> p in ps;
      assert forall p :: p in ps && p != ps[0] ==> p in ps[1..];
      CollectedOnline(users, ps[0]) || AnyOnline(users, ps[1..])
  }

  /** The payment method shown for an invoice with payments `ps`: ONLINE when
      any of them was recorded by an online collector, CASH when there are
      payments but none of them was, nothing when there are none. */
  function MethodOf(users: seq<User>, ps: seq<Payment>): (r: Option<string>)
    ensures r == Some(ONLINE) <==> exists p :: p in ps && CollectedOnline(users, p)
    ensures r == Some(CASH) <==> ps != [] && forall p :: p in ps ==> !CollectedOnline(users, p)
    ensures r == None <==> ps == []
  {
    if AnyOnline(users, ps) then Some(ONLINE)
    else if ps != [] then Some(CASH)
    else None
  }

  datatype UnitStatus = UnitStatus(
    userId: int, fullName: string, building: string, floor: string, apartment: string,
    year: int, month: int,
    invoiceId: Option<int>, invoiceAmount: int, paidCurrentMonth: bool,
    paidAmount: int, paymentMethod: Option<string>)

  /** The row of resident `d` for invoice `inv` of the period (None when the
      resident has no invoice for it). */
  function UnitRow(users: seq<User>, ps: seq<Payment>, d: PersonDetails, inv: Option<Invoice>, year: int, month: int)
    : (r: UnitStatus)
    ensures r.userId == d.userId && r.fullName == d.fullName && r.building == d.building
    ensures r.floor == d.floor && r.apartment == d.apartment && r.year == year && r.month == month
    ensures r.paidCurrentMonth <==> inv.Some? && inv.value.id != 0 && inv.value.status == PAID
    ensures r.invoiceId.Some? <==> inv.Some? && inv.value.id != 0
    ensures r.invoiceId.Some? ==> r.invoiceId.value == inv.value.id
    ensures inv.None? ==> r.invoiceAmount == 0 && r.paidAmount == 0 && r.paymentMethod == None
    ensures inv.Some? ==>
              var paid := PaymentsFor(ps, inv.value.id);
              && r.invoiceAmount == inv.value.amount
              && r.paidAmount == PaymentTotal(paid)
              && r.paymentMethod == MethodOf(users, paid)
  {
    match inv
    case None =>
      UnitStatus(d.userId, d.fullName, d.building, d.floor, d.apartment, year, month, None, 0, false, 0, None)
    case Some(i) =>
      var paid := PaymentsFor(ps, i.id);
      UnitStatus(d.userId, d.fullName, d.building, d.floor, d.apartment, year, month,
                 if i.id != 0 then Some(i.id) else None, i.amount, i.id != 0 && i.status == PAID,
                 PaymentTotal(paid), MethodOf(users, paid))
  }

  /** Recording a payment for an invoice and marking it paid shows on the
      board: the unit is paid for the month, the paid amount grows by the
      payment, and a payment method is shown. */
  lemma CollectionShowsOnBoard(users: seq<User>, ps: seq<Payment>, d: PersonDetails, inv: Invoice,
                               p: Payment, today: Date, year: int, month: int)
    requires p.invoiceId == inv.id && inv.id != 0
    ensures var before := UnitRow(users, ps, d, Some(inv), year, month);
            var after := UnitRow(users, ps + [p], d, Some(AdminDesk.MarkedPaid(inv, today)), year, month);
            && after.paidCurrentMonth
            && after.paidAmount == before.paidAmount + p.amount
            && after.paymentMethod.Some?
            && (CollectedOnline(users, p) ==> after.paymentMethod == Some(ONLINE))
            && after.invoiceAmount == before.invoiceAmount
  {
    PaymentsForAppend(ps, p, inv.id);
    PaymentTotalAppend(PaymentsFor(ps, inv.id), [p]);
    assert p in PaymentsFor(ps + [p], inv.id);
  }

  // ---------------------------------------------------------------------
  // The rows of a building

  /** The resident with person details `d` lives in `building`. */
  predicate Listed(users: seq<User>, d: PersonDetails, building: string) {
    d.building == building && UserById(users, d.userId).Some? && UserById(users, d.userId).value.role == RESIDENT
  }

  /** The invoices of resident `userId` for the period. */
  function PeriodInvoices(invs: seq<Invoice>, userId: int, year: int, month: int): (r: seq<Invoice>)
    ensures forall inv :: inv in r <==> inv in invs && inv.userId == userId && inv.year == year && inv.month == month
    ensures forall inv :: multiset(r)[inv]
              == if inv.userId == userId && inv.year == year && inv.month == month then multiset(invs)[inv] else 0
  {
    if invs == [] then []
    else
      var rest := PeriodInvoices(invs[1..], userId, year, month);
      assert invs == [invs[0]] + invs[1..];
      assert multiset(invs) == multiset{invs[0]} + multiset(invs[1..]);
      if invs[0].userId == userId && invs[0].year == year && invs[0].month == month then [invs[0]] + rest else rest
  }

  /** Row `row` shows invoice `inv`: its id, amount and status, the sum of
      the payments recorded against it and the method they were made by. */
  predicate ShowsInvoice(users: seq<User>, ps: seq<Payment>, row: UnitStatus, inv: Invoice) {
    && row.invoiceId == Some(inv.id) && row.invoiceAmount == inv.amount
    && (row.paidCurrentMonth <==> inv.status == PAID)
    && row.paidAmount == PaymentTotal(PaymentsFor(ps, inv.id))
    && row.paymentMethod == MethodOf(users, PaymentsFor(ps, inv.id))
  }

  /** Row `row` describes the unit of `d`. */
  predicate RowOf(row: UnitStatus, d: PersonDetails) {
    row.userId == d.userId && row.fullName == d.fullName && row.building == d.building
    && row.floor == d.floor && row.apartment == d.apartment
  }

  function InvoiceRows(users: seq<User>, ps: seq<Payment>, d: PersonDetails, its: seq<Invoice>, year: int, month: int)
    : (r: seq<UnitStatus>)
    ensures |r| == |its| && forall k :: 0 <= k < |its| ==> r[k] == UnitRow(users, ps, d, Some(its[k]), year, month)
    ensures forall row :: row in r ==> RowOf(row, d) && row.year == year && row.month == month
    ensures forall row :: row in r && row.invoiceId.Some? ==> exists inv :: inv in its && ShowsInvoice(users, ps, row, inv)
  {
    if its == [] then []
    else
      var rest := InvoiceRows(users, ps, d, its[1..], year, month);
      var head := UnitRow(users, ps, d, Some(its[0]), year, month);
      assert forall inv :: inv in its[1..] ==> inv in its;
      assert head.invoiceId.Some? ==> its[0] in its && ShowsInvoice(users, ps, head, its[0]);
      [head] + rest
  }

  /** The rows of one resident: one per invoice of the period, or a single
      row without an invoice when there is none (the outer join). */
  function ResidentRows(users: seq<User>, invs: seq<Invoice>, ps: seq<Payment>, d: PersonDetails, year: int, month: int)
    : (r: seq<UnitStatus>)
    ensures r != [] && forall row :: row in r ==> RowOf(row, d) && row.year == year && row.month == month
    ensures var its := PeriodInvoices(invs, d.userId, year, month);
            if its == [] then r == [UnitRow(users, ps, d, None, year, month)]
            else |r| == |its| && forall k :: 0 <= k < |its| ==> r[k] == UnitRow(users, ps, d, Some(its[k]), year, month)
    ensures forall row :: row in r && row.invoiceId.Some? ==>
              exists inv :: inv in invs && inv.userId == d.userId && inv.year == year && inv.month == month
                            && ShowsInvoice(users, ps, row, inv)
  {
    var its := PeriodInvoices(invs, d.userId, year, month);
    if its == [] then [UnitRow(users, ps, d, None, year, month)]
    else InvoiceRows(users, ps, d, its, year, month)
  }

  /** The rows of every resident of `building`, before ordering. */
  function BuildingRows(users: seq<User>, people: seq<PersonDetails>, invs: seq<Invoice>, ps: seq<Payment>,
                        building: string, year: int, month: int)
    : (r: seq<UnitStatus>)
    ensures forall row :: row in r ==> row.building == building && row.year == year && row.month == month
  {
    if people == [] then []
    else
      var rest := BuildingRows(users, people[1..], invs, ps, building, year, month);
      var mine := if Listed(users, people[0], building) then ResidentRows(users, invs, ps, people[0], year, month) else [];
      mine + rest
  }

  /** Adding a details row adds exactly that resident's rows, when they are
      listed in the building, and nothing else. */
  lemma {:induction false} BuildingRowsAppend(users: seq<User>, people: seq<PersonDetails>, invs: seq<Invoice>,
                                              ps: seq<Payment>, building: string, year: int, month: int, d: PersonDetails)
    ensures BuildingRows(users, people + [d], invs, ps, building, year, month)
            == BuildingRows(users, people, invs, ps, building, year, month)
               + (if Listed(users, d, building) then ResidentRows(users, invs, ps, d, year, month) else [])
    decreases |people|
  {
    var more := people + [d];
    var extra := if Listed(users, d, building) then ResidentRows(users, invs, ps, d, year, month) else [];
    if people == [] {
      assert more[1..] == [];
      assert BuildingRows(users, more, invs, ps, building, year, month) == extra;
    } else {
      var p := people[0];
      var mine := if Listed(users, p, building) then ResidentRows(users, invs, ps, p, year, month) else [];
      assert more[0] == p && more[1..] == people[1..] + [d];
      BuildingRowsAppend(users, people[1..], invs, ps, building, year, month, d);
      var tail := BuildingRows(users, people[1..], invs, ps, building, year, month);
      assert BuildingRows(users, more, invs, ps, building, year, month) == mine + (tail + extra);
      assert BuildingRows(users, people, invs, ps, building, year, month) == mine + tail;
      assert mine + (tail + extra) == (mine + tail) + extra;
    }
  }

  /** Every row belongs to a resident of the building. */
  lemma {:induction false} RowsBelongToResidents(users: seq<User>, people: seq<PersonDetails>, invs: seq<Invoice>,
                                                 ps: seq<Payment>, building: string, year: int, month: int, row: UnitStatus)
    requires row in BuildingRows(users, people, invs, ps, building, year, month)
    ensures exists d :: && d in people && Listed(users, d, building) && RowOf(row, d)
                        && row in ResidentRows(users, invs, ps, d, year, month)
  {
    var rest := BuildingRows(users, people[1..], invs, ps, building, year, month);
    if row !in rest {
      assert row in ResidentRows(users, invs, ps, people[0], year, month);
      assert RowOf(row, people[0]);
    } else {
      RowsBelongToResidents(users, people[1..], invs, ps, building, year, month, row);
      var d :| d in people[1..] && Listed(users, d, building) && RowOf(row, d)
               && row in ResidentRows(users, invs, ps, d, year, month);
      assert d in people;
    }
  }

  /** Every resident of the building has at least one row. */
  lemma {:induction false} ResidentsHaveRows(users: seq<User>, people: seq<PersonDetails>, invs: seq<Invoice>,
                                             ps: seq<Payment>, building: string, year: int, month: int, d: PersonDetails)
    requires d in people && Listed(users, d, building)
    ensures exists row :: row in BuildingRows(users, people, invs, ps, building, year, month) && RowOf(row, d)
  {
    var r := BuildingRows(users, people, invs, ps, building, year, month);
    var rest := BuildingRows(users, people[1..], invs, ps, building, year, month);
    if d == people[0] {
      var mine := ResidentRows(users, invs, ps, d, year, month);
      assert r == mine + rest;
      assert mine[0] in r && RowOf(mine[0], d);
    } else {
      ResidentsHaveRows(users, people[1..], invs, ps, building, year, month, d);
      var row :| row in rest && RowOf(row, d);
      assert row in r;
    }
  }

  /** A row that shows an invoice id carries the figures of an invoice of
      that resident for the period. */
  lemma {:induction false} RowsShowTheirInvoices(users: seq<User>, people: seq<PersonDetails>, invs: seq<Invoice>,
                                                 ps: seq<Payment>, building: string, year: int, month: int, row: UnitStatus)
    requires row in BuildingRows(users, people, invs, ps, building, year, month) && row.invoiceId.Some?
    ensures exists inv :: && inv in invs && inv.userId == row.userId && inv.year == year && inv.month == month
                          && ShowsInvoice(users, ps, row, inv)
  {
    var rest := BuildingRows(users, people[1..], invs, ps, building, year, month);
    if row !in rest {
      assert row in ResidentRows(users, invs, ps, people[0], year, month);
      assert RowOf(row, people[0]);
    } else {
      RowsShowTheirInvoices(users, people[1..], invs, ps, building, year, month, row);
    }
  }

  /** Every invoice of a resident of the building for the period has its own
      row. */
  lemma {:induction false} InvoicesHaveRows(users: seq<User>, people: seq<PersonDetails>, invs: seq<Invoice>,
                                            ps: seq<Payment>, building: string, year: int, month: int,
                                            d: PersonDetails, inv: Invoice)
    requires d in people && Listed(users, d, building)
    requires inv in invs && inv.userId == d.userId && inv.year == year && inv.month == month
    ensures UnitRow(users, ps, d, Some(inv), year, month) in BuildingRows(users, people, invs, ps, building, year, month)
  {
    var r := BuildingRows(users, people, invs, ps, building, year, month);
    var rest := BuildingRows(users, people[1..], invs, ps, building, year, month);
    if d == people[0] {
      var its := PeriodInvoices(invs, d.userId, year, month);
      var mine := ResidentRows(users, invs, ps, d, year, month);
      assert inv in its;
      var k :| 0 <= k < |its| && its[k] == inv;
      assert mine[k] == UnitRow(users, ps, d, Some(inv), year, month);
      assert r == mine + rest;
      assert mine[k] in r;
    } else {
      InvoicesHaveRows(users, people[1..], invs, ps, building, year, month, d, inv);
      assert r == (if Listed(users, people[0], building) then ResidentRows(users, invs, ps, people[0], year, month) else []) + rest;
    }
  }

  // ---------------------------------------------------------------------
  // Ordering by floor and apartment number

  /** `CAST(s AS INTEGER)` into PostgreSQL's 32-bit `integer`; None where the
      database raises an error. */
  function CastInteger(s: string): (r: Option<int>)
    ensures r.Some? ==> -0x8000_0000 <= r.value < 0x8000_0000 && ParseInteger(s) == r
    ensures r.None? <==> ParseInteger(s).None? || !(-0x8000_0000 <= ParseInteger(s).value < 0x8000_0000)
  {
    match ParseInteger(s)
    case Some(n) => if -0x8000_0000 <= n < 0x8000_0000 then Some(n) else None
    case None => None
  }

  /** The decimal text of every 32-bit integer casts back to it. */
  lemma Int32TextCasts(n: int)
    requires -0x8000_0000 <= n < 0x8000_0000
    ensures CastInteger(IntegerText(n)) == Some(n)
  {
    IntegerTextRoundTrip(n);
  }

  predicate Castable(row: UnitStatus) {
    CastInteger(row.floor).Some? && CastInteger(row.apartment).Some?
  }

  /** `ORDER BY CAST(floor AS INTEGER), CAST(apartment AS INTEGER)`; only used
      once every row is castable. */
  function FloorThenApartment(row: UnitStatus): seq<int> {
    [CastInteger(row.floor).GetOr(0), CastInteger(row.apartment).GetOr(0)]
  }

  datatype BuildingStatus = BuildingStatus(building: string, year: int, month: int, units: seq<UnitStatus>)

  /** `GET /buildings/<building>/units-status?year=&month=`, with `now` the
      server's clock. A floor or apartment the cast refuses makes the query
      fail, and the request with it. */
  function UnitsStatus(users: seq<User>, people: seq<PersonDetails>, invs: seq<Invoice>, ps: seq<Payment>,
                       building: string, yearArg: Option<int>, monthArg: Option<int>, now: Date)
    : (r: Result<BuildingStatus, Refusal>)
    ensures var year, month := PeriodArg(yearArg, now.year), PeriodArg(monthArg, now.month);
            var rows := BuildingRows(users, people, invs, ps, building, year, month);
            && (r.Err? <==> exists row :: row in rows && !Castable(row))
            && (r.Err? ==> r.error.status == 500)
            && (r.Ok? ==>
                  && r.value.building == building && r.value.year == year && r.value.month == month
                  && multiset(r.value.units) == multiset(rows)
                  && SortedBy(r.value.units, FloorThenApartment))
  {
    var year, month := PeriodArg(yearArg, now.year), PeriodArg(monthArg, now.month);
    var rows := BuildingRows(users, people, invs, ps, building, year, month);
    if exists row :: row in rows && !Castable(row) then Err(Refusal(500, "Internal Server Error"))
    else Ok(BuildingStatus(building, year, month, SortBy(rows, FloorThenApartment)))
  }

  /** The listed units come in ascending floor number and, on one floor,
      ascending apartment number. */
  lemma UnitsInFloorOrder(users: seq<User>, people: seq<PersonDetails>, invs: seq<Invoice>, ps: seq<Payment>,
                          building: string, yearArg: Option<int>, monthArg: Option<int>, now: Date, i: int, j: int)
    requires UnitsStatus(users, people, invs, ps, building, yearArg, monthArg, now).Ok?
    requires 0 <= i < j < |UnitsStatus(users, people, invs, ps, building, yearArg, monthArg, now).value.units|
    ensures var units := UnitsStatus(users, people, invs, ps, building, yearArg, monthArg, now).value.units;
            && Castable(units[i]) && Castable(units[j])
            && var fi, fj := CastInteger(units[i].floor).value, CastInteger(units[j].floor).value;
               fi < fj || (fi == fj && CastInteger(units[i].apartment).value <= CastInteger(units[j].apartment).value)
  {
    var year, month := PeriodArg(yearArg, now.year), PeriodArg(monthArg, now.month);
    var rows := BuildingRows(users, people, invs, ps, building, year, month);
    var units := UnitsStatus(users, people, invs, ps, building, yearArg, monthArg, now).value.units;
    assert units[i] in multiset(rows) && units[j] in multiset(rows);
    assert units[i] in rows && units[j] in rows;
    assert Castable(units[i]) && Castable(units[j]);
    assert LexLe(FloorThenApartment(units[i]), FloorThenApartment(units[j]));
    LexLePair(CastInteger(units[i].floor).value, CastInteger(units[i].apartment).value,
              CastInteger(units[j].floor).value, CastInteger(units[j].apartment).value);
  }

  /** A unit is listed exactly when it belongs to a resident of the building. */
  lemma UnitsAreTheResidents(users: seq<User>, people: seq<PersonDetails>, invs: seq<Invoice>, ps: seq<Payment>,
                             building: string, yearArg: Option<int>, monthArg: Option<int>, now: Date, d: PersonDetails)
    requires UnitsStatus(users, people, invs, ps, building, yearArg, monthArg, now).Ok?
    ensures var units := UnitsStatus(users, people, invs, ps, building, yearArg, monthArg, now).value.units;
            && (d in people && Listed(users, d, building) ==> exists row :: row in units && RowOf(row, d))
            && (forall row :: row in units ==>
                  exists e :: && e in people && Listed(users, e, building) && RowOf(row, e)
                              && row in ResidentRows(users, invs, ps, e, PeriodArg(yearArg, now.year), PeriodArg(monthArg, now.month)))
  {
    var year, month := PeriodArg(yearArg, now.year), PeriodArg(monthArg, now.month);
    var rows := BuildingRows(users, people, invs, ps, building, year, month);
    var units := UnitsStatus(users, people, invs, ps, building, yearArg, monthArg, now).value.units;
    if d in people && Listed(users, d, building) {
      ResidentsHaveRows(users, people, invs, ps, building, year, month, d);
      var row :| row in rows && RowOf(row, d);
      assert row in multiset(rows);
      assert row in units;
    }
    forall row | row in units
      ensures exists e :: && e in people && Listed(users, e, building) && RowOf(row, e)
                          && row in ResidentRows(users, invs, ps, e, year, month)
    {
      assert row in multiset(units);
      RowsBelongToResidents(users, people, invs, ps, building, year, month, row);
    }
  }

  /** A unit that shows an invoice id carries that invoice's amount and
      status, the sum of the payments against it and their method. */
  lemma UnitsShowTheirInvoices(users: seq<User>, people: seq<PersonDetails>, invs: seq<Invoice>, ps: seq<Payment>,
                               building: string, yearArg: Option<int>, monthArg: Option<int>, now: Date, row: UnitStatus)
    requires UnitsStatus(users, people, invs, ps, building, yearArg, monthArg, now).Ok?
    requires row in UnitsStatus(users, people, invs, ps, building, yearArg, monthArg, now).value.units
    requires row.invoiceId.Some?
    ensures exists inv :: && inv in invs && inv.userId == row.userId
                          && inv.year == PeriodArg(yearArg, now.year) && inv.month == PeriodArg(monthArg, now.month)
                          && ShowsInvoice(users, ps, row, inv)
  {
    var year, month := PeriodArg(yearArg, now.year), PeriodArg(monthArg, now.month);
    var units := UnitsStatus(users, people, invs, ps, building, yearArg, monthArg, now).value.units;
    assert row in multiset(units);
    RowsShowTheirInvoices(users, people, invs, ps, building, year, month, row);
  }

  /** Every invoice of a resident of the building for the period asked is on
      the board, with its own row. */
  lemma InvoicesAreOnBoard(users: seq<User>, people: seq<PersonDetails>, invs: seq<Invoice>, ps: seq<Payment>,
                           building: string, yearArg: Option<int>, monthArg: Option<int>, now: Date,
                           d: PersonDetails, inv: Invoice)
    requires UnitsStatus(users, people, invs, ps, building, yearArg, monthArg, now).Ok?
    requires d in people && Listed(users, d, building) && inv in invs && inv.userId == d.userId
    requires inv.year == PeriodArg(yearArg, now.year) && inv.month == PeriodArg(monthArg, now.month)
    ensures UnitRow(users, ps, d, Some(inv), inv.year, inv.month)
              in UnitsStatus(users, people, invs, ps, building, yearArg, monthArg, now).value.units
  {
    var year, month := PeriodArg(yearArg, now.year), PeriodArg(monthArg, now.month);
    var rows := BuildingRows(users, people, invs, ps, building, year, month);
    InvoicesHaveRows(users, people, invs, ps, building, year, month, d, inv);
    assert UnitRow(users, ps, d, Some(inv), year, month) in multiset(rows);
  }

  // ---------------------------------------------------------------------
  // Fundraisers

  /** The optional filters of `GET /fundraisers`. */
  predicate InPeriod(f: FundRaiser, yearArg: Option<int>, monthArg: Option<int>) {
    (!Given(yearArg) || f.year == yearArg.value) && (!Given(monthArg) || f.month == monthArg.value)
  }

  function FilterPeriod(frs: seq<FundRaiser>, yearArg: Option<int>, monthArg: Option<int>): (r: seq<FundRaiser>)
    ensures forall f :: f in r <==> f in frs && InPeriod(f, yearArg, monthArg)
    ensures forall f :: multiset(r)[f] == if InPeriod(f, yearArg, monthArg) then multiset(frs)[f] else 0
  {
    if frs == [] then []
    else
      assert frs == [frs[0]] + frs[1..];
      assert multiset(frs) == multiset{frs[0]} + multiset(frs[1..]);
      var rest := FilterPeriod(frs[1..], yearArg, monthArg);
      if InPeriod(frs[0], yearArg, monthArg) then [frs[0]] + rest else rest
  }

  /** `ORDER BY year DESC, month DESC, id DESC`. */
  function NewestFundraiserFirst(f: FundRaiser): seq<int> {
    [-f.year, -f.month, -f.id]
  }

  /** `GET /fundraisers?year=&month=`. */
  function Fundraisers(frs: seq<FundRaiser>, yearArg: Option<int>, monthArg: Option<int>): (r: seq<FundRaiser>)
    ensures multiset(r) == multiset(FilterPeriod(frs, yearArg, monthArg))
    ensures SortedBy(r, NewestFundraiserFirst)
  {
    SortBy(FilterPeriod(frs, yearArg, monthArg), NewestFundraiserFirst)
  }

  /** The list holds exactly the fundraisers of the asked year and month, each
      filter applied only when it is given. */
  lemma FundraisersInPeriod(frs: seq<FundRaiser>, yearArg: Option<int>, monthArg: Option<int>, f: FundRaiser)
    ensures f in Fundraisers(frs, yearArg, monthArg) <==> f in frs && InPeriod(f, yearArg, monthArg)
  {
    assert f in Fundraisers(frs, yearArg, monthArg) <==> f in multiset(Fundraisers(frs, yearArg, monthArg));
    assert f in FilterPeriod(frs, yearArg, monthArg) <==> f in multiset(FilterPeriod(frs, yearArg, monthArg));
  }

  /** Newest period first and, within one month, higher id first. */
  lemma FundraisersNewestFirst(frs: seq<FundRaiser>, yearArg: Option<int>, monthArg: Option<int>, i: int, j: int)
    requires 0 <= i < j < |Fundraisers(frs, yearArg, monthArg)|
    ensures var r := Fundraisers(frs, yearArg, monthArg);
            || r[i].year > r[j].year
            || (r[i].year == r[j].year && (r[i].month > r[j].month
                                           || (r[i].month == r[j].month && r[i].id >= r[j].id)))
  {
    var r := Fundraisers(frs, yearArg, monthArg);
    FundraiserOrder(r, i, j);
  }

  lemma FundraiserOrder(r: seq<FundRaiser>, i: int, j: int)
    requires SortedBy(r, NewestFundraiserFirst) && 0 <= i < j < |r|
    ensures || r[i].year > r[j].year
            || (r[i].year == r[j].year && (r[i].month > r[j].month
                                           || (r[i].month == r[j].month && r[i].id >= r[j].id)))
  {
    assert LexLe(NewestFundraiserFirst(r[i]), NewestFundraiserFirst(r[j]));
    LexLeTriple(-r[i].year, -r[i].month, -r[i].id, -r[j].year, -r[j].month, -r[j].id);
  }

  /** Without filters every fundraiser is listed. */
  lemma UnfilteredListsAll(frs: seq<FundRaiser>, f: FundRaiser)
    ensures f in Fundraisers(frs, None, None) <==> f in frs
  {
    FundraisersInPeriod(frs, None, None, f);
  }
}
