/** The treasurer's side: what each collector owes, recording a hand-over of
    cash (a settlement), and the union-wide summary. */
module Treasury {
  import opened Store
  import opened Ordering

  datatype AdminSummary = AdminSummary(
    totalAmount: int, settledAmount: int, outstandingAmount: int, paymentsCount: nat)

  /** The totals of one collector, computed from that collector's rows only:
      payments they recorded and settlements they handed over. */
  function SummaryFor(ps: seq<Payment>, ss: seq<Settlement>, admin: int): (r: AdminSummary)
    ensures r.outstandingAmount == r.totalAmount - r.settledAmount
    ensures r.paymentsCount == 0 <==> forall p :: p in ps ==> p.collectedBy != Some(admin)
    ensures r.paymentsCount == 0 ==> r.totalAmount == 0
    ensures (forall s :: s in ss ==> s.adminId != admin) ==> r.settledAmount == 0
  {
    var mine := PaymentsBy(ps, admin);
    var settled := SettlementsOf(ss, admin);
    assert mine != [] ==> mine[0] in mine;
    assert settled != [] ==> settled[0] in settled;
    AdminSummary(PaymentTotal(mine), SettlementTotal(settled), PaymentTotal(mine) - SettlementTotal(settled), |mine|)
  }

  /** A new settlement lowers its collector's outstanding balance by exactly
      its amount and leaves every other collector's summary as it was. */
  lemma SettlementLowersOutstanding(ps: seq<Payment>, ss: seq<Settlement>, s: Settlement, admin: int)
    ensures var before, after := SummaryFor(ps, ss, admin), SummaryFor(ps, ss + [s], admin);
            if admin == s.adminId then
              after.outstandingAmount == before.outstandingAmount - s.amount
              && after.settledAmount == before.settledAmount + s.amount
              && after.totalAmount == before.totalAmount
              && after.paymentsCount == before.paymentsCount
            else after == before
  {
    SettledAppend(ss, s, admin);
  }

  /** A new payment raises its collector's total and outstanding balance by
      its amount and counts once; other collectors are unaffected. */
  lemma PaymentRaisesOutstanding(ps: seq<Payment>, ss: seq<Settlement>, p: Payment, admin: int)
    ensures var before, after := SummaryFor(ps, ss, admin), SummaryFor(ps + [p], ss, admin);
            if p.collectedBy == Some(admin) then
              after.totalAmount == before.totalAmount + p.amount
              && after.outstandingAmount == before.outstandingAmount + p.amount
              && after.paymentsCount == before.paymentsCount + 1
            else after == before
  {
    CollectedAppend(ps, p, admin);
    PaymentsByAppend(ps, p, admin);
  }

  // ---------------------------------------------------------------------
  // Recording a settlement

  /** The comparison tolerance is 1e-6 of the currency, a ten-thousandth of a
      cent; `ExceedsOutstanding` compares in those units. */
  const SubCentsPerCent: int := 10000

  predicate ExceedsOutstanding(amount: int, outstanding: int) {
    amount * SubCentsPerCent > outstanding * SubCentsPerCent + 1
  }

  /** On whole cents the tolerance never lets an amount through that is above
      the outstanding balance, and never refuses one that is not. */
  lemma ToleranceIsExact(amount: int, outstanding: int)
    ensures ExceedsOutstanding(amount, outstanding) <==> amount > outstanding
  {
    assert amount * SubCentsPerCent - outstanding * SubCentsPerCent == (amount - outstanding) * SubCentsPerCent;
  }

  datatype SettleRefusal =
    | SettleUnauthorized(message: string, status: int)
    | SettleFieldsRequired
    | AdminNotFound
    | SettleInvalidAmount
    | OverOutstanding(outstanding: int)
  {
    function Status(): int {
      match this
      case SettleUnauthorized(_, status) => status
      case AdminNotFound => 404
      case _ => 400
    }

    function Message(): string {
      match this
      case SettleUnauthorized(message, _) => message
      case SettleFieldsRequired => "admin_id and amount are required"
      case AdminNotFound => "admin not found"
      case SettleInvalidAmount => "invalid amount"
      case OverOutstanding(_) => "amount cannot be greater than admin outstanding balance"
    }
  }

  /** The checks a settlement request passes through, in order; on success the
      collector's id and the amount in cents. */
  function CheckSettlement(users: seq<User>, ps: seq<Payment>, ss: seq<Settlement>,
                           adminId: Option<int>, amount: AmountField): (r: Result<(int, int), SettleRefusal>)
    ensures r.Ok? <==>
              && Given(adminId)
              && (exists u :: u in users && u.id == adminId.value && u.role == ADMIN)
              && amount.AsCents().Some?
              && 0 < amount.AsCents().value <= SummaryFor(ps, ss, adminId.value).outstandingAmount
    ensures r.Ok? ==> r.value == (adminId.value, amount.AsCents().value)
    ensures r == Err(SettleFieldsRequired) <==> !Given(adminId) || amount.Missing?
    ensures r == Err(AdminNotFound) <==>
              Given(adminId) && !amount.Missing?
              && forall u :: u in users ==> !(u.id == adminId.value && u.role == ADMIN)
    ensures r == Err(SettleInvalidAmount) <==>
              && Given(adminId) && !amount.Missing?
              && (exists u :: u in users && u.id == adminId.value && u.role == ADMIN)
              && (amount.AsCents().None? || amount.AsCents().value <= 0)
    ensures r.Err? && r.error.OverOutstanding? <==>
              && Given(adminId)
              && (exists u :: u in users && u.id == adminId.value && u.role == ADMIN)
              && amount.AsCents().Some? && 0 < amount.AsCents().value
              && amount.AsCents().value > SummaryFor(ps, ss, adminId.value).outstandingAmount
    ensures r.Err? && r.error.OverOutstanding? ==>
              r.error.outstanding == SummaryFor(ps, ss, adminId.value).outstandingAmount
    ensures r.Err? ==> !r.error.SettleUnauthorized?
  {
    if !Given(adminId) || amount.Missing? then Err(SettleFieldsRequired)
    else if FindUser(users, adminId.value, ADMIN).None? then Err(AdminNotFound)
    else if amount.AsCents().None? || amount.AsCents().value <= 0 then Err(SettleInvalidAmount)
    else
      var outstanding := SummaryFor(ps, ss, adminId.value).outstandingAmount;
      ToleranceIsExact(amount.AsCents().value, outstanding);
      if ExceedsOutstanding(amount.AsCents().value, outstanding) then Err(OverOutstanding(outstanding))
      else Ok((adminId.value, amount.AsCents().value))
  }

  /** The reply to a refused settlement: 404 exactly for an unknown collector,
      400 for every other check, and an amount above the balance is named as
      such. */
  lemma SettleRefusalReplies(users: seq<User>, ps: seq<Payment>, ss: seq<Settlement>,
                             adminId: Option<int>, amount: AmountField)
    requires CheckSettlement(users, ps, ss, adminId, amount).Err?
    ensures var e := CheckSettlement(users, ps, ss, adminId, amount).error;
            && (e.Status() == 404 <==> e == AdminNotFound)
            && (e.Status() == 400 <==> e != AdminNotFound)
            && (e.OverOutstanding? <==> e.Message() == "amount cannot be greater than admin outstanding balance")
  {
  }

  /** An accepted settlement leaves its collector with a balance that is not
      negative. */
  lemma AcceptedSettlementKeepsBalance(users: seq<User>, ps: seq<Payment>, ss: seq<Settlement>,
                                       adminId: Option<int>, amount: AmountField, s: Settlement)
    requires CheckSettlement(users, ps, ss, adminId, amount) == Ok((s.adminId, s.amount))
    ensures SummaryFor(ps, ss + [s], s.adminId).outstandingAmount >= 0
    ensures SettledWithinCollected(ps, ss) ==> SettledWithinCollected(ps, ss + [s])
  {
    SettledAppend(ss, s, s.adminId);
    if SettledWithinCollected(ps, ss) {
      forall a ensures Settled(ss + [s], a) <= Collected(ps, a) {
        SettledAppend(ss, s, a);
      }
    }
  }

  /** The reply to an accepted settlement (HTTP 201, "settlement recorded"). */
  datatype SettlementReceipt = SettlementReceipt(adminId: int, summary: AdminSummary)

  /** `POST /settlements`: the treasurer records that a collector handed over
      cash. */
  method CreateSettlement(store: MoneyStore, auth: Auth, adminId: Option<int>, amount: AmountField,
                          notes: Option<string>, today: Date)
    returns (r: Result<SettlementReceipt, SettleRefusal>)
    requires store.Valid()
    modifies store
    ensures store.Valid()
    ensures auth.AuthRejected? ==> r == Err(SettleUnauthorized(auth.message, auth.status))
    ensures auth.Authenticated? ==>
              var check := CheckSettlement(old(store.users), old(store.payments), old(store.settlements), adminId, amount);
              && (r.Ok? <==> check.Ok?)
              && (check.Err? ==> r == Err(check.error))
              && (check.Ok? ==>
                    var (admin, cents) := check.value;
                    && store.settlements == old(store.settlements)
                         + [Settlement(old(store.nextSettlementId), admin, auth.principal.id, cents, today, notes)]
                    && r.value == SettlementReceipt(admin, SummaryFor(store.payments, store.settlements, admin))
                    && r.value.summary.outstandingAmount
                         == SummaryFor(old(store.payments), old(store.settlements), admin).outstandingAmount - cents
                    && r.value.summary.outstandingAmount >= 0
                    && store.nextSettlementId == old(store.nextSettlementId) + 1)
    ensures r.Err? ==> unchanged(store)
    ensures r.Ok? ==> forall s :: s in old(store.settlements) ==> s.id != old(store.nextSettlementId)
    ensures store.users == old(store.users) && store.people == old(store.people)
    ensures store.invoices == old(store.invoices) && store.payments == old(store.payments)
    ensures store.fundraisers == old(store.fundraisers) && store.nextPaymentId == old(store.nextPaymentId)
    ensures old(store.Solvent()) ==> store.Solvent()
  {
    if auth.AuthRejected? {
      return Err(SettleUnauthorized(auth.message, auth.status));
    }
    var check := CheckSettlement(store.users, store.payments, store.settlements, adminId, amount);
    if check.Err? {
      return Err(check.error);
    }
    var (admin, cents) := check.value;
    var s := Settlement(store.nextSettlementId, admin, auth.principal.id, cents, today, notes);
    AcceptedSettlementKeepsBalance(store.users, store.payments, store.settlements, adminId, amount, s);
    SettlementLowersOutstanding(store.payments, store.settlements, s, admin);
    store.AddSettlement(s);
    r := Ok(SettlementReceipt(admin, SummaryFor(store.payments, store.settlements, admin)));
  }

  // ---------------------------------------------------------------------
  // Listing collectors

  /** `User.query.filter_by(role="ADMIN").all()`, in store order. */
  function Admins(users: seq<User>): (r: seq<User>)
    ensures forall u :: u in r <==> u in users && u.role == ADMIN
    ensures forall u :: multiset(r)[u] == if u.role == ADMIN then multiset(users)[u] else 0
  {
    if users == [] then []
    else
      assert users == [users[0]] + users[1..];
      assert multiset(users) == multiset{users[0]} + multiset(users[1..]);
      if users[0].role == ADMIN then [users[0]] + Admins(users[1..])
      else Admins(users[1..])
  }

  /** The full name from the person details, or the username when there are none. */
  function DisplayName(people: seq<PersonDetails>, u: User): string {
    match DetailsOf(people, u.id)
    case Some(d) => d.fullName
    case None => u.username
  }

  datatype AdminListing = AdminListing(id: int, username: string, fullName: string, summary: AdminSummary)

  /** `GET /admins`: every collector with role ADMIN, each with their summary. */
  method ListAdmins(auth: Auth, users: seq<User>, people: seq<PersonDetails>,
                    ps: seq<Payment>, ss: seq<Settlement>)
    returns (r: Result<seq<AdminListing>, Refusal>)
    ensures auth.AuthRejected? ==> r == Err(AuthRefusal(auth))
    ensures auth.Authenticated? ==> r.Ok? && |r.value| == |Admins(users)|
    ensures auth.Authenticated? ==>
              forall k :: 0 <= k < |r.value| ==>
                var a := Admins(users)[k];
                && r.value[k].id == a.id && r.value[k].username == a.username
                && r.value[k].fullName == DisplayName(people, a)
                && r.value[k].summary == SummaryFor(ps, ss, a.id)
  {
    if auth.AuthRejected? {
      return Err(AuthRefusal(auth));
    }
    var admins := Admins(users);
    var results: seq<AdminListing> := [];
    for k := 0 to |admins|
      invariant |results| == k
      invariant forall m :: 0 <= m < k ==>
                  results[m] == AdminListing(admins[m].id, admins[m].username,
                                             DisplayName(people, admins[m]), SummaryFor(ps, ss, admins[m].id))
    {
      var admin := admins[k];
      results := results + [AdminListing(admin.id, admin.username, DisplayName(people, admin),
                                         SummaryFor(ps, ss, admin.id))];
    }
    r := Ok(results);
  }

  // ---------------------------------------------------------------------
  // One collector in detail

  const RecentLimit: nat := 10

  /** A settlement of `admin` joined with the user who approved it; settlements
      whose treasurer is not a user drop out of the inner join. */
  function SettlementsWithTreasurer(users: seq<User>, ss: seq<Settlement>, admin: int): (r: seq<(Settlement, User)>)
    ensures forall x :: x in r <==> x.0 in ss && x.0.adminId == admin && UserById(users, x.0.treasurerId) == Some(x.1)
    ensures forall x :: multiset(r)[x]
              == if x.0.adminId == admin && UserById(users, x.0.treasurerId) == Some(x.1) then multiset(ss)[x.0] else 0
  {
    if ss == [] then []
    else
      assert ss == [ss[0]] + ss[1..];
      assert multiset(ss) == multiset{ss[0]} + multiset(ss[1..]);
      var rest := SettlementsWithTreasurer(users, ss[1..], admin);
      match UserById(users, ss[0].treasurerId)
      case Some(t) => if ss[0].adminId == admin then [(ss[0], t)] + rest else rest
      case None => rest
  }

  /** `ORDER BY created_at DESC, id DESC`. */
  function NewestFirst(x: (Settlement, User)): seq<int> {
    [-x.0.createdAt.year, -x.0.createdAt.month, -x.0.createdAt.day, -x.0.id]
  }

  /** The ten most recent settlements of `admin`, newest first. */
  function RecentSettlements(users: seq<User>, ss: seq<Settlement>, admin: int): (r: seq<(Settlement, User)>)
    ensures var joined := SettlementsWithTreasurer(users, ss, admin);
            && |r| == (if |joined| < RecentLimit then |joined| else RecentLimit)
            && SortedBy(r, NewestFirst)
            && multiset(r) <= multiset(joined)
            && (forall x :: x in r ==> x in joined)
  {
    var joined := SettlementsWithTreasurer(users, ss, admin);
    var sorted := SortBy(joined, NewestFirst);
    var n := if |sorted| < RecentLimit then |sorted| else RecentLimit;
    assert |sorted| == |multiset(sorted)| == |multiset(joined)|;
    TakeKeepsRows(sorted, n);
    forall x | x in sorted[..n] ensures x in joined {
      assert x in multiset(sorted[..n]);
    }
    sorted[..n]
  }

  /** A settlement left out of the recent list is not newer than any listed one. */
  lemma RecentAreNewest(users: seq<User>, ss: seq<Settlement>, admin: int, x: (Settlement, User))
    requires x in SettlementsWithTreasurer(users, ss, admin)
    requires x !in RecentSettlements(users, ss, admin)
    ensures forall y :: y in RecentSettlements(users, ss, admin) ==> LexLe(NewestFirst(y), NewestFirst(x))
  {
    var joined := SettlementsWithTreasurer(users, ss, admin);
    var sorted := SortBy(joined, NewestFirst);
    var n := if |sorted| < RecentLimit then |sorted| else RecentLimit;
    assert RecentSettlements(users, ss, admin) == sorted[..n];
    SortByMembers(joined, NewestFirst, x);
    PrefixKeepsSmallest(sorted, NewestFirst, n, x);
  }

  datatype AdminDetailsView = AdminDetailsView(
    id: int, username: string, fullName: string, summary: AdminSummary, recent: seq<(Settlement, User)>)

  /** `GET /admins/<id>`: one collector's summary and recent settlements. */
  function AdminDetails(auth: Auth, users: seq<User>, people: seq<PersonDetails>,
                        ps: seq<Payment>, ss: seq<Settlement>, adminId: int)
    : (r: Result<AdminDetailsView, Refusal>)
    ensures auth.AuthRejected? ==> r == Err(AuthRefusal(auth))
    ensures auth.Authenticated? ==>
              (r == Err(Refusal(404, "admin not found")) <==>
                 forall u :: u in users ==> !(u.id == adminId && u.role == ADMIN))
    ensures r.Ok? ==>
              && (exists u :: u in users && u.id == adminId && u.role == ADMIN
                             && r.value.username == u.username && r.value.fullName == DisplayName(people, u))
              && r.value.id == adminId
              && r.value.summary == SummaryFor(ps, ss, adminId)
              && r.value.recent == RecentSettlements(users, ss, adminId)
  {
    if auth.AuthRejected? then Err(AuthRefusal(auth))
    else
      match FindUser(users, adminId, ADMIN)
      case None => Err(Refusal(404, "admin not found"))
      case Some(admin) =>
        Ok(AdminDetailsView(admin.id, admin.username, DisplayName(people, admin),
                            SummaryFor(ps, ss, admin.id), RecentSettlements(users, ss, admin.id)))
  }

  // ---------------------------------------------------------------------
  // The union-wide summary

  datatype UnionReport = UnionReport(
    totalCollected: int, totalSettled: int, unionBalance: int,
    todayCollected: int, thisMonthCollected: int,
    totalInvoices: nat, paidInvoices: nat, unpaidInvoices: int)

  /** Payments created on `day`. */
  function CollectedOn(ps: seq<Payment>, day: Date): int {
    if ps == [] then 0
    else (if ps[0].createdAt == day then ps[0].amount else 0) + CollectedOn(ps[1..], day)
  }

  /** Payments created on or after `from`. */
  function CollectedSince(ps: seq<Payment>, from: Date): int {
    if ps == [] then 0
    else (if OnOrBefore(from, ps[0].createdAt) then ps[0].amount else 0) + CollectedSince(ps[1..], from)
  }

  function CountPaid(invs: seq<Invoice>): nat {
    if invs == [] then 0 else (if invs[0].status == PAID then 1 else 0) + CountPaid(invs[1..])
  }

  /** Invoices whose status is anything but PAID. */
  function CountNotPaid(invs: seq<Invoice>): nat {
    if invs == [] then 0 else (if invs[0].status != PAID then 1 else 0) + CountNotPaid(invs[1..])
  }

  /** The figures of `GET /summary` for the day `today`. */
  function UnionSummary(ps: seq<Payment>, ss: seq<Settlement>, invs: seq<Invoice>, today: Date): (r: UnionReport)
    ensures r.totalInvoices == |invs| && r.paidInvoices + r.unpaidInvoices == r.totalInvoices
    ensures r.unpaidInvoices == CountNotPaid(invs)
    ensures r.unionBalance == r.totalSettled
  {
    var settled := SettlementTotal(ss);
    var paid := CountPaid(invs);
    PaidSplit(invs);
    UnionReport(PaymentTotal(ps), settled, settled,
                CollectedOn(ps, today), CollectedSince(ps, Date(today.year, today.month, 1)),
                |invs|, paid, |invs| - paid)
  }

  /** `GET /summary` with its authentication step. */
  function TreasurerSummary(auth: Auth, ps: seq<Payment>, ss: seq<Settlement>, invs: seq<Invoice>, today: Date)
    : (r: Result<UnionReport, Refusal>)
    ensures auth.AuthRejected? ==> r == Err(AuthRefusal(auth))
    ensures auth.Authenticated? ==> r == Ok(UnionSummary(ps, ss, invs, today))
  {
    if auth.AuthRejected? then Err(AuthRefusal(auth)) else Ok(UnionSummary(ps, ss, invs, today))
  }

  lemma {:induction false} PaidSplit(invs: seq<Invoice>)
    ensures CountPaid(invs) + CountNotPaid(invs) == |invs|
  {
    if invs != [] {
      PaidSplit(invs[1..]);
    }
  }

  lemma {:induction false} WindowsNested(ps: seq<Payment>, today: Date)
    requires 1 <= today.day
    requires forall p :: p in ps ==> p.amount >= 0
    ensures 0 <= CollectedOn(ps, today) <= CollectedSince(ps, Date(today.year, today.month, 1)) <= PaymentTotal(ps)
  {
    if ps != [] {
      WindowsNested(ps[1..], today);
    }
  }

  /** With amounts that are not negative, what came in today is part of what
      came in this month, which is part of everything collected. */
  lemma CollectedWindowsNested(ps: seq<Payment>, ss: seq<Settlement>, invs: seq<Invoice>, today: Date)
    requires 1 <= today.day
    requires forall p :: p in ps ==> p.amount >= 0
    ensures var r := UnionSummary(ps, ss, invs, today);
            0 <= r.todayCollected <= r.thisMonthCollected <= r.totalCollected
  {
    WindowsNested(ps, today);
  }

  lemma {:induction false} CollectedOnAppend(ps: seq<Payment>, p: Payment, day: Date)
    ensures CollectedOn(ps + [p], day) == CollectedOn(ps, day) + (if p.createdAt == day then p.amount else 0)
  {
    if ps != [] {
      assert (ps + [p])[1..] == ps[1..] + [p];
      CollectedOnAppend(ps[1..], p, day);
    } else {
      assert [p][1..] == [];
    }
  }

  lemma {:induction false} CollectedSinceAppend(ps: seq<Payment>, p: Payment, from: Date)
    ensures CollectedSince(ps + [p], from) == CollectedSince(ps, from) + (if OnOrBefore(from, p.createdAt) then p.amount else 0)
  {
    if ps != [] {
      assert (ps + [p])[1..] == ps[1..] + [p];
      CollectedSinceAppend(ps[1..], p, from);
    } else {
      assert [p][1..] == [];
    }
  }

  /** With no payments and no settlements every money figure is zero. */
  lemma EmptyUnionSummary(invs: seq<Invoice>, today: Date)
    ensures var r := UnionSummary([], [], invs, today);
            && r.totalCollected == 0 && r.totalSettled == 0 && r.unionBalance == 0
            && r.todayCollected == 0 && r.thisMonthCollected == 0
  {
  }

  /** A new payment adds its amount to the all-time total, to today's total
      exactly when it was created today, and to this month's exactly when it
      was created on or after the first of the month; the settled figures do
      not move. With `EmptyUnionSummary` this fixes every collected figure. */
  lemma PaymentCounted(ps: seq<Payment>, ss: seq<Settlement>, invs: seq<Invoice>, p: Payment, today: Date)
    ensures var before, after := UnionSummary(ps, ss, invs, today), UnionSummary(ps + [p], ss, invs, today);
            && after.todayCollected == before.todayCollected + (if p.createdAt == today then p.amount else 0)
            && after.thisMonthCollected == before.thisMonthCollected
                 + (if OnOrBefore(Date(today.year, today.month, 1), p.createdAt) then p.amount else 0)
            && after.totalCollected == before.totalCollected + p.amount
            && after.totalSettled == before.totalSettled
            && after.unionBalance == before.unionBalance
  {
    CollectedOnAppend(ps, p, today);
    CollectedSinceAppend(ps, p, Date(today.year, today.month, 1));
    PaymentTotalAppend(ps, [p]);
  }

  /** A settlement raises the union balance by its amount and nothing else
      among the money figures. */
  lemma SettlementRaisesUnionBalance(ps: seq<Payment>, ss: seq<Settlement>, invs: seq<Invoice>, s: Settlement, today: Date)
    ensures var before, after := UnionSummary(ps, ss, invs, today), UnionSummary(ps, ss + [s], invs, today);
            && after.unionBalance == before.unionBalance + s.amount
            && after.unionBalance == after.totalSettled
            && after.totalCollected == before.totalCollected
            && after.todayCollected == before.todayCollected
            && after.thisMonthCollected == before.thisMonthCollected
  {
    SettlementTotalAppend(ss, [s]);
  }

  lemma {:induction false} SettlementTotalWithinCollected(ps: seq<Payment>, ss: seq<Settlement>)
    requires SettledWithinCollected(ps, ss)
    requires forall p :: p in ps ==> p.amount >= 0
    ensures SettlementTotal(ss) <= PaymentTotal(ps)
    decreases |ss|
  {
    if ss == [] {
      PaymentTotalNonNegative(ps);
    } else {
      var a := ss[0].adminId;
      var ss', ps' := SettlementsNotOf(ss, a), PaymentsNotBy(ps, a);
      SettlementTotalSplit(ss, a);
      PaymentTotalSplit(ps, a);
      forall b ensures Settled(ss', b) <= Collected(ps', b) {
        SettledByOthers(ss, a, b);
        CollectedByOthers(ps, a, b);
      }
      SettlementTotalWithinCollected(ps', ss');
    }
  }

  /** While no collector has handed over more than they collected, the union
      balance is covered by the money collected. */
  lemma UnionBalanceWithinCollected(ps: seq<Payment>, ss: seq<Settlement>, invs: seq<Invoice>, today: Date)
    requires SettledWithinCollected(ps, ss)
    requires forall p :: p in ps ==> p.amount >= 0
    ensures UnionSummary(ps, ss, invs, today).unionBalance <= UnionSummary(ps, ss, invs, today).totalCollected
  {
    SettlementTotalWithinCollected(ps, ss);
  }
}
