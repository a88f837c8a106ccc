/** The compound's money store: the rows the route handlers read and write
    (users, person details, maintenance invoices, payments, settlements,
    fundraisers), the request values they receive, and the per-collector
    sums that the treasury's figures are built from.

    Currency is integer cents. Dates are (year, month, day) triples that the
    handlers receive as a parameter instead of reading a clock. */
module Store {

  datatype Option<T> = None | Some(value: T) {
    function GetOr(default: T): T {
      if Some? then value else default
    }
  }

  datatype Result<T, E> = Ok(value: T) | Err(error: E)

  datatype Date = Date(year: int, month: int, day: int)

  /** `a <= b` on dates: year, then month, then day. */
  predicate OnOrBefore(a: Date, b: Date) {
    a.year < b.year || (a.year == b.year && (a.month < b.month || (a.month == b.month && a.day <= b.day)))
  }

  // Role names stored in the users table.
  const RESIDENT: string := "RESIDENT"
  const ADMIN: string := "ADMIN"
  const ONLINE_ADMIN: string := "ONLINE_ADMIN"

  // Invoice status and payment method names.
  const PAID: string := "PAID"
  const CASH: string := "CASH"
  const ONLINE: string := "ONLINE"

  /** The role is free text: registration stores whatever role it is sent. */
  datatype User = User(id: int, username: string, role: string)

  datatype PersonDetails = PersonDetails(
    id: int, userId: int, fullName: string, building: string, floor: string, apartment: string)

  datatype Invoice = Invoice(
    id: int, userId: int, year: int, month: int, amount: int, status: string,
    dueDate: Option<Date>, paidDate: Option<Date>, notes: Option<string>)

  /** A payment; `collectedBy` is the id of the staff user who recorded it. */
  datatype Payment = Payment(
    id: int, userId: int, invoiceId: int, amount: int, payMethod: string,
    notes: Option<string>, collectedBy: Option<int>, createdAt: Date)

  /** A hand-over of cash from collector `adminId` to treasurer `treasurerId`. */
  datatype Settlement = Settlement(
    id: int, adminId: int, treasurerId: int, amount: int, createdAt: Date, notes: Option<string>)

  datatype FundRaiser = FundRaiser(id: int, name: string, amount: int, year: int, month: int)

  /** What the authentication helper answers for a request: the signed-in
      principal, or the (message, status) pair the handler returns as is. */
  datatype Principal = Principal(id: int, role: string)
  datatype Auth = Authenticated(principal: Principal) | AuthRejected(message: string, status: int)

  /** A refused request: HTTP status and message. */
  datatype Refusal = Refusal(status: int, message: string)

  function AuthRefusal(auth: Auth): Refusal
    requires auth.AuthRejected?
  {
    Refusal(auth.status, auth.message)
  }

  /** Python truthiness of an integer request value: present and non-zero. */
  predicate Given(x: Option<int>) {
    x.Some? && x.value != 0
  }

  /** The JSON `amount` of a request: absent or null, a number (in cents), or
      a string together with what `float()` makes of it (None when `float()`
      raises). */
  datatype AmountField = Missing | Number(cents: int) | Text(text: string, asNumber: Option<int>) {

    /** Python truthiness of the raw value. */
    predicate Truthy() {
      match this
      case Missing => false
      case Number(c) => c != 0
      case Text(t, _) => t != ""
    }

    /** `float(amount)`, or None when it raises. */
    function AsCents(): Option<int> {
      match this
      case Missing => None
      case Number(c) => Some(c)
      case Text(_, n) => n
    }
  }

  /** The first user with this id (the `id` column is the primary key). */
  function UserById(users: seq<User>, id: int): (r: Option<User>)
    ensures r.Some? ==> r.value in users && r.value.id == id
    ensures r.None? <==> forall u :: u in users ==> u.id != id
  {
    if users == [] then None
    else if users[0].id == id then Some(users[0])
    else UserById(users[1..], id)
  }

  /** `User.query.filter_by(id=id, role=role).first()`. */
  function FindUser(users: seq<User>, id: int, role: string): (r: Option<User>)
    ensures r.Some? ==> r.value in users && r.value.id == id && r.value.role == role
    ensures r.None? <==> forall u :: u in users ==> !(u.id == id && u.role == role)
  {
    if users == [] then None
    else if users[0].id == id && users[0].role == role then Some(users[0])
    else FindUser(users[1..], id, role)
  }

  /** `PersonDetails.query.filter_by(user_id=userId).first()`. */
  function DetailsOf(people: seq<PersonDetails>, userId: int): (r: Option<PersonDetails>)
    ensures r.Some? ==> r.value in people && r.value.userId == userId
    ensures r.None? <==> forall d :: d in people ==> d.userId != userId
  {
    if people == [] then None
    else if people[0].userId == userId then Some(people[0])
    else DetailsOf(people[1..], userId)
  }

  // ---------------------------------------------------------------------
  // Per-collector sums.

  /** The payments recorded by collector `admin`, in store order. */
  function PaymentsBy(ps: seq<Payment>, admin: int): (r: seq<Payment>)
    ensures forall p :: p in r <==> p in ps && p.collectedBy == Some(admin)
    ensures |r| <= |ps|
  {
    if ps == [] then []
    else if ps[0].collectedBy == Some(admin) then [ps[0]] + PaymentsBy(ps[1..], admin)
    else PaymentsBy(ps[1..], admin)
  }

  /** The payments recorded by anyone other than `admin`. */
  function PaymentsNotBy(ps: seq<Payment>, admin: int): (r: seq<Payment>)
    ensures forall p :: p in r <==> p in ps && p.collectedBy != Some(admin)
  {
    if ps == [] then []
    else if ps[0].collectedBy != Some(admin) then [ps[0]] + PaymentsNotBy(ps[1..], admin)
    else PaymentsNotBy(ps[1..], admin)
  }

  /** `SUM(amount)` with `COALESCE(..., 0)`. */
  function PaymentTotal(ps: seq<Payment>): int {
    if ps == [] then 0 else ps[0].amount + PaymentTotal(ps[1..])
  }

  /** What collector `admin` has collected. */
  function Collected(ps: seq<Payment>, admin: int): int {
    PaymentTotal(PaymentsBy(ps, admin))
  }

  /** The settlements handed over by collector `admin`, in store order. */
  function SettlementsOf(ss: seq<Settlement>, admin: int): (r: seq<Settlement>)
    ensures forall s :: s in r <==> s in ss && s.adminId == admin
    ensures |r| <= |ss|
  {
    if ss == [] then []
    else if ss[0].adminId == admin then [ss[0]] + SettlementsOf(ss[1..], admin)
    else SettlementsOf(ss[1..], admin)
  }

  /** The settlements of every collector other than `admin`. */
  function SettlementsNotOf(ss: seq<Settlement>, admin: int): (r: seq<Settlement>)
    ensures forall s :: s in r <==> s in ss && s.adminId != admin
    ensures |r| <= |ss|
    ensures ss != [] && ss[0].adminId == admin ==> |r| < |ss|
  {
    if ss == [] then []
    else if ss[0].adminId != admin then [ss[0]] + SettlementsNotOf(ss[1..], admin)
    else SettlementsNotOf(ss[1..], admin)
  }

  function SettlementTotal(ss: seq<Settlement>): int {
    if ss == [] then 0 else ss[0].amount + SettlementTotal(ss[1..])
  }

  /** What collector `admin` has handed over to the treasury. */
  function Settled(ss: seq<Settlement>, admin: int): int {
    SettlementTotal(SettlementsOf(ss, admin))
  }

  /** No collector has handed over more than they collected. */
  ghost predicate SettledWithinCollected(ps: seq<Payment>, ss: seq<Settlement>) {
    forall a :: Settled(ss, a) <= Collected(ps, a)
  }

  /** Recording one payment changes only its collector's total, by its amount. */
  lemma {:induction false} CollectedAppend(ps: seq<Payment>, p: Payment, admin: int)
    ensures Collected(ps + [p], admin)
         == Collected(ps, admin) + (if p.collectedBy == Some(admin) then p.amount else 0)
  {
    PaymentsByAppend(ps, p, admin);
    PaymentTotalAppend(PaymentsBy(ps, admin), if p.collectedBy == Some(admin) then [p] else []);
  }

  lemma {:induction false} PaymentsByAppend(ps: seq<Payment>, p: Payment, admin: int)
    ensures PaymentsBy(ps + [p], admin)
         == PaymentsBy(ps, admin) + (if p.collectedBy == Some(admin) then [p] else [])
  {
    if ps != [] {
      assert (ps + [p])[1..] == ps[1..] + [p];
      PaymentsByAppend(ps[1..], p, admin);
    } else {
      assert [p][1..] == [];
    }
  }

  lemma {:induction false} PaymentTotalAppend(xs: seq<Payment>, ys: seq<Payment>)
    ensures PaymentTotal(xs + ys) == PaymentTotal(xs) + PaymentTotal(ys)
  {
    if xs != [] {
      assert (xs + ys)[1..] == xs[1..] + ys;
      PaymentTotalAppend(xs[1..], ys);
    } else {
      assert xs + ys == ys;
    }
  }

  /** Handing over one settlement changes only its collector's settled sum. */
  lemma {:induction false} SettledAppend(ss: seq<Settlement>, s: Settlement, admin: int)
    ensures Settled(ss + [s], admin)
         == Settled(ss, admin) + (if s.adminId == admin then s.amount else 0)
  {
    SettlementsOfAppend(ss, s, admin);
    SettlementTotalAppend(SettlementsOf(ss, admin), if s.adminId == admin then [s] else []);
  }

  lemma {:induction false} SettlementsOfAppend(ss: seq<Settlement>, s: Settlement, admin: int)
    ensures SettlementsOf(ss + [s], admin)
         == SettlementsOf(ss, admin) + (if s.adminId == admin then [s] else [])
  {
    if ss != [] {
      assert (ss + [s])[1..] == ss[1..] + [s];
      SettlementsOfAppend(ss[1..], s, admin);
    } else {
      assert [s][1..] == [];
    }
  }

  lemma {:induction false} SettlementTotalAppend(xs: seq<Settlement>, ys: seq<Settlement>)
    ensures SettlementTotal(xs + ys) == SettlementTotal(xs) + SettlementTotal(ys)
  {
    if xs != [] {
      assert (xs + ys)[1..] == xs[1..] + ys;
      SettlementTotalAppend(xs[1..], ys);
    } else {
      assert xs + ys == ys;
    }
  }

  /** All money collected splits into one collector's part and everyone else's. */
  lemma {:induction false} PaymentTotalSplit(ps: seq<Payment>, admin: int)
    ensures PaymentTotal(ps) == Collected(ps, admin) + PaymentTotal(PaymentsNotBy(ps, admin))
  {
    if ps != [] {
      var h, t := ps[0], ps[1..];
      PaymentTotalSplit(t, admin);
      assert ([h] + PaymentsBy(t, admin))[1..] == PaymentsBy(t, admin);
      assert ([h] + PaymentsNotBy(t, admin))[1..] == PaymentsNotBy(t, admin);
    }
  }

  lemma {:induction false} CollectedByOthers(ps: seq<Payment>, admin: int, other: int)
    ensures Collected(PaymentsNotBy(ps, admin), other) == if other == admin then 0 else Collected(ps, other)
  {
    if ps != [] {
      var h, t := ps[0], ps[1..];
      CollectedByOthers(t, admin, other);
      var rest := PaymentsNotBy(t, admin);
      if h.collectedBy != Some(admin) {
        assert PaymentsNotBy(ps, admin) == [h] + rest;
        assert ([h] + rest)[1..] == rest;
        if h.collectedBy == Some(other) {
          assert ([h] + PaymentsBy(rest, other))[1..] == PaymentsBy(rest, other);
          assert ([h] + PaymentsBy(t, other))[1..] == PaymentsBy(t, other);
          assert PaymentsBy([h] + rest, other) == [h] + PaymentsBy(rest, other);
          assert PaymentsBy(ps, other) == [h] + PaymentsBy(t, other);
        } else {
          assert PaymentsBy([h] + rest, other) == PaymentsBy(rest, other);
          assert PaymentsBy(ps, other) == PaymentsBy(t, other);
        }
      } else {
        assert PaymentsNotBy(ps, admin) == rest;
        if other != admin {
          assert PaymentsBy(ps, other) == PaymentsBy(t, other);
        }
      }
    }
  }

  /** All money settled splits into one collector's part and everyone else's. */
  lemma {:induction false} SettlementTotalSplit(ss: seq<Settlement>, admin: int)
    ensures SettlementTotal(ss) == Settled(ss, admin) + SettlementTotal(SettlementsNotOf(ss, admin))
  {
    if ss != [] {
      var h, t := ss[0], ss[1..];
      SettlementTotalSplit(t, admin);
      assert ([h] + SettlementsOf(t, admin))[1..] == SettlementsOf(t, admin);
      assert ([h] + SettlementsNotOf(t, admin))[1..] == SettlementsNotOf(t, admin);
    }
  }

  lemma {:induction false} SettledByOthers(ss: seq<Settlement>, admin: int, other: int)
    ensures Settled(SettlementsNotOf(ss, admin), other) == if other == admin then 0 else Settled(ss, other)
  {
    if ss != [] {
      var h, t := ss[0], ss[1..];
      SettledByOthers(t, admin, other);
      var rest := SettlementsNotOf(t, admin);
      if h.adminId != admin {
        assert SettlementsNotOf(ss, admin) == [h] + rest;
        assert ([h] + rest)[1..] == rest;
        if h.adminId == other {
          assert ([h] + SettlementsOf(rest, other))[1..] == SettlementsOf(rest, other);
          assert ([h] + SettlementsOf(t, other))[1..] == SettlementsOf(t, other);
          assert SettlementsOf([h] + rest, other) == [h] + SettlementsOf(rest, other);
          assert SettlementsOf(ss, other) == [h] + SettlementsOf(t, other);
        } else {
          assert SettlementsOf([h] + rest, other) == SettlementsOf(rest, other);
          assert SettlementsOf(ss, other) == SettlementsOf(t, other);
        }
      } else {
        assert SettlementsNotOf(ss, admin) == rest;
        if other != admin {
          assert SettlementsOf(ss, other) == SettlementsOf(t, other);
        }
      }
    }
  }

  lemma {:induction false} PaymentTotalNonNegative(ps: seq<Payment>)
    requires forall p :: p in ps ==> p.amount >= 0
    ensures PaymentTotal(ps) >= 0
  {
    if ps != [] {
      PaymentTotalNonNegative(ps[1..]);
    }
  }

  /** One past the largest payment id (1 for no payments), as an
      auto-incrementing key would hand out next. */
  function NextPaymentId(ps: seq<Payment>): (r: int)
    ensures forall p :: p in ps ==> p.id < r
  {
    if ps == [] then 1
    else
      var rest := NextPaymentId(ps[1..]);
      if ps[0].id >= rest then ps[0].id + 1 else rest
  }

  function NextSettlementId(ss: seq<Settlement>): (r: int)
    ensures forall s :: s in ss ==> s.id < r
  {
    if ss == [] then 1
    else
      var rest := NextSettlementId(ss[1..]);
      if ss[0].id >= rest then ss[0].id + 1 else rest
  }

  /** Some payment was recorded against invoice `invoiceId`. */
  ghost predicate HasPayment(ps: seq<Payment>, invoiceId: int) {
    exists p :: p in ps && p.invoiceId == invoiceId
  }

  /** Every invoice marked PAID has a payment recorded against it. */
  ghost predicate PaidBacked(invs: seq<Invoice>, ps: seq<Payment>) {
    forall i :: 0 <= i < |invs| && invs[i].status == PAID ==> HasPayment(ps, invs[i].id)
  }

  /** The database tables, updated in place by the handlers that write. */
  class MoneyStore {
    var users: seq<User>
    var people: seq<PersonDetails>
    var invoices: seq<Invoice>
    var payments: seq<Payment>
    var settlements: seq<Settlement>
    var fundraisers: seq<FundRaiser>
    // the next keys the auto-incrementing id columns hand out
    var nextPaymentId: int
    var nextSettlementId: int

    /** Every stored id is below the next key of its table. */
    ghost predicate Valid()
      reads this
    {
      && (forall p :: p in payments ==> p.id < nextPaymentId)
      && (forall s :: s in settlements ==> s.id < nextSettlementId)
    }

    ghost predicate Solvent()
      reads this
    {
      SettledWithinCollected(payments, settlements)
    }

    /** Every invoice marked PAID has a payment recorded against it. */
    ghost predicate PaidInvoicesBacked()
      reads this
    {
      PaidBacked(invoices, payments)
    }

    constructor (users: seq<User>, people: seq<PersonDetails>, invoices: seq<Invoice>,
                 payments: seq<Payment>, settlements: seq<Settlement>, fundraisers: seq<FundRaiser>)
      ensures Valid()
      ensures this.users == users && this.people == people && this.invoices == invoices
      ensures this.payments == payments && this.settlements == settlements
      ensures this.fundraisers == fundraisers
    {
      this.users := users;
      this.people := people;
      this.invoices := invoices;
      this.payments := payments;
      this.settlements := settlements;
      this.fundraisers := fundraisers;
      this.nextPaymentId := NextPaymentId(payments);
      this.nextSettlementId := NextSettlementId(settlements);
    }

    /** Adds settlement `s` under the next key of its table. */
    method AddSettlement(s: Settlement)
      requires Valid() && s.id == nextSettlementId
      modifies this
      ensures Valid()
      ensures settlements == old(settlements) + [s] && nextSettlementId == old(nextSettlementId) + 1
      ensures users == old(users) && people == old(people) && invoices == old(invoices)
      ensures payments == old(payments) && fundraisers == old(fundraisers) && nextPaymentId == old(nextPaymentId)
    {
      settlements := settlements + [s];
      nextSettlementId := nextSettlementId + 1;
    }

    /** Replaces invoice `i` by `inv` and adds payment `p` under the next key
        of its table, in one commit. */
    method UpdateInvoiceAddPayment(i: nat, inv: Invoice, p: Payment)
      requires Valid() && i < |invoices| && p.id == nextPaymentId
      modifies this
      ensures Valid()
      ensures invoices == old(invoices)[i := inv]
      ensures payments == old(payments) + [p] && nextPaymentId == old(nextPaymentId) + 1
      ensures users == old(users) && people == old(people) && settlements == old(settlements)
      ensures fundraisers == old(fundraisers) && nextSettlementId == old(nextSettlementId)
    {
      invoices := invoices[i := inv];
      payments := payments + [p];
      nextPaymentId := nextPaymentId + 1;
    }
  }
}
