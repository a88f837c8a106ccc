/** The collector's desk: searching residents, listing one resident's
    invoices, and recording a cash payment against an invoice. */
module AdminDesk {
  import opened Store
  import opened Ordering
  import opened TextOps
  import Treasury

  // ---------------------------------------------------------------------
  // Recording a payment

  datatype CollectRefusal =
    | CollectUnauthorized(message: string, status: int)
    | CollectFieldsRequired
    | CollectInvalidAmount
    | InvoiceNotFound
    | AlreadyPaid
  {
    function Status(): int {
      match this
      case CollectUnauthorized(_, status) => status
      case InvoiceNotFound => 404
      case _ => 400
    }

    function Message(): string {
      match this
      case CollectUnauthorized(message, _) => message
      case CollectFieldsRequired => "user_id, invoice_id and amount are required"
      case CollectInvalidAmount => "invalid amount"
      case InvoiceNotFound => "invoice not found for this user"
      case AlreadyPaid => "invoice already paid"
    }
  }

  /** Invoice `invs[k]` is invoice `invoiceId` of resident `userId`. */
  predicate InvoiceOf(invs: seq<Invoice>, k: int, invoiceId: int, userId: int)
    requires 0 <= k < |invs|
  {
    invs[k].id == invoiceId && invs[k].userId == userId
  }

  /** `MaintenanceInvoice.query.filter_by(id=invoiceId, user_id=userId).first()`,
      as a position in the table. */
  function FindInvoice(invs: seq<Invoice>, invoiceId: int, userId: int): (r: Option<nat>)
    ensures r.Some? ==> r.value < |invs| && InvoiceOf(invs, r.value, invoiceId, userId)
                        && forall k :: 0 <= k < r.value ==> !InvoiceOf(invs, k, invoiceId, userId)
    ensures r.None? ==> forall k :: 0 <= k < |invs| ==> !InvoiceOf(invs, k, invoiceId, userId)
  {
    if invs == [] then None
    else if invs[0].id == invoiceId && invs[0].userId == userId then Some(0)
    else
      match FindInvoice(invs[1..], invoiceId, userId)
      case None =>
        assert forall k :: 1 <= k < |invs| ==>
          (InvoiceOf(invs, k, invoiceId, userId) <==> InvoiceOf(invs[1..], k - 1, invoiceId, userId));
        None
      case Some(k) =>
        assert forall j :: 1 <= j < |invs| ==>
          (InvoiceOf(invs, j, invoiceId, userId) <==> InvoiceOf(invs[1..], j - 1, invoiceId, userId));
        Some(k + 1)
  }

  /** The checks a collection request passes through, in order; on success the
      position of the invoice and the amount in cents. */
  function CheckCollection(invs: seq<Invoice>, userId: Option<int>, invoiceId: Option<int>, amount: AmountField)
    : (r: Result<(nat, int), CollectRefusal>)
    ensures r == Err(CollectFieldsRequired) <==> !Given(userId) || !Given(invoiceId) || !amount.Truthy()
    ensures r == Err(CollectInvalidAmount) <==>
              Given(userId) && Given(invoiceId) && amount.Truthy()
              && (amount.AsCents().None? || amount.AsCents().value <= 0)
    ensures r == Err(InvoiceNotFound) <==>
              Given(userId) && Given(invoiceId) && amount.Truthy()
              && amount.AsCents().Some? && amount.AsCents().value > 0
              && forall k :: 0 <= k < |invs| ==> !InvoiceOf(invs, k, invoiceId.value, userId.value)
    ensures r == Err(AlreadyPaid) ==>
              exists k :: 0 <= k < |invs| && InvoiceOf(invs, k, invoiceId.value, userId.value) && invs[k].status == PAID
    ensures r == Err(AlreadyPaid) <==>
              Given(userId) && Given(invoiceId) && amount.Truthy()
              && amount.AsCents().Some? && amount.AsCents().value > 0
              && FindInvoice(invs, invoiceId.value, userId.value).Some?
              && invs[FindInvoice(invs, invoiceId.value, userId.value).value].status == PAID
    ensures r.Ok? ==>
              && FindInvoice(invs, invoiceId.value, userId.value) == Some(r.value.0)
              && r.value.0 < |invs|
              && InvoiceOf(invs, r.value.0, invoiceId.value, userId.value)
              && invs[r.value.0].status != PAID
              && r.value.1 == amount.AsCents().value > 0
    ensures r.Err? ==> !r.error.CollectUnauthorized?
  {
    if !Given(userId) || !Given(invoiceId) || !amount.Truthy() then Err(CollectFieldsRequired)
    else if amount.AsCents().None? || amount.AsCents().value <= 0 then Err(CollectInvalidAmount)
    else
      match FindInvoice(invs, invoiceId.value, userId.value)
      case None => Err(InvoiceNotFound)
      case Some(i) => if invs[i].status == PAID then Err(AlreadyPaid) else Ok((i, amount.AsCents().value))
  }

  /** The reply to a refused collection: 404 exactly when the resident has no
      such invoice, 400 for every other check. */
  lemma CollectRefusalReplies(invs: seq<Invoice>, userId: Option<int>, invoiceId: Option<int>, amount: AmountField)
    requires CheckCollection(invs, userId, invoiceId, amount).Err?
    ensures var e := CheckCollection(invs, userId, invoiceId, amount).error;
            && (e.Status() == 404 <==> e == InvoiceNotFound)
            && (e.Status() == 400 <==> e != InvoiceNotFound)
            && (e == AlreadyPaid <==> e.Message() == "invoice already paid")
  {
  }

  /** The invoice as it is after being marked paid on `today`. */
  function MarkedPaid(inv: Invoice, today: Date): (r: Invoice)
    ensures r.status == PAID && r.paidDate == Some(today)
    ensures r.id == inv.id && r.userId == inv.userId && r.year == inv.year && r.month == inv.month
    ensures r.amount == inv.amount && r.dueDate == inv.dueDate && r.notes == inv.notes
  {
    inv.(status := PAID, paidDate := Some(today))
  }

  /** The reply to a recorded payment ("payment recorded and invoice marked as PAID"). */
  datatype CollectionReceipt = CollectionReceipt(invoice: Invoice, payment: Payment)

  /** `POST /collect`: the signed-in collector records a payment for an
      invoice and marks the invoice paid. */
  method CollectPayment(store: MoneyStore, auth: Auth, userId: Option<int>, invoiceId: Option<int>,
                        amount: AmountField, payMethod: Option<string>, notes: Option<string>, today: Date)
    returns (r: Result<CollectionReceipt, CollectRefusal>)
    requires store.Valid()
    modifies store
    ensures store.Valid()
    ensures auth.AuthRejected? ==> r == Err(CollectUnauthorized(auth.message, auth.status))
    ensures auth.Authenticated? ==>
              var check := CheckCollection(old(store.invoices), userId, invoiceId, amount);
              && (r.Ok? <==> check.Ok?)
              && (check.Err? ==> r == Err(check.error))
              && (check.Ok? ==>
                    var (i, cents) := check.value;
                    var p := Payment(old(store.nextPaymentId), userId.value, invoiceId.value, cents,
                                     payMethod.GetOr(CASH), notes, Some(auth.principal.id), today);
                    && store.invoices == old(store.invoices)[i := MarkedPaid(old(store.invoices)[i], today)]
                    && store.payments == old(store.payments) + [p]
                    && store.nextPaymentId == old(store.nextPaymentId) + 1
                    && r.value == CollectionReceipt(store.invoices[i], p)
                    && Treasury.SummaryFor(store.payments, store.settlements, auth.principal.id).outstandingAmount
                       == Treasury.SummaryFor(old(store.payments), old(store.settlements), auth.principal.id).outstandingAmount + cents)
    ensures r.Err? ==> unchanged(store)
    ensures store.users == old(store.users) && store.people == old(store.people)
    ensures store.settlements == old(store.settlements) && store.fundraisers == old(store.fundraisers)
    ensures store.nextSettlementId == old(store.nextSettlementId)
    ensures old(store.Solvent()) ==> store.Solvent()
    ensures old(store.PaidInvoicesBacked()) ==> store.PaidInvoicesBacked()
  {
    if auth.AuthRejected? {
      return Err(CollectUnauthorized(auth.message, auth.status));
    }
    var check := CheckCollection(store.invoices, userId, invoiceId, amount);
    if check.Err? {
      return Err(check.error);
    }
    var (i, cents) := check.value;
    var p := Payment(store.nextPaymentId, userId.value, invoiceId.value, cents,
                     payMethod.GetOr(CASH), notes, Some(auth.principal.id), today);
    Treasury.PaymentRaisesOutstanding(store.payments, store.settlements, p, auth.principal.id);
    PaymentKeepsSolvency(store.payments, store.settlements, p);
    MarkPaidKeepsBacked(store.invoices, store.payments, i, p, today);
    store.UpdateInvoiceAddPayment(i, MarkedPaid(store.invoices[i], today), p);
    r := Ok(CollectionReceipt(store.invoices[i], p));
  }

  /** A payment of an amount that is not negative keeps every collector's
      hand-overs within what they collected. */
  lemma PaymentKeepsSolvency(ps: seq<Payment>, ss: seq<Settlement>, p: Payment)
    requires p.amount >= 0
    ensures SettledWithinCollected(ps, ss) ==> SettledWithinCollected(ps + [p], ss)
  {
    if SettledWithinCollected(ps, ss) {
      forall a ensures Settled(ss, a) <= Collected(ps + [p], a) {
        CollectedAppend(ps, p, a);
      }
    }
  }

  /** Marking an invoice paid together with recording a payment against it
      keeps every paid invoice backed by a payment. */
  lemma MarkPaidKeepsBacked(invs: seq<Invoice>, ps: seq<Payment>, i: nat, p: Payment, today: Date)
    requires i < |invs| && p.invoiceId == invs[i].id
    ensures PaidBacked(invs, ps) ==> PaidBacked(invs[i := MarkedPaid(invs[i], today)], ps + [p])
  {
    var after := invs[i := MarkedPaid(invs[i], today)];
    if PaidBacked(invs, ps) {
      forall k | 0 <= k < |after| && after[k].status == PAID ensures HasPayment(ps + [p], after[k].id) {
        if k == i {
          assert p in ps + [p];
        } else {
          var q :| q in ps && q.invoiceId == invs[k].id;
          assert q in ps + [p];
        }
      }
    }
  }

  /** Once an invoice is collected, a second request for it is refused as
      already paid, whatever positive amount it carries. */
  lemma SecondCollectionRefused(invs: seq<Invoice>, userId: Option<int>, invoiceId: Option<int>,
                                amount: AmountField, again: AmountField, today: Date)
    requires CheckCollection(invs, userId, invoiceId, amount).Ok?
    requires again.Truthy() && again.AsCents().Some? && again.AsCents().value > 0
    ensures var i := CheckCollection(invs, userId, invoiceId, amount).value.0;
            CheckCollection(invs[i := MarkedPaid(invs[i], today)], userId, invoiceId, again) == Err(AlreadyPaid)
  {
    var i := CheckCollection(invs, userId, invoiceId, amount).value.0;
    var after := invs[i := MarkedPaid(invs[i], today)];
    var j := FindInvoice(invs, invoiceId.value, userId.value);
    assert j == Some(i);
    var j' := FindInvoice(after, invoiceId.value, userId.value);
    assert InvoiceOf(after, i, invoiceId.value, userId.value);
    forall k | 0 <= k < i ensures !InvoiceOf(after, k, invoiceId.value, userId.value) {
      assert !InvoiceOf(invs, k, invoiceId.value, userId.value);
      assert after[k] == invs[k];
    }
    assert j' == Some(i);
  }

  // ---------------------------------------------------------------------
  // Unpaid invoices per resident

  /** `MaintenanceInvoice.query.filter_by(user_id=userId).filter(status != "PAID").count()`. */
  function UnpaidCount(invs: seq<Invoice>, userId: int): (r: nat)
    ensures r <= |invs|
    ensures r == 0 <==> forall inv :: inv in invs && inv.userId == userId ==> inv.status == PAID
  {
    if invs == [] then 0
    else
      assert forall inv :: inv in invs <==> inv == invs[0] || inv in invs[1..];
      (if invs[0].userId == userId && invs[0].status != PAID then 1 else 0) + UnpaidCount(invs[1..], userId)
  }

  /** Marking an unpaid invoice paid lowers its resident's unpaid count by one
      and no one else's. */
  lemma {:induction false} MarkPaidLowersUnpaid(invs: seq<Invoice>, i: nat, today: Date, userId: int)
    requires i < |invs| && invs[i].status != PAID
    ensures UnpaidCount(invs[i := MarkedPaid(invs[i], today)], userId)
         == UnpaidCount(invs, userId) - (if invs[i].userId == userId then 1 else 0)
    decreases |invs|
  {
    var after := invs[i := MarkedPaid(invs[i], today)];
    if i == 0 {
      assert after[1..] == invs[1..];
    } else {
      assert after[1..] == invs[1..][i - 1 := MarkedPaid(invs[i], today)];
      MarkPaidLowersUnpaid(invs[1..], i - 1, today, userId);
    }
  }

  // ---------------------------------------------------------------------
  // Searching residents

  /** The person-details rows of user `u`, paired with it. */
  function DetailsRows(u: User, people: seq<PersonDetails>): (r: seq<(User, PersonDetails)>)
    ensures forall x :: x in r <==> x.0 == u && x.1 in people && x.1.userId == u.id
    ensures forall x :: multiset(r)[x] == if x.0 == u && x.1.userId == u.id then multiset(people)[x.1] else 0
  {
    if people == [] then []
    else
      assert people == [people[0]] + people[1..];
      assert multiset(people) == multiset{people[0]} + multiset(people[1..]);
      var rest := DetailsRows(u, people[1..]);
      if people[0].userId == u.id then [(u, people[0])] + rest else rest
  }

  /** Residents inner-joined with their person details. */
  function ResidentJoin(users: seq<User>, people: seq<PersonDetails>): (r: seq<(User, PersonDetails)>)
    ensures forall x :: x in r <==> x.0 in users && x.0.role == RESIDENT && x.1 in people && x.1.userId == x.0.id
    ensures forall x :: multiset(r)[x]
              == if x.0.role == RESIDENT && x.1.userId == x.0.id then Times(multiset(users)[x.0], multiset(people)[x.1]) else 0
  {
    if users == [] then []
    else
      var rest := ResidentJoin(users[1..], people);
      var mine := if users[0].role == RESIDENT then DetailsRows(users[0], people) else [];
      JoinStep(users, people, mine, rest);
      mine + rest
  }

  /** One step of the join's pair count: the rows of the first user plus those
      of the others. */
  lemma JoinStep(users: seq<User>, people: seq<PersonDetails>,
                 mine: seq<(User, PersonDetails)>, rest: seq<(User, PersonDetails)>)
    requires users != []
    requires mine == if users[0].role == RESIDENT then DetailsRows(users[0], people) else []
    requires forall x :: multiset(rest)[x]
               == if x.0.role == RESIDENT && x.1.userId == x.0.id then Times(multiset(users[1..])[x.0], multiset(people)[x.1]) else 0
    ensures forall x :: multiset(mine + rest)[x]
              == if x.0.role == RESIDENT && x.1.userId == x.0.id then Times(multiset(users)[x.0], multiset(people)[x.1]) else 0
  {
    forall x: (User, PersonDetails)
      ensures multiset(mine + rest)[x]
              == if x.0.role == RESIDENT && x.1.userId == x.0.id then Times(multiset(users)[x.0], multiset(people)[x.1]) else 0
    {
      JoinPair(users, people, mine, rest, x);
    }
  }

  lemma JoinPair(users: seq<User>, people: seq<PersonDetails>,
                 mine: seq<(User, PersonDetails)>, rest: seq<(User, PersonDetails)>, x: (User, PersonDetails))
    requires users != []
    requires mine == if users[0].role == RESIDENT then DetailsRows(users[0], people) else []
    requires multiset(rest)[x]
               == if x.0.role == RESIDENT && x.1.userId == x.0.id then Times(multiset(users[1..])[x.0], multiset(people)[x.1]) else 0
    ensures multiset(mine + rest)[x]
              == if x.0.role == RESIDENT && x.1.userId == x.0.id then Times(multiset(users)[x.0], multiset(people)[x.1]) else 0
  {
    HeadCount(users, x.0);
    MineCount(users, people, mine, x);
    assert multiset(mine + rest)[x] == multiset(mine)[x] + multiset(rest)[x];
    if users[0].role == RESIDENT && users[0] == x.0 && x.1.userId == x.0.id {
      assert Times(multiset(users)[x.0], multiset(people)[x.1])
             == multiset(people)[x.1] + Times(multiset(users[1..])[x.0], multiset(people)[x.1]);
    }
  }

  lemma HeadCount<T>(s: seq<T>, x: T)
    requires s != []
    ensures multiset(s)[x] == (if s[0] == x then 1 else 0) + multiset(s[1..])[x]
  {
    assert s == [s[0]] + s[1..];
  }

  lemma MineCount(users: seq<User>, people: seq<PersonDetails>,
                  mine: seq<(User, PersonDetails)>, x: (User, PersonDetails))
    requires users != []
    requires mine == if users[0].role == RESIDENT then DetailsRows(users[0], people) else []
    ensures multiset(mine)[x]
            == if users[0].role == RESIDENT && users[0] == x.0 && x.1.userId == x.0.id then multiset(people)[x.1] else 0
  {
  }

  /** `m` copies of `n`: the product `m * n`, written out so that counting
      join pairs stays linear arithmetic. */
  function Times(m: nat, n: nat): nat {
    if m == 0 then 0 else n + Times(m - 1, n)
  }

  lemma {:induction false} TimesIsProduct(m: nat, n: nat)
    ensures Times(m, n) == m * n
  {
    if m > 0 {
      TimesIsProduct(m - 1, n);
    }
  }

  /** The search filter: an empty query matches everyone; otherwise the query
      must occur (ILIKE `%query%`) in one of the five searched columns. */
  predicate MatchesQuery(x: (User, PersonDetails), query: string) {
    var like := "%" + query + "%";
    query == ""
    || ILike(x.0.username, like) || ILike(x.1.fullName, like)
    || ILike(x.1.building, like) || ILike(x.1.floor, like) || ILike(x.1.apartment, like)
  }

  function Matching(rows: seq<(User, PersonDetails)>, query: string): (r: seq<(User, PersonDetails)>)
    ensures forall x :: x in r <==> x in rows && MatchesQuery(x, query)
    ensures forall x :: multiset(r)[x] == if MatchesQuery(x, query) then multiset(rows)[x] else 0
  {
    if rows == [] then []
    else
      assert rows == [rows[0]] + rows[1..];
      assert multiset(rows) == multiset{rows[0]} + multiset(rows[1..]);
      var rest := Matching(rows[1..], query);
      if MatchesQuery(rows[0], query) then [rows[0]] + rest else rest
  }

  /** `ORDER BY building, floor, apartment`. */
  function ByUnit(x: (User, PersonDetails)): seq<int> {
    TextKey(x.1.building) + (TextKey(x.1.floor) + TextKey(x.1.apartment))
  }

  /** The rows `GET /residents?query=raw` lists, in order. */
  function SearchRows(users: seq<User>, people: seq<PersonDetails>, raw: string): (r: seq<(User, PersonDetails)>)
    ensures SortedBy(r, ByUnit)
    ensures multiset(r) == multiset(Matching(ResidentJoin(users, people), Strip(raw)))
  {
    SortBy(Matching(ResidentJoin(users, people), Strip(raw)), ByUnit)
  }

  /** A row is listed exactly when it is a resident with person details that
      matches the stripped query. */
  lemma SearchRowsMembers(users: seq<User>, people: seq<PersonDetails>, raw: string, x: (User, PersonDetails))
    ensures x in SearchRows(users, people, raw) <==>
              x.0 in users && x.0.role == RESIDENT && x.1 in people && x.1.userId == x.0.id
              && MatchesQuery(x, Strip(raw))
  {
    SortByMembers(Matching(ResidentJoin(users, people), Strip(raw)), ByUnit, x);
  }

  /** The listing order is building, then floor, then apartment, each
      compared by code point. */
  lemma ByUnitOrder(x: (User, PersonDetails), y: (User, PersonDetails))
    ensures LexLe(ByUnit(x), ByUnit(y)) <==>
              || TextBefore(x.1.building, y.1.building)
              || (x.1.building == y.1.building
                  && (|| TextBefore(x.1.floor, y.1.floor)
                      || (x.1.floor == y.1.floor && (TextBefore(x.1.apartment, y.1.apartment)
                                                      || x.1.apartment == y.1.apartment))))
  {
    TextKeyOrder(x.1.building, y.1.building, TextKey(x.1.floor) + TextKey(x.1.apartment),
                 TextKey(y.1.floor) + TextKey(y.1.apartment));
    TextKeyOrder(x.1.floor, y.1.floor, TextKey(x.1.apartment), TextKey(y.1.apartment));
    assert TextKey(x.1.apartment) + [] == TextKey(x.1.apartment);
    assert TextKey(y.1.apartment) + [] == TextKey(y.1.apartment);
    TextKeyOrder(x.1.apartment, y.1.apartment, [], []);
  }

  /** A query made of ordinary characters is a case-insensitive substring
      search over the five columns. */
  lemma LiteralQueryIsSubstringSearch(x: (User, PersonDetails), query: string)
    requires Literal(query) && query != ""
    ensures MatchesQuery(x, query) <==>
              || Contains(Lower(x.0.username), Lower(query))
              || Contains(Lower(x.1.fullName), Lower(query))
              || Contains(Lower(x.1.building), Lower(query))
              || Contains(Lower(x.1.floor), Lower(query))
              || Contains(Lower(x.1.apartment), Lower(query))
  {
    ILikeSubstring(x.0.username, query);
    ILikeSubstring(x.1.fullName, query);
    ILikeSubstring(x.1.building, query);
    ILikeSubstring(x.1.floor, query);
    ILikeSubstring(x.1.apartment, query);
  }

  /** The query is not escaped: a query of `%` matches every resident, as
      `%%%` is a pattern any text matches. */
  lemma PercentQueryMatchesAll(x: (User, PersonDetails))
    ensures MatchesQuery(x, "%")
  {
    var p := "%" + "%" + "%";
    assert Lower(p) == p;
    assert p[0] == '%' && p[1..] == "%%";
    assert "%%"[0] == '%' && "%%"[1..] == "%";
    var name := Lower(x.0.username);
    PercentMatchesAll(name);
    assert LikeMatch(name, "%%");
    assert LikeMatch(name, p);
    assert ILike(x.0.username, "%" + "%" + "%");
  }

  /** A query of white space only lists every resident that has person details. */
  lemma BlankQueryListsAll(users: seq<User>, people: seq<PersonDetails>, raw: string, x: (User, PersonDetails))
    requires forall k :: 0 <= k < |raw| ==> IsSpace(raw[k])
    ensures x in SearchRows(users, people, raw) <==>
              x.0 in users && x.0.role == RESIDENT && x.1 in people && x.1.userId == x.0.id
  {
    SearchRowsMembers(users, people, raw, x);
  }

  datatype ResidentRow = ResidentRow(user: User, details: PersonDetails, unpaidCount: nat)

  /** `GET /residents?query=raw`. */
  method SearchResidents(auth: Auth, users: seq<User>, people: seq<PersonDetails>, invs: seq<Invoice>, raw: string)
    returns (r: Result<seq<ResidentRow>, Refusal>)
    ensures auth.AuthRejected? ==> r == Err(AuthRefusal(auth))
    ensures auth.Authenticated? ==> r.Ok? && |r.value| == |SearchRows(users, people, raw)|
    ensures auth.Authenticated? ==>
              forall k :: 0 <= k < |r.value| ==>
                && r.value[k].user == SearchRows(users, people, raw)[k].0
                && r.value[k].details == SearchRows(users, people, raw)[k].1
                && r.value[k].unpaidCount == UnpaidCount(invs, r.value[k].user.id)
  {
    if auth.AuthRejected? {
      return Err(AuthRefusal(auth));
    }
    var rows := SearchRows(users, people, raw);
    var results: seq<ResidentRow> := [];
    for k := 0 to |rows|
      invariant |results| == k
      invariant forall m :: 0 <= m < k ==>
                  results[m] == ResidentRow(rows[m].0, rows[m].1, UnpaidCount(invs, rows[m].0.id))
    {
      var (user, details) := rows[k];
      results := results + [ResidentRow(user, details, UnpaidCount(invs, user.id))];
    }
    r := Ok(results);
  }

  // ---------------------------------------------------------------------
  // One resident's invoices

  function InvoicesOf(invs: seq<Invoice>, userId: int): (r: seq<Invoice>)
    ensures forall inv :: inv in r <==> inv in invs && inv.userId == userId
    ensures forall inv :: multiset(r)[inv] == if inv.userId == userId then multiset(invs)[inv] else 0
  {
    if invs == [] then []
    else
      assert invs == [invs[0]] + invs[1..];
      assert multiset(invs) == multiset{invs[0]} + multiset(invs[1..]);
      var rest := InvoicesOf(invs[1..], userId);
      if invs[0].userId == userId then [invs[0]] + rest else rest
  }

  /** `ORDER BY year DESC, month DESC`. */
  function LatestPeriodFirst(inv: Invoice): seq<int> {
    [-inv.year, -inv.month]
  }

  datatype ResidentInvoicesView = ResidentInvoicesView(resident: User, invoices: seq<Invoice>)

  /** `GET /residents/<id>/invoices`. */
  function ResidentInvoices(auth: Auth, users: seq<User>, invs: seq<Invoice>, userId: int)
    : (r: Result<ResidentInvoicesView, Refusal>)
    ensures auth.AuthRejected? ==> r == Err(AuthRefusal(auth))
    ensures auth.Authenticated? ==>
              (r == Err(Refusal(404, "resident not found")) <==>
                 forall u :: u in users ==> !(u.id == userId && u.role == RESIDENT))
    ensures r.Ok? ==>
              && r.value.resident in users && r.value.resident.id == userId && r.value.resident.role == RESIDENT
              && multiset(r.value.invoices) == multiset(InvoicesOf(invs, userId))
              && SortedBy(r.value.invoices, LatestPeriodFirst)
  {
    if auth.AuthRejected? then Err(AuthRefusal(auth))
    else
      match FindUser(users, userId, RESIDENT)
      case None => Err(Refusal(404, "resident not found"))
      case Some(u) => Ok(ResidentInvoicesView(u, SortBy(InvoicesOf(invs, userId), LatestPeriodFirst)))
  }

  /** The invoices come newest period first: a later year first, and within a
      year a later month first. */
  lemma ResidentInvoicesNewestFirst(auth: Auth, users: seq<User>, invs: seq<Invoice>, userId: int, i: int, j: int)
    requires ResidentInvoices(auth, users, invs, userId).Ok?
    requires 0 <= i < j < |ResidentInvoices(auth, users, invs, userId).value.invoices|
    ensures var shown := ResidentInvoices(auth, users, invs, userId).value.invoices;
            shown[i].year > shown[j].year || (shown[i].year == shown[j].year && shown[i].month >= shown[j].month)
  {
    var shown := ResidentInvoices(auth, users, invs, userId).value.invoices;
    PeriodOrder(shown, i, j);
  }

  lemma PeriodOrder(shown: seq<Invoice>, i: int, j: int)
    requires SortedBy(shown, LatestPeriodFirst) && 0 <= i < j < |shown|
    ensures shown[i].year > shown[j].year || (shown[i].year == shown[j].year && shown[i].month >= shown[j].month)
  {
    assert LexLe(LatestPeriodFirst(shown[i]), LatestPeriodFirst(shown[j]));
    LexLePair(-shown[i].year, -shown[i].month, -shown[j].year, -shown[j].month);
  }

  /** The invoices shown are exactly the resident's invoices. */
  lemma ResidentInvoicesAreTheirs(auth: Auth, users: seq<User>, invs: seq<Invoice>, userId: int, inv: Invoice)
    requires ResidentInvoices(auth, users, invs, userId).Ok?
    ensures inv in ResidentInvoices(auth, users, invs, userId).value.invoices <==> inv in invs && inv.userId == userId
  {
    var shown := ResidentInvoices(auth, users, invs, userId).value.invoices;
    assert inv in shown <==> inv in multiset(shown);
    assert inv in InvoicesOf(invs, userId) <==> inv in multiset(InvoicesOf(invs, userId));
  }
}
