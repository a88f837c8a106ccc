# Compound money store, modelled in Dafny

This project models the money-handling core of a residential compound's
back-end. Residents owe monthly maintenance invoices. Collectors (users with
role ADMIN) take cash and record payments. A treasurer receives that cash from
the collectors in settlements. A public board shows which units of a building
have paid for a month, and lists the compound's fundraisers.

The modules follow the program's structure:

- `Store` (`store.dfy`): the tables as row datatypes, and the class `MoneyStore`, whose sequence fields the writing handlers update in place.
  - Its invariants: `Valid` (every id is below its table's next key), `Solvent` (no collector has handed over more than they collected) and `PaidInvoicesBacked` (every PAID invoice has a payment).
  - Also the per-collector sums with their append and split lemmas.
- `Ordering` (`ordering.dfy`): SQL `ORDER BY` as a sorted permutation under a lexicographic integer key; `DESC` is a negated key component.
- `TextOps` (`text_ops.dfy`): Python's `str.strip()`, PostgreSQL's `ILIKE` (real `LIKE` semantics with `%`, `_` and backslash escape), `CAST(text AS INTEGER)`, and the code-point order of text columns.
- `Config` (`config.dfy`): the database URI with its `postgres://` → `postgresql://` rewrite.
- `Treasury` (`treasury.dfy`): the per-collector summary, recording a settlement, the collector list and detail view, and the union-wide summary.
- `AdminDesk` (`admin_desk.dfy`): recording a payment, resident search with unpaid counts, and one resident's invoices.
- `PublicBoard` (`public_board.dfy`): the units-status board of a building, and the fundraiser list.

Conventions:

- Money is an integer number of cents.
- Dates are (year, month, day) triples.
- The clock (`today`, `now`) is a parameter.
- The authentication helper is a parameter `Auth`: the signed-in principal, or the (message, status) pair that the handler returns unchanged.
- A request's integer field is `Option<int>`, and `Given` is its Python truthiness (present and non-zero).
- A request's `amount` is `AmountField`: missing or null, a number, or a string together with what `float()` makes of it.
- Each handler returns a `Result` of its reply or a refusal, with the source's messages and HTTP statuses.
- A writing handler changes the store only on success, and says so with `unchanged(store)`.

Behaviours of the code that a reader might expect otherwise, all modelled as the code has them:

- `POST /collect` refuses only an invoice whose status is exactly `PAID`. It has no separate guard for an invoice awaiting online confirmation.
- It checks no building scope, so no 403 exists.
- A settlement appends no ledger entry.
- The summary's union balance is the sum of all settlements, not the tail of a ledger.
- The treasurer's views consider only users whose role is exactly `ADMIN`, so `ONLINE_ADMIN` collectors are neither listed nor settleable.

## Model

| member | source | states |
|---|---|---|
| `Treasury.SummaryFor` | app/treasurer_routes.py:12-46 | outstanding is collected minus settled; the payment count is zero exactly when no payment names the collector, and then the total is zero; no settlement of the collector means nothing settled |
| `Treasury.SettlementLowersOutstanding` | app/treasurer_routes.py:12-46 | a new settlement lowers its collector's outstanding balance by its amount, keeps that collector's payment count, and leaves every other collector's summary unchanged |
| `Treasury.PaymentRaisesOutstanding` | app/treasurer_routes.py:12-46 | a new payment raises its collector's total and outstanding by its amount and the count by one; other collectors are unaffected |
| `Treasury.ToleranceIsExact` | app/treasurer_routes.py:167 | on whole cents the 1e-6 tolerance check refuses exactly the amounts above the outstanding balance |
| `Treasury.CheckSettlement` | app/treasurer_routes.py:144-173 | each outcome stated exactly, in source order: "admin_id and amount are required" when the id is falsy or the amount missing; otherwise "admin not found" when no user with the id has role ADMIN; otherwise "invalid amount" when the amount does not parse or is not positive; otherwise the over-balance refusal when the amount exceeds the collector's outstanding, carrying that outstanding; otherwise acceptance with the (admin, cents) pair |
| `Treasury.SettleRefusalReplies` | app/treasurer_routes.py:149-173 | a refused settlement replies 404 exactly for an unknown collector and 400 for every other check; only the over-balance refusal carries its message |
| `Treasury.AcceptedSettlementKeepsBalance` | app/treasurer_routes.py:163-184 | an accepted settlement leaves its collector's balance non-negative and keeps every collector's hand-overs within their collections |
| `Treasury.CreateSettlement` | app/treasurer_routes.py:133-195 | a rejected login or a failed check returns its refusal and leaves the store unchanged; otherwise exactly one settlement is appended under the next key, which advances by one, by the signed-in treasurer, dated today, and the receipt's summary is the new one with the balance lowered by the amount and non-negative; solvency is preserved |
| `Store.MoneyStore.AddSettlement` | app/treasurer_routes.py:175-184 | the insert appends the row under the next settlement key and changes no other table |
| `Treasury.Admins` | app/treasurer_routes.py:60 | exactly the users whose role is ADMIN, each as often as it is in the table (so once per user row) and no other |
| `Treasury.ListAdmins` | app/treasurer_routes.py:49-76 | a rejected login returns its refusal; otherwise one listing per admin in store order, each with the full name from the person details (else the username) and that collector's summary |
| `Treasury.SettlementsWithTreasurer` | app/treasurer_routes.py:99-102 | the inner join: exactly the collector's settlements whose treasurer is a user, each paired with that user, one pair for each copy of the settlement in the table |
| `Treasury.RecentSettlements` | app/treasurer_routes.py:98-106 | at most ten rows of the join, each at most as often as it occurs there (a sub-multiset), newest date first and then highest id, and as many as there are up to ten |
| `Treasury.RecentAreNewest` | app/treasurer_routes.py:103-104 | a settlement left out of the ten is not newer than any settlement shown |
| `Treasury.AdminDetails` | app/treasurer_routes.py:79-130 | a rejected login returns its refusal; "admin not found" (404) exactly when no user with that id has role ADMIN; otherwise that admin's id, username and full name (from the person details, else the username), summary and recent settlements |
| `Treasury.TreasurerSummary` | app/treasurer_routes.py:197-270 | a rejected login returns its refusal; otherwise the union report for today |
| `Treasury.UnionSummary` | app/treasurer_routes.py:213-257 | the invoice count is the number of invoices, split into paid and unpaid, where unpaid counts exactly the invoices whose status is not PAID; the union balance is the total settled |
| `Treasury.CollectedWindowsNested` | app/treasurer_routes.py:213-247 | with non-negative amounts, today's collections ≤ this month's ≤ the all-time total |
| `Treasury.EmptyUnionSummary` | app/treasurer_routes.py:216-247 | with no payments and no settlements every money figure (all-time, today, this month, settled, union balance) is 0, whatever the invoices |
| `Treasury.PaymentCounted` | app/treasurer_routes.py:216-247 | any new payment adds its amount to the all-time total, to today's total exactly when it was created today, and to this month's total exactly when it was created on or after the first of the month; the settled total and the union balance stay the same |
| `Treasury.SettlementRaisesUnionBalance` | app/treasurer_routes.py:223-231 | a settlement raises the union balance, which equals the total settled, by its amount, and leaves today's, this month's and the all-time collected totals alone |
| `Treasury.UnionBalanceWithinCollected` | app/treasurer_routes.py:216-231 | while every collector's hand-overs stay within their collections, the union balance never exceeds the total collected |
| `AdminDesk.FindInvoice` | app/admin_routes.py:147-151 | the position of the first invoice with that id and resident, or none exactly when no invoice matches |
| `AdminDesk.CheckCollection` | app/admin_routes.py:130-156 | the checks in source order, each refusal stated exactly: missing or falsy fields; then an amount that does not parse or is not positive; then no invoice with that id for this resident (404); "already paid" exactly when the first invoice with that id and user (as `.first()` returns it) is PAID; on success that first matching position, whose invoice is not PAID, and the positive amount |
| `AdminDesk.CollectRefusalReplies` | app/admin_routes.py:137-156 | a refused collection replies 404 exactly when the resident has no such invoice and 400 for every other check; "invoice already paid" exactly for an invoice already PAID |
| `AdminDesk.MarkedPaid` | app/admin_routes.py:159-160 | the invoice becomes PAID with today's paid date; every other field is kept |
| `AdminDesk.CollectPayment` | app/admin_routes.py:118-194 | a rejected login or a failed check returns its refusal and leaves the store unchanged; otherwise the invoice is marked paid in place and one payment is appended (next key, which advances by one; method defaulting to CASH; the signed-in collector; today); the collector's outstanding rises by the amount; validity, solvency and "every PAID invoice has a payment" are preserved |
| `Store.MoneyStore.UpdateInvoiceAddPayment` | app/admin_routes.py:158-173 | one commit replaces the invoice row and appends the payment under the next key; no other table changes |
| `AdminDesk.PaymentKeepsSolvency` | app/admin_routes.py:163-173 | a payment with a non-negative amount keeps every collector's hand-overs within their collections |
| `AdminDesk.MarkPaidKeepsBacked` | app/admin_routes.py:158-173 | marking an invoice paid together with a payment against it keeps every PAID invoice backed by a payment |
| `AdminDesk.SecondCollectionRefused` | app/admin_routes.py:155-156 | once an invoice is collected, a second collection of it is refused as already paid, whatever positive amount it carries |
| `AdminDesk.UnpaidCount` | app/admin_routes.py:50-55 | at most the number of invoices, and zero exactly when every invoice of the resident is PAID |
| `AdminDesk.MarkPaidLowersUnpaid` | app/admin_routes.py:50-55 | marking an unpaid invoice paid lowers its resident's unpaid count (invoices whose status is not PAID) by one and no one else's |
| `AdminDesk.ResidentJoin` | app/admin_routes.py:28-32 | exactly the (user, details) pairs of RESIDENT users joined on the user id; each pair occurs as many times as the user's count times the details row's count |
| `AdminDesk.Matching` | app/admin_routes.py:34-44 | exactly the rows that match the query, each kept as often as it occurs in the input |
| `AdminDesk.SearchRows` | app/admin_routes.py:25-46 | the matching rows for the stripped query, as a permutation, sorted by building, floor and apartment |
| `AdminDesk.SearchRowsMembers` | app/admin_routes.py:25-46 | a row is listed exactly when it is a resident with person details that matches the stripped query |
| `AdminDesk.ByUnitOrder` | app/admin_routes.py:46 | the listing order is building, then floor, then apartment, each compared by code point |
| `AdminDesk.LiteralQueryIsSubstringSearch` | app/admin_routes.py:34-44 | a non-empty query without `%`, `_` or backslash matches exactly when it occurs, ignoring ASCII case, in one of the five searched columns |
| `AdminDesk.PercentQueryMatchesAll` | app/admin_routes.py:35 | the query is not escaped, so a query of `%` matches every resident |
| `AdminDesk.BlankQueryListsAll` | app/admin_routes.py:25-34 | a query of only white space lists every resident that has person details |
| `AdminDesk.SearchResidents` | app/admin_routes.py:12-70 | a rejected login returns its refusal; otherwise one row per listed resident, in listing order, each with the resident's unpaid invoice count |
| `AdminDesk.InvoicesOf` | app/admin_routes.py:89-93 | exactly the invoices of the resident, each listed as often as it is in the table |
| `AdminDesk.ResidentInvoices` | app/admin_routes.py:73-115 | a rejected login returns its refusal; "resident not found" (404) exactly when no user with that id has role RESIDENT; otherwise the resident and a sorted permutation of their invoices |
| `AdminDesk.ResidentInvoicesNewestFirst` | app/admin_routes.py:92 | the invoices come latest year first and, within a year, latest month first |
| `AdminDesk.ResidentInvoicesAreTheirs` | app/admin_routes.py:89-94 | the invoices shown are exactly the resident's invoices |
| `PublicBoard.PaymentsFor` | app/public_routes.py:64 | exactly the payments recorded against the invoice |
| `PublicBoard.AnyOnline` | app/public_routes.py:27-29 | true exactly when some payment was recorded by a user whose role is ONLINE_ADMIN |
| `PublicBoard.MethodOf` | app/public_routes.py:27-38 | ONLINE exactly when some payment came from an online collector; CASH exactly when there are payments and none came from one; nothing exactly when there are no payments |
| `PublicBoard.UnitRow` | app/public_routes.py:87-111 | the unit's identity columns and the period; "paid this month" exactly when an invoice with a truthy (non-zero) id has status PAID; the invoice id is shown only when truthy; with an invoice, its amount, the sum of the payments recorded against it, and their method; without one, zero amounts and no method |
| `PublicBoard.CollectionShowsOnBoard` | app/public_routes.py:52-53 | recording a payment for an invoice and marking it paid makes the unit paid for the month, raises its paid amount by the payment and shows a method, ONLINE for an online collector |
| `PublicBoard.PeriodInvoices` | app/public_routes.py:56-63 | exactly the resident's invoices for the year and month, each as often as in the table |
| `PublicBoard.InvoiceRows` | app/public_routes.py:56-64 | row k is the unit's row for invoice k of the period, so there is one row per invoice; a row showing an invoice id carries that invoice's figures |
| `PublicBoard.ResidentRows` | app/public_routes.py:56-79 | the outer join: without an invoice for the period a single row with no invoice; otherwise one row per invoice of the period, in order; a row showing an invoice id carries the figures of an invoice of this resident and period |
| `PublicBoard.BuildingRows` | app/public_routes.py:40-79 | every row is of the building and the asked period |
| `PublicBoard.BuildingRowsAppend` | app/public_routes.py:40-79 | one more details row adds exactly that resident's rows for the period when they are a listed resident of the building, and no rows otherwise |
| `PublicBoard.RowsBelongToResidents` | app/public_routes.py:55-69 | every row comes from a resident (role RESIDENT) with person details in the building and is one of that resident's rows from the outer join with the period's invoices |
| `PublicBoard.ResidentsHaveRows` | app/public_routes.py:55-69 | every resident with person details in the building has a row |
| `PublicBoard.RowsShowTheirInvoices` | app/public_routes.py:25-111 | a row showing an invoice id carries the amount and status of an invoice of that resident for the period, the sum of its payments and their method |
| `PublicBoard.InvoicesHaveRows` | app/public_routes.py:55-79 | every invoice of a resident of the building for the period has its own row |
| `PublicBoard.CastInteger` | app/public_routes.py:81-82 | a cast succeeds exactly when the text is an integer in the 32-bit range, and then yields the decimal reading of the text |
| `PublicBoard.Int32TextCasts` | app/public_routes.py:81-82 | the decimal text of every 32-bit integer casts back to it |
| `PublicBoard.PeriodArg` | app/public_routes.py:14-21 | a truthy argument is used as given; otherwise the current value, so a zero argument never comes through |
| `PublicBoard.UnitsStatus` | app/public_routes.py:12-118 | the period is each argument when truthy, else now's year or month; the request fails (500) exactly when a listed floor or apartment cannot be cast; otherwise the building's rows as a permutation, sorted by floor and apartment number |
| `PublicBoard.UnitsInFloorOrder` | app/public_routes.py:80-83 | the units come in ascending floor number and, on one floor, ascending apartment number |
| `PublicBoard.UnitsAreTheResidents` | app/public_routes.py:55-69 | a unit is listed exactly when it belongs to a resident of the building, and each listed unit is one of that resident's rows for the asked period |
| `PublicBoard.UnitsShowTheirInvoices` | app/public_routes.py:12-118 | a unit on the board that shows an invoice id carries the amount and status of that resident's invoice for the period, the sum of its payments and their method |
| `PublicBoard.InvoicesAreOnBoard` | app/public_routes.py:12-118 | every invoice of a resident of the building for the period asked appears on the board with its own row |
| `PublicBoard.FilterPeriod` | app/public_routes.py:125-129 | exactly the fundraisers matching the year and month filters, each applied only when given; each kept as often as it is in the table |
| `PublicBoard.Fundraisers` | app/public_routes.py:120-140 | a permutation of the filtered fundraisers sorted by year, month and id, all descending |
| `PublicBoard.FundraisersInPeriod` | app/public_routes.py:125-129 | a fundraiser is listed exactly when it matches the given filters |
| `PublicBoard.FundraisersNewestFirst` | app/public_routes.py:131 | latest year first, then latest month, then highest id |
| `PublicBoard.UnfilteredListsAll` | app/public_routes.py:125-133 | without filters every fundraiser is listed |
| `TextOps.Strip` | app/admin_routes.py:25 | the result is a slice of the input that drops only white space (Python's `isspace` set), from both ends, and neither starts nor ends with white space |
| `TextOps.LiteralPatternIsEquality` | app/admin_routes.py:35-44 | `LIKE` with a pattern without `%`, `_` or backslash matches exactly the pattern itself |
| `TextOps.PercentMatchesAll` | app/admin_routes.py:35 | the pattern `%` matches every text |
| `TextOps.SubstringPatternMatch` | app/admin_routes.py:35-44 | `s LIKE '%q%'` for a wildcard-free `q` holds exactly when `q` occurs in `s` |
| `TextOps.ILikeSubstring` | app/admin_routes.py:35-44 | `s ILIKE '%q%'` for a wildcard-free `q` holds exactly when `q` occurs in `s`, ignoring ASCII case |
| `TextOps.ILikeIgnoresCase` | app/admin_routes.py:38-42 | `ILIKE` gives the same answer when either side is lower-cased first |
| `TextOps.IntegerTextRoundTrip` | app/public_routes.py:81-82 | the integer cast reads back the decimal text of every integer |
| `TextOps.ParseInteger` | app/public_routes.py:81-82 | the cast succeeds exactly on an optional sign followed by one or more digits, and a negative result comes from a leading minus |
| `TextOps.ParsedTextForm` | app/public_routes.py:81-82 | every text the cast accepts is an optional sign, then zeros, then the decimal text of the size of the value it reads; a negative value carries the minus and a positive one does not, so leading zeros and a plus sign leave the value unchanged |
| `TextOps.TextKeyOrder` | app/admin_routes.py:46 | comparing sort keys that start with a text column compares that column by code point first, and the rest only on a tie |
| `Ordering.SortBy` | app/admin_routes.py:92 | `ORDER BY`: a permutation of the rows, sorted by the key |
| `Ordering.SortByMembers` | app/admin_routes.py:92 | ordering keeps exactly the rows it was given |
| `Ordering.PrefixKeepsSmallest` | app/treasurer_routes.py:103-104 | `LIMIT n` after ordering: every row left out sorts after every row kept |
| `Ordering.TakeKeepsRows` | app/treasurer_routes.py:104 | `LIMIT n` keeps only rows of the result, none more often than it occurs there |
| `Ordering.LexLePair` | app/admin_routes.py:92 | a two-column key orders by the first column, then the second |
| `Ordering.LexLeTriple` | app/public_routes.py:131 | a three-column key orders by the first, second, then third column |
| `Config.DatabaseUri` | app/config.py:12-18 | no `DATABASE_URL` gives the empty URI, as the empty default does; a URL starting with `postgres://` gets `postgresql://` in its place, with the rest kept; any other URL is kept as is |
| `Config.ReplaceFirst` | app/config.py:16 | with no occurrence the text is unchanged; an occurrence at the start is replaced there |
| `Config.DatabaseUriIdempotent` | app/config.py:12-18 | configuring again from an already configured URI changes nothing |

## Left out

- Authentication: the token check, the role check and user loading are one parameter (`Auth`). Its rejection is passed on unchanged.
- Persistence, transactions and concurrency: each handler is one atomic step on the store. Two concurrent collections of the same invoice are not modelled.
- Floating point: amounts are whole cents. NaN, infinities and sub-cent amounts that `float()` accepts are not modelled.
- `float()` of a string is an oracle: the request carries its result (`AmountField.Text`).
- JSON serialisation of replies is left out. Replies are datatypes holding the rows, so ISO dates and `float(amount)` are not produced.
- Payment `created_at` is a database default that the collect handler does not set. It is modelled as `today`.
- The `method` field of a collect request that is present but null is not modelled. `payMethod` is None only when the field is absent.
- NULL invoice statuses are not modelled: every status is a string.
- Rows that a query returns without `ORDER BY` (the admin list, the joins) come in store order. Rows with equal sort keys may come in any order, as in SQL.
- Text ordering assumes the "C" collation (code point order). Other database collations are not modelled.
- `ILIKE` folds case for ASCII letters only.
- `TextOps.ParseInteger`: PostgreSQL's cast also accepts surrounding white space and some other forms. The model accepts only an optional sign followed by digits.
- The Flask error page of a failed cast is modelled only by its status, 500.
- `PublicBoard.BuildingRows`: one row per person-details row and invoice. The schema makes `person_details.user_id` unique (app/models.py:30-35), so a resident has at most one details row and the query's `GROUP BY` never merges two; the model takes the details rows as given and does not restate that uniqueness.
- The union ledger, online payment claims and other routes (resident, notifications, health, superadmin creation, push notifications) are not part of this model.
