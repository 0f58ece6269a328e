# The catalog order engine, verified

A model of the catalog service's order engine, with proofs of what it
guarantees: the transactional code that reserves stock and places idempotent
orders, the outbox row written in the same transaction, and the worker that
drains the outbox. `dafny verify dfyconfig.toml` checks the whole project.

## How the model is built

**The atomic meaning.** `Tables.dfy` holds the five tables and the unique index
on order keys; `Spec.dfy` says what one `ReserveStock` or `CreateOrder` call
answers and writes when nothing else runs (`Perform`), following the code branch
by branch; `History.dfy` applies committed operations one after the other.

**The system as it runs.** `Machine.dfy` is a state machine for any number of
transactions at PostgreSQL's Read Committed level (section 13.2.1 of the
PostgreSQL 16 documentation) and any number of outbox workers. One step is one
SQL statement, a commit (whose acknowledgement may get lost), an abort at any
point, or a publish, a mark or a crash of a worker. A statement sees the latest
committed rows under its own transaction's writes; an UPDATE or a unique insert
waits (is not enabled) while another live transaction holds the row or the key,
and then looks at the rows committed by then. `TxProof.dfy` and
`Refinement.dfy` prove that every run reaches the tables its committed
transactions give when executed atomically in commit order, and that each
successful reply is one an atomic call could have given.

**The code as it is written.** `Repository.dfy`, `UseCase.dfy` and
`OutboxWorker.dfy` are the classes with their loops, early returns and
rollbacks, run alone on the tables with the connection failing at any
statement. They meet the same atomic specification; a batch of the worker is
moreover shown to be a run of the state machine.

**What follows.** `Ledger.dfy`, `Constraints.dfy`, `Guarantees.dfy`,
`Replies.dfy`, `Contents.dfy`, `Linearizable.dfy`, `Erasure.dfy`, `Recovery.dfy`,
`OutboxSafety.dfy`, `PublishOrder.dfy`, `OutboxProgress.dfy`, `Race.dfy`,
`Value.dfy`, `Freshness.dfy`, `Outcome.dfy`,
`Overlap.dfy`, `Retries.dfy`, `Answerable.dfy` and `Losers.dfy` state what
clients and operators can rely on, mostly over every run. `Money.dfy`,
`Replay.dfy`, `StockKeys.dfy`, `MapSums.dfy` and `Arithmetic.dfy` are the
arithmetic and the comparisons underneath.

**Which definition models what.** Paths are below
`internal/catalog/adapter/postgres/` unless they start elsewhere.

- `Spec.ReserveOn`: one line inside a transaction, `repository.go` lines 81-125.
- `Spec.ReserveLines`, `Spec.InsertOrder`, `Spec.PlaceSpec`: the reserve loop,
  the inserts and the whole of CreateOrder, `repository.go` lines 145-300.
- `Replay.LastWins`, `Replay.Accepts`: the map and the comparison,
  `repository.go` lines 168-180.
- `Money.Total`: the int64 running total, `repository.go` lines 193-212.
- `Machine.Execute`: the statements and the branches between them, in the order
  of `repository.go` lines 81-125 and 145-300; `Machine.Conflicts`: which
  statements wait for row locks and unique keys (`db/cabinets.sql.go` lines
  14-34, `db/orders.sql.go` lines 12-16, 48-51 and 113-116).
- `Machine.IsBatch`: the batch query, `db/orders.sql.go` lines 167-169;
  `ListBatch`, `Publish`, `Mark` and `Crash` in `Machine.Next`: the worker,
  `internal/catalog/app/outbox_worker.go` lines 36-56.
- `Repository.Tx`: the single statements as methods, `db/cabinets.sql.go` lines
  14-176 and `db/orders.sql.go` lines 12-138.
- `Tables.Store`: the tables of the migrations
  `db/catalog/migrations/000001_create_cabinets_and_reservations.up.sql` and
  `db/catalog/migrations/000002_create_orders_and_outbox.up.sql`.

## Conventions and assumptions

- A refused or aborted call changes nothing but the record of refusals; only
  successful replies are compared with the atomic specification. Successful
  replies are explained by the rows committed when the call committed (first
  executions) or when its deciding statement read (replays).
- Ids from `uuid.New()` and `NOW()` are fixed when a call begins. That ids are
  fresh is *not* assumed by the state machine. Where a result needs it, the
  assumption is visible as `FreshCall`, `FreshRun`, `FreeToStart` or
  `EqualOrders`. Replies, refinement, stock conservation, exactly-once and the outbox results hold for
  arbitrary ids.
- Quantities are int32 (they arrive as such); int64 wrap-around of the total is
  explicit (`Wrap64`). Prices are arbitrary integers, fixed during a run.
- Any error of the two lookups that precede a write (`GetReservation`,
  `GetOrderByItempotencyKey`) falls through to the next statement, as in the
  code; after a database error every later statement of the transaction fails.
- The statements of `Repository.Tx`, its `Commit`, `OutboxTable` and
  `Publisher` stand for PostgreSQL and the broker; faults are parameters.

## Where the documentation and the code differ

`docs/ARCHITECTURE.md` line 158 promises that the same key returns the original
result. The code keeps the promise exactly for calls that do not miss the key.
A call is late if it looked its key up before the key's owner committed. With
the key committed and equal parameters, a call can still be answered if and only
if it is not late (`Answerable.AnswerableExactlyWhenNotLate`). A caller can rule
lateness out: a call that begins when the key is committed is never late
(`Retries.RetryIsNeverLate`), is refused at no statement if its parameters match
and refused as a duplicate if they do not (`Retries.RetryOutcome`), whatever runs
beside it. A late call is never answered (`Retries.LateNeverAnswered`), and late
calls exist for reservations and for orders of any lines
(`Losers.OverlappingRetryIsRefused`, `Losers.OverlappingOrderIsRefused`). The
model follows the code.

Three more statements hold only under conditions the code does not enforce:

- An order that repeats a cabinet with the same quantity is billed for every
  line but takes stock once; with different quantities it fails as a duplicate
  reservation. `Ledger.BilledVersusReserved`, `Value.ValueIsConserved` and
  `Outcome.FreshOrderSucceedsExactlyWhen` say exactly when billed and reserved
  agree, when value is conserved, and when such an order goes through.
- A repeated request whose lines are not a permutation of the stored ones can
  be accepted; `Replay.ReplaySoundExactlyWhen` says for which requests.
- A healthy outbox row is sure to be published exactly when fewer failing rows
  than a batch holds are no younger than it
  (`OutboxProgress.SurelyPublishedExactlyWhen`).

## Model

| member | source | states |
|---|---|---|
| `Refinement.EveryRunRefinesItsHistory` | internal/catalog/adapter/postgres/repository.go:62-300 | Every interleaving of any number of reserve and order transactions, with aborts, refusals and lost acknowledgements anywhere, reaches the tables of its committed calls executed atomically in commit order, and every successful reply is one the atomic call gives at that point of the history |
| `Refinement.RunInv` | internal/catalog/adapter/postgres/repository.go:62-300 | The invariant behind it holds in every reachable state: each live transaction is a prefix of its atomic call on the rows committed now, and no two live transactions hold a common row or key |
| `Refinement.StepInv` | internal/catalog/adapter/postgres/repository.go:81-125 | Every kind of step keeps that invariant |
| `TxProof.ExecuteKeepsInv` | internal/catalog/adapter/postgres/repository.go:145-292 | Every statement of a transaction takes the atomic prefix one statement further |
| `TxProof.TxStable` | internal/catalog/adapter/postgres/db/cabinets.sql.go:31-34 | What a live transaction has done stays valid when others commit, because they can touch neither the rows it locked nor the keys it claimed |
| `TxProof.FinishPerforms` | internal/catalog/adapter/postgres/repository.go:294-299 | A transaction about to commit has written, and replies, exactly what the atomic call would on the rows committed at that moment |
| `Refinement.CommitJustified` | internal/catalog/adapter/postgres/repository.go:74-78 | A commit is the next operation of the history, has that operation's effect, and its reply is justified by it |
| `Recovery.LostAcknowledgementIsMadeGood` | internal/catalog/adapter/postgres/repository.go:294-297 | From any state with a call ready to commit: if the commit takes effect and its acknowledgement is lost, the same call made again can be answered |
| `Recovery.LiveCallsCanVanish` | internal/catalog/adapter/postgres/repository.go:150 | From any state, any live call can be aborted, and the run is then one in which it never began |
| `Recovery.StatementsWaitForWriters` | internal/catalog/adapter/postgres/db/cabinets.sql.go:31-34 | In every run a statement waits only while some other live call has written something |
| `Erasure.FailedCallsLeaveNoTrace` | internal/catalog/adapter/postgres/repository.go:146-150 | From any run, all steps of a call that ends refused or aborted, at whichever statement of whichever loop, can be erased: what is left is a run that ends in the same tables, history, replies, broker log, workers and other transactions |
| `Erasure.LivesUntilFailure` | internal/catalog/adapter/postgres/repository.go:146-150 | A call that fails at some step was live and unanswered at every step from its beginning to there |
| `Linearizable.RepliesAreLinearizable` | internal/catalog/adapter/postgres/repository.go:62-300 | The point of the history that explains a successful reply lies between the beginning of its call and its answer |
| `Linearizable.RealTimeOrder` | internal/catalog/adapter/postgres/repository.go:62-300 | A call that begins after another was answered is explained no earlier than it, and after it if it wrote |
| `Refinement.InsufficientStockIsJustified` | internal/catalog/adapter/postgres/repository.go:97-107 | In every run, stock is refused only if some requested cabinet's committed stock is below that line's quantity at that moment; a decrement that may still roll back never causes a refusal |
| `Refinement.TakesCommittedRow` | internal/catalog/adapter/postgres/repository.go:217-225 | A transaction never decrements the same cabinet row twice |
| `Guarantees.StockIsConserved` | internal/catalog/adapter/postgres/repository.go:97-121 | In every reachable state, for every cabinet, quantity left plus committed reservations equals the seeded quantity, and 0 <= quantity <= seeded: no run oversells |
| `Ledger.ReserveOnVisible` | internal/catalog/adapter/postgres/repository.go:81-125 | Reserving a line does nothing at all, or one decrement together with one reservation of the same cabinet and quantity under an unused key |
| `Ledger.HistoryAgrees` | db/catalog/migrations/000002_create_orders_and_outbox.up.sql:1-25 | After any history stock is conserved and keys, lines, events and orders agree with each other |
| `Ledger.NeverOversold` | db/catalog/migrations/000001_create_cabinets_and_reservations.up.sql:10 | Conservation bounds both the stock left and the stock held by the seeded stock |
| `Constraints.ConstraintsHold` | db/catalog/migrations/000002_create_orders_and_outbox.up.sql:11-17 | In every run the CHECK and foreign-key constraints hold of the committed rows and of what each live transaction sees after each of its statements, so no statement can fail on one |
| `Guarantees.OrdersAndEventsAgree` | internal/catalog/adapter/postgres/repository.go:267-292 | In every reachable state orders and order.created rows correspond one to one, and header total, payload amount and the int64 sum of line quantity times unit price agree, at the cabinets' prices |
| `Ledger.PlacedLinesConsistent` | internal/catalog/adapter/postgres/repository.go:85-94 | A placed order has equal quantities on all lines for one cabinet |
| `Ledger.NewOrderValue` | internal/catalog/adapter/postgres/repository.go:243-265 | The stored lines of a new order are worth the exact price sum of the request, and no other order's lines change value |
| `Ledger.BilledVersusReserved` | internal/catalog/adapter/postgres/repository.go:214-225 | Units held under an order's stock keys are one line's quantity per distinct cabinet: at most the units billed, and equal to them if and only if no cabinet repeats |
| `Guarantees.BilledVersusReservedInRuns` | internal/catalog/adapter/postgres/repository.go:214-225 | The same for every order in every reachable state, each line being backed by the reservation under its stock key |
| `Guarantees.CommittedRowsOnlyGrow` | internal/catalog/adapter/postgres/db/orders.sql.go:199-201 | Along a run no row is deleted or rewritten, apart from stock quantities and the published flag, which never reverts |
| `Guarantees.ExactlyOnce` | internal/catalog/adapter/postgres/repository.go:155-184 | In every run at most one CreateOrder per key takes effect, the key is indexed if and only if one did, at most one order carries it, and all successful replies for the key name that order with its total |
| `Guarantees.AtMostOnce` | db/catalog/migrations/000002_create_orders_and_outbox.up.sql:6 | No two operations of a history use the same order key, and no two the same reservation key |
| `Guarantees.KeyHasOperation` | internal/catalog/adapter/postgres/repository.go:227-241 | An order key is in the unique index exactly when some committed CreateOrder used it |
| `Guarantees.AnswerNamesFinalOrder` | internal/catalog/adapter/postgres/repository.go:182-183 | The order a successful reply names is still the one its key resolves to after any further history |
| `Guarantees.ReservationIsIdempotent` | internal/catalog/adapter/postgres/repository.go:84-95 | Once a reservation key is committed, and however many transactions intervene, no later operation uses it, an atomic call with equal parameters changes nothing and succeeds, and one with other parameters gives ErrDuplicateReservation |
| `Guarantees.ReplayAcceptance` | internal/catalog/adapter/postgres/repository.go:163-183 | For every committed order of every run and whatever row order is listed, a repeated request is accepted exactly when the user matches and its lines are as many as the stored ones and all among them; so every permutation is, and with distinct cabinets nothing else is |
| `Replies.RepliesAgree` | internal/catalog/adapter/postgres/repository.go:355-376 | Any two successful replies for a key carry the same order and the same item rows up to their order, these are the rows stored in the end, and the reply of the placing call lists its own lines in request order |
| `Replies.AnswerListsOrder` | internal/catalog/adapter/postgres/db/orders.sql.go:136-138 | The rows in a successful reply are the complete item rows of its order, then and after any further history |
| `Replies.NewRowsAreListed` | internal/catalog/adapter/postgres/repository.go:244-265 | The item rows a new order replies with are exactly the rows it stored |
| `Replies.ListingsArePermutations` | internal/catalog/adapter/postgres/db/orders.sql.go:136-138 | Two listings of an order's items differ in row order only |
| `Replay.AcceptsIffMembers` | internal/catalog/adapter/postgres/repository.go:168-180 | Over stored lines with equal quantities per cabinet the last-wins map check is: same length and every requested line stored |
| `Replay.AcceptsMeansLast` | internal/catalog/adapter/postgres/repository.go:168-180 | For any stored lines the check accepts exactly if the lengths agree and, for each new line, the last stored line of its cabinet has its quantity |
| `Replay.AcceptedDistinctRequestIsPermutation` | internal/catalog/adapter/postgres/repository.go:163-180 | An accepted request with distinct cabinets is a permutation of the stored lines |
| `Replay.PermutationAcceptedIffConsistent` | internal/catalog/adapter/postgres/repository.go:168-180 | A permutation of the stored lines is accepted if and only if lines for one cabinet have equal quantities |
| `Replay.RepeatedLineAcceptsOther` | internal/catalog/adapter/postgres/repository.go:168-180 | For every request that repeats a line there are stored lines that accept it without being a permutation of it |
| `Replay.ReplaySoundExactlyWhen` | internal/catalog/adapter/postgres/repository.go:163-180 | Acceptance implies being a permutation, for all lines an order can have stored, if and only if the request has distinct cabinets or contradicts itself |
| `Race.CountedRace` | internal/catalog/adapter/postgres/race_test.go:55-87 | When n callers reserve quantity q of one cabinet with stock s under distinct unused keys and without faults, every interleaving ends in exactly min(n, s / q) successes, all others refused for insufficient stock, and s minus q per success left |
| `Race.RacerStep` | internal/catalog/adapter/postgres/repository.go:97-107 | A caller in the race goes on, or is refused for committed stock below q |
| `Race.StepRace` | internal/catalog/adapter/postgres/repository.go:97-121 | Every step keeps the score: callers answered, refused and live add up, and nobody was refused while q units were left |
| `Race.SomeRacerMoves` | internal/catalog/adapter/postgres/repository.go:97-107 | While a caller of the race is live, the next step of some caller need not wait |
| `Race.RaceCanFinish` | internal/catalog/adapter/postgres/race_test.go:55-87 | Every race can be run on, without new callers, until everybody has an answer and the count applies |
| `Overlap.RefusalsAreAtomic` | internal/catalog/adapter/postgres/repository.go:81-241 | In any run, a call for which the keys it found free are still free is refused only with the error the atomic call gives on the rows committed at that moment |
| `Overlap.UndisturbedRefusalsAreAtomic` | internal/catalog/adapter/postgres/repository.go:81-241 | So is every call with fresh ids during which no call sharing a key with it commits, whatever else overlaps |
| `Retries.RetryIsNotRefused` | internal/catalog/adapter/postgres/repository.go:84-95 | In any run, a reservation or order that repeats what is committed under its key, and did not miss the key, is refused at no statement |
| `Retries.InformedStatement` | internal/catalog/adapter/postgres/repository.go:163-183 | A repeated call that did not miss the key is refused exactly where it compares and differs, with the duplicate error of its kind |
| `Retries.RetryIsNeverLate` | internal/catalog/adapter/postgres/repository.go:154-156 | A call that begins when its key is committed never misses it, whatever runs beside it |
| `Retries.RetryOutcome` | internal/catalog/adapter/postgres/repository.go:84-95 | Such a call is refused at no statement if it repeats what was committed when it began, and is otherwise never answered and refused as a duplicate as soon as it compares |
| `Retries.ReplayDecides` | internal/catalog/adapter/postgres/repository.go:157-183 | Whatever row order is listed, a replay succeeds exactly for the same user and as many lines, all of them stored |
| `Retries.SameInRuns` | internal/catalog/adapter/postgres/repository.go:163-180 | Whether a call repeats what is committed under its key never changes once the key is committed |
| `Retries.LateNeverAnswered` | internal/catalog/adapter/postgres/repository.go:235-241 | Over the whole rest of any run, a call that missed its key before the key's owner committed stays so until it is gone, and no step answers it |
| `Answerable.AnswerableExactlyWhenNotLate` | internal/catalog/adapter/postgres/repository.go:84-95 | With the key committed and equal parameters, some continuation of the run answers the call if and only if it did not miss the key |
| `Losers.OverlappingRetryIsRefused` | internal/catalog/adapter/postgres/repository.go:114-121 | For every line, key and stock of at least twice the quantity there is a run with two equal overlapping reservations of which one is refused as a duplicate, although the atomic call would return the reservation |
| `Losers.OverlappingOrderIsRefused` | internal/catalog/adapter/postgres/repository.go:235-241 | For every list of lines with stock for two there is a run with two equal overlapping orders of which one commits and the other is refused as a duplicate order, although the atomic call would replay it |
| `Losers.RunAlone` | internal/catalog/adapter/postgres/repository.go:193-292 | An order with nothing in its way reaches its header insert, or its commit, by its own statements alone, changing nothing but itself |
| `Outcome.FreshOrderSucceedsExactlyWhen` | internal/catalog/adapter/postgres/repository.go:193-225 | With fresh ids and an unused key, CreateOrder succeeds if and only if all cabinets exist, lines for one cabinet agree, and each single line is in stock; unknown cabinets give ErrNotFound, otherwise the error is that of the first line refused |
| `Outcome.LinesDecide` | internal/catalog/adapter/postgres/repository.go:217-225 | The reserve loop gets past its first i lines exactly when none of them contradicts an earlier one or is short of stock, and fails with the error of the first that does |
| `Outcome.RepeatedLineDecides` | internal/catalog/adapter/postgres/repository.go:85-94 | A line for a cabinet an earlier line took is passed if the quantities are equal, and otherwise fails as a duplicate reservation |
| `Value.FreshOrderStock` | internal/catalog/adapter/postgres/repository.go:217-225 | A fresh order takes from each requested cabinet one line's quantity and leaves every other row alone |
| `Value.FreshOrderReservations` | internal/catalog/adapter/postgres/repository.go:109-121 | A fresh order adds one reservation per distinct cabinet, under its stock key, and no other |
| `Value.FreshOrderKeys` | internal/catalog/adapter/postgres/repository.go:227-292 | A fresh order adds one header, one row per line and one outbox event, under the drawn ids, and nothing else |
| `Ledger.FreshOrderRows` | internal/catalog/adapter/postgres/repository.go:227-292 | An order that takes effect adds exactly its header, index entry, lines and event to tables in which none of them was |
| `Contents.OrderContents` | internal/catalog/adapter/postgres/repository.go:228-289 | Field by field: the header has the caller's user and key, status pending_payment and the int64 sum; the event is an unpublished order.created with the call's time and a payload naming event, order, user and amount; the reply carries that header |
| `Contents.LineContents` | internal/catalog/adapter/postgres/repository.go:244-265 | Each line is stored and answered with its order, cabinet, quantity and the cabinet's price, under its drawn id |
| `Contents.LineReservation` | internal/catalog/adapter/postgres/repository.go:220 | Each line's stock is reserved under the key order:, order id, colon, cabinet id |
| `Contents.ReservationContents` | internal/catalog/adapter/postgres/repository.go:97-123 | A fresh direct reservation takes its quantity, records itself, answers with the row it leaves and changes nothing else |
| `Contents.OrdersAwaitPayment` | internal/catalog/adapter/postgres/repository.go:231 | In every run every stored order, and every order in a reply, has status pending_payment |
| `Contents.OrdersBelongToTheirCalls` | internal/catalog/adapter/postgres/repository.go:228-234 | In every run every order stores the user and key of the committed call that drew its id |
| `Value.PlaceMovesValue` | internal/catalog/adapter/postgres/repository.go:193-225 | An order moves value from stock to its total; what its int64 total exceeds the stock taken by is all that is added |
| `Value.ReserveKeepsValue` | internal/catalog/adapter/postgres/repository.go:97-121 | A direct reservation moves its value from stock to reservations |
| `Value.ValueIsAccountedFor` | internal/catalog/adapter/postgres/repository.go:193-265 | Order totals plus direct reservations plus remaining stock are worth the seeded stock plus the excess of every order, whatever the prices and even if totals wrap around |
| `Value.ValueIsConserved` | internal/catalog/adapter/postgres/repository.go:193-265 | While exact totals are int64 values and prices are not negative, that is never less than the seeded stock, exactly it if no order repeats a cabinet, and at positive prices only then |
| `Freshness.ValueIsConservedInRuns` | internal/catalog/adapter/postgres/repository.go:193-265 | Both for every run whose drawn ids are fresh |
| `Freshness.FreshRunsHaveFreshHistories` | internal/catalog/adapter/postgres/repository.go:214-220 | If every drawn order id is fresh when its call begins, its stock keys are still free when it commits, whatever ran in between |
| `StockKeys.StockKeyInjective` | internal/catalog/adapter/postgres/repository.go:220 | For colon-free order ids the stock key determines order and cabinet, even if cabinet ids contain colons |
| `StockKeys.StockKeyDeterminesCabinet` | internal/catalog/adapter/postgres/repository.go:220 | Within one order the stock key determines the cabinet, whatever the ids contain |
| `StockKeys.StockKeyAmbiguousWithColons` | internal/catalog/adapter/postgres/repository.go:220 | Two orders whose ids contain colons can share a stock key |
| `Money.TotalIsExact` | internal/catalog/adapter/postgres/repository.go:193-212 | For n lines with prices in [0, P], quantities in [1, 2^31-1] and n * P * (2^31-1) < 2^63, every product and every partial total of the loop is the mathematical one |
| `Money.TotalIsWrappedSum` | internal/catalog/adapter/postgres/repository.go:211 | In general the int64 total is the mathematical sum wrapped once |
| `Money.WrapIsInt64` | internal/catalog/adapter/postgres/repository.go:211 | Wrapping gives the one int64 that is congruent modulo 2^64 |
| `Money.TotalExactExactlyWhen` | internal/catalog/adapter/postgres/repository.go:211 | A partial total is exact if and only if the mathematical one is an int64, whether or not earlier ones were |
| `Spec.ReserveLinesStable` | internal/catalog/adapter/postgres/repository.go:217-225 | The reserve loop gives the same writes on later rows, as long as nobody else touched the rows it holds or the keys it claimed |
| `Spec.ReserveLinesRecord` | internal/catalog/adapter/postgres/repository.go:217-225 | After the reserve loop every line it passed has its reservation with that cabinet and quantity |
| `Spec.ReservationHasLine` | internal/catalog/adapter/postgres/repository.go:217-225 | Every reservation the loop wrote is under the key of one of its lines |
| `Spec.DecrementHasLine` | internal/catalog/adapter/postgres/repository.go:217-225 | Every cabinet the loop decremented belongs to a line whose reservation it wrote |
| `Spec.RefusalStops` | internal/catalog/adapter/postgres/repository.go:221-224 | The first refused line decides the error of the whole loop |
| `History.PerformWrites` | internal/catalog/adapter/postgres/repository.go:145-300 | A call that writes is a fresh reservation or a fresh order: it claims only free keys and found its own key unused |
| `History.HistoryGrows` | internal/catalog/adapter/postgres/db/orders.sql.go:199-201 | Between any two points of a history nothing is deleted, only stock quantities and published flags change, and prices stay |
| `Repository.CabinetRepository.CreateOrderTx` | internal/catalog/adapter/postgres/repository.go:145-300 | Ends exactly as the atomic specification: its reply and tables, or its error and no change; a database fault at any statement gives an error and no change, unless it hits the commit's acknowledgement; no fault occurs on a connection that serves 5 n + 3 statements |
| `Repository.CabinetRepository.ReserveStockTx` | internal/catalog/adapter/postgres/repository.go:62-79 | The same for a direct reservation |
| `Repository.CabinetRepository.ReserveStockOnTx` | internal/catalog/adapter/postgres/repository.go:81-125 | Writes and answers what the specification says of one line inside a transaction, within three statements |
| `Repository.CabinetRepository.CompareWithStored` | internal/catalog/adapter/postgres/repository.go:163-180 | The two loops accept exactly if the users agree, the lengths agree, and for each new line the last listed row of its cabinet has its quantity |
| `Repository.CabinetRepository.SnapshotPrices` | internal/catalog/adapter/postgres/repository.go:193-212 | The snapshot loop reads all prices and the wrapped total, or gives ErrNotFound exactly when a cabinet is missing |
| `Repository.CabinetRepository.ReserveAll` | internal/catalog/adapter/postgres/repository.go:217-225 | The reserve loop writes what the specification's loop writes, or stops with its error |
| `Repository.CabinetRepository.InsertLines` | internal/catalog/adapter/postgres/repository.go:243-265 | The line loop stores and returns one row per line, or fails exactly when an id is taken or drawn twice |
| `Repository.CabinetRepository.InsertAll` | internal/catalog/adapter/postgres/repository.go:227-292 | Header, lines and event, with a taken key or order id as ErrDuplicateOrder |
| `UseCase.CabinetUsecase.CreateOrder` | internal/catalog/app/usecase.go:56-83 | Empty orders and non-positive quantities are refused with their errors and no change; everything else is the atomic call for the normalised user |
| `UseCase.NormalUser` | internal/catalog/app/usecase.go:58-62 | The user is the id without the white space around it, beginning and ending with no space, and "anonymous" exactly for a blank id |
| `UseCase.CabinetUsecase.ReserveStock` | internal/catalog/app/usecase.go:32-54 | Non-positive quantities are refused with no change; everything else is the atomic call |
| `UseCase.PaddedUserIsSameUser` | internal/catalog/app/usecase.go:58-62 | Spaces around a user id make no difference, whatever the id |
| `OutboxSafety.NoEventIsLostOrInvented` | internal/catalog/app/outbox_worker.go:34-56 | In every run with crashes and several workers, rows marked published are in the broker log with their stored type and payload, every committed order's event is in the log or still unpublished, and every message is the type and payload of the row whose event id it carries, truthful about a committed order's id, user and total |
| `OutboxSafety.PublishingIsPermanent` | internal/catalog/adapter/postgres/db/orders.sql.go:199-201 | Along every run published flags never revert, payloads never change and the log only grows |
| `PublishOrder.PublishSendsStoredRow` | internal/catalog/app/outbox_worker.go:44 | In every run a publishing step sends the type and payload stored in the outbox row at hand |
| `PublishOrder.OldestPublishedFirst` | internal/catalog/adapter/postgres/db/orders.sql.go:168 | In every run the rows a worker publishes between two listings have non-decreasing creation times in the table |
| `PublishOrder.BatchesAreSmallAndSorted` | internal/catalog/app/outbox_worker.go:37 | In every run a worker holds at most 25 rows of the table, with non-decreasing creation times there, however old its batch |
| `Recovery.CrashRepeatsEvent` | internal/catalog/app/outbox_worker.go:43-53 | From any run with an idle worker and unpublished rows, a crash between publish and mark leads to the same message twice in the log |
| `Recovery.WorkersRepeatEvent` | internal/catalog/app/outbox_worker.go:43-53 | So do two workers that list the same rows |
| `OutboxSafety.OutboxStep` | internal/catalog/app/outbox_worker.go:43-53 | Every step keeps it true that a worker about to mark a row has published it, however stale its batch |
| `OutboxWorker.Worker.ProcessBatch` | internal/catalog/app/outbox_worker.go:36-56 | Lists at most 25 rows, all unpublished ones if fewer, oldest first; exactly those published and then marked get their flag and no row changes otherwise; the stored type and payload of each published row are appended to the log in order of creation; a failed listing changes nothing |
| `OutboxWorker.OutboxTable.ListUnpublished` | internal/catalog/adapter/postgres/db/orders.sql.go:167-169 | The batch is unpublished rows, each once, with non-decreasing creation times in the table, at most limit, and nothing unpublished and older is left out |
| `OutboxWorker.OutboxTable.MarkPublished` | internal/catalog/adapter/postgres/db/orders.sql.go:199-201 | Sets the flag of one row, or of none |
| `OutboxWorker.BatchIsARun` | internal/catalog/app/outbox_worker.go:36-56 | A batch continues any run of the interleaved system: listing, then publish and mark row by row, with the same table and log |
| `OutboxWorker.Worker.Run` | internal/catalog/app/outbox_worker.go:19-32 | n ticks with no new commits are n batches, each on the table the one before left |
| `OutboxProgress.PublishedWithin` | internal/catalog/app/outbox_worker.go:37-55 | A healthy row with h healthy and k failing rows no younger than it is published within n batches once n * (25 - k) >= h |
| `OutboxProgress.AllHealthyPublishedWithin` | internal/catalog/app/outbox_worker.go:37-55 | With no new commits, h healthy and k < 25 failing rows, every healthy row is published within ceil(h / (25 - k)) batches |
| `OutboxProgress.RunUntilHealthyRowsAreOut` | internal/catalog/app/outbox_worker.go:19-32 | With no new commits, h healthy and k < 25 failing rows, n ticks of the worker publish every healthy row once n * (25 - k) >= h |
| `OutboxProgress.PublishedExactlyWhen` | internal/catalog/adapter/postgres/db/orders.sql.go:167-169 | A healthy row whose creation time no failing row shares is published by enough batches if and only if fewer than 25 failing rows are older |
| `OutboxProgress.SurelyPublishedExactlyWhen` | internal/catalog/adapter/postgres/db/orders.sql.go:167-169 | With ties: enough batches publish a healthy row, whatever the database lists first, if and only if fewer than 25 failing rows are no younger than it |
| `OutboxProgress.BlockedForever` | internal/catalog/adapter/postgres/db/orders.sql.go:167-169 | Behind 25 older failing rows a row waits through any number of batches |
| `OutboxProgress.FullyBlockedBatchChangesNothing` | internal/catalog/app/outbox_worker.go:43-47 | If 25 failing rows are older than every healthy one, a batch leaves the table unchanged |

## Left out

- Payments, Stripe, RabbitMQ, cancellation and stock release: described in the documentation only; status never changes after an order is placed.
- `GetCabinet`, `ListCabinets` and `GetOrder` as endpoints: plain reads without state; their queries appear as statements of the transactions.
- gRPC, GraphQL, protobuf mapping, error-code mapping, telemetry, logging, configuration, seeding and migrations: no logic of the order engine.
- Cabinet descriptions, images, `updated_at`, `occurred_at` and JSON encoding: carried along without affecting a decision; JSON marshalling cannot fail for this payload.
- Column lengths (VARCHAR(36), VARCHAR(255)): a violation is one of the arbitrary aborts.
- PostgreSQL beyond row locks, re-evaluation of WHERE, waiting for unique keys and rollback: a deadlock is an arbitrary abort, waiting is a step that is not enabled, so nothing is said about how long a call waits.
- Changes to cabinets from outside (restocking, new prices) during a run: the service has no such operation.
- The ticker in `OutboxWorker.Run`: a run is any sequence of batches, without wall-clock time.
- The classes run alone on the tables: interleaving is the subject of the state machine, and both meet the same atomic specification.
