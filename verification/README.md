# Verified model of the board's ordering engine and event pipeline

The repository is a collaborative task board. Cards are kept in order by fractional
positions, strings over 62 digits. Every card command is a serializable transaction that
writes the card, its list's revision, a per-board sequence number, an outbox event, an audit
row and an idempotency row. A worker publishes the outbox, and a WebSocket server merges
database catch-up with the live events. This project models that code in Dafny and proves
what its parts promise together.

`dafny verify dfyconfig.toml` checks everything.

| file | models |
|---|---|
| `Positions.dfy` | alphabet, validation, comparator, and the byte order it is compared with |
| `Midpoint.dfy` | the digit loop between two positions |
| `Generator.dfy` | positions between optional neighbours; how many appends a list takes |
| `Rebalance.dfy`, `RebalanceWorker.dfy` | evenly spaced positions, and the worker that rewrites a list |
| `OrderingRuns.dfy` | whole runs of inserts, removals and rebalances of one list |
| `BoardModel.dfy` | the board database as a value, and each command as one transaction on it |
| `BoardService.dfy` | the same commands as the service runs them, statement by statement, on a mutable database |
| `BoardEffects.dfy` | what each command answers and leaves, in terms of the command and the tables before |
| `BoardRuns.dfy` | exactly-once effects, gapless sequences, the event log against the state |
| `BoardOrder.dfy` | the database refines plain lists of card ids |
| `BoardRevisions.dfy` | optimistic concurrency: what revisions count, and when a command is stale |
| `OutboxWorker.dfy` | claim, publish, retry, dead-letter, crash; any number of workers |
| `PublishOrder.dfy` | in which order one worker, or several, publish the events of a board |
| `WsServer.dfy`, `WsRuns.dfy` | registry, watermark and handlers; runs in which catch-up is merged with live events |
| `Delivery.dfy` | the whole pipeline: commands, worker and server in one run |
| `MembershipCache.dfy`, `Inbox.dfy`, `RateLimit.dfy` | the role cache, the paged inbox, the authentication limiter |
| `Base64Url.dfy`, `Jwt.dfy` | base64url and tokens |

Imperative code is modelled by methods and classes that are proved against functions on
values (`Exec`, `Midpoint`, `RowsAfter`, `Live`, ...). The theorems are lemmas about those
functions and about runs of them.

## What the proofs found

* **The invariant of the ordering engine.** `midpoint` is only a midpoint because no position
  the engine makes ends in `'0'`. `MidpointBetweenIff` gives the exact condition on any two
  valid positions, and `MidpointOvershoots` gives `midpoint("U", "U0") = "U0V"`, which is above both. The
  comment of the function calls it prefix-safe without that condition; the model follows the code.
* Together with "does not start with `'z'`" and "at most 32 digits" this invariant is kept by every
  insert and by the domain's rebalance (by the worker's rebalance up to 3600 cards). So the branch for a
  position of maximum digits, the rebalance threshold and the worker's scan are never reached in such runs.
* **Capacity.** A list takes exactly 192 cards by appending (6 halvings at each of 32 depths).
* **The event log** determines the live cards exactly as long as no card is moved to a list of
  another board: such a move publishes on the target board, but the card row keeps its old board.
* **Live delivery** is lossless exactly when events first arrive in increasing order; an
  event that is overtaken is never sent. Catch-up repairs this at subscription only.
* **Subscription.** `Guarded` is the exact condition under which a new connection cannot lose an event,
  checked before it subscribes. It fails for `"-1"` on a board with events, for a string that `BigInt`
  rejects, for one that `BigInt` reads as more than `parseInt` does (`"0x10"`), and for any client behind
  one whose string `BigInt` rejects, unless the gap is so large that it is told to resync. There is a
  lemma with an input for each.
* **Publish order.** A single worker publishes each board's events in order through any crashes and
  handler failures. One failed publish, or a second worker, lets a later event overtake, and both
  conditions are exact. The end-to-end theorem is `EveryEventIsDelivered`.
* **Stale commands.** A move is refused as stale exactly if a successful command touched one of the
  lists it read. A move does not raise the card's own revision, so updates do not notice it.
* **Pagination** skips rows exactly when a page boundary falls between two rows of the same millisecond: the
  column holds microseconds, but the cursor's time passes through a JavaScript `Date`. Rows get the start of
  their transaction as creation time, and one poll of the worker handles many events in one transaction.
* **The rate limiter** is called a sliding window in its comment, but is a fixed window: an
  interval as long as a window can hold `2 * max - 1` allowed calls, and never more.
* **Invalidating a whole board** leaves a stale per-user map exactly when a changed user has one cached in which
  the change shows.
* **The worker's rebalance** commits only for lists of at most 3660 cards, in which no new position is the
  current one of a later card: the unique index on live positions refuses the rest. So a list can be
  scanned forever without being rebalanced (`BlockedRebalance`). Its reading order is kept either way.
* **A cached absence of a role** makes `getEntry` return an entry for someone who is no member, who
  gets none when nothing is cached.

## Assumptions

* The database sorts `position` in byte order (C collation).
* Tenant and card ids are not empty where `Aligned` says so; the source generates UUIDs.
* A run of moves names the true neighbours in the target list (`Aligned`); the service does not check this.
* A board's events either take the next number of `nextBoardSequence` in commit order, as card, list and board
  commands do, or have no number and are stored with 0, as label and member changes do
  (`packages/api/src/routers/board-members.ts:210`, `packages/domain/src/labels/use-cases/createLabel.ts:103`).
  Only numbered events are promised: at every watermark from 0 on an event with number 0 is skipped. The
  rebalance worker numbers its own event from a different counter, and no claim about sequences covers that event.
* `NoEventLost`: queries succeed, a client has one subscription under way at a time, the Redis subscription
  is effective once requested, numbers are committed in order, and first publications come in ascending
  order. `EveryEventIsDelivered` has none of the assumptions on order: they follow from the commands and
  from a single worker whose publishes do not fail.

## Model

| member | source | states |
|---|---|---|
| Positions.BuildCharToIndex | packages/domain/src/ordering/position.constants.ts:26-39 | the loop fills a table that maps exactly the 62 digits, each to its place in the alphabet |
| Positions.ValidIff | packages/domain/src/ordering/position.validators.ts:12-47 | a string is valid exactly with 1 to 64 characters that are all digits or letters |
| Positions.ComparePositions | packages/domain/src/ordering/position.comparator.ts:36-76 | the scan with padding and length tie-break computes the comparison that `CompareIsByteOrder` is about, and rejects invalid positions |
| Positions.CompareIsByteOrder | packages/domain/src/ordering/position.comparator.ts:36-76 | on valid positions the sign is prefix-first lexicographic byte order in both directions, and zero exactly on equal strings |
| Positions.LessIsTransitive | packages/domain/src/ordering/position.comparator.ts:43-75 | the order is transitive |
| Positions.LessIsTotal | packages/domain/src/ordering/position.comparator.ts:43-75 | two different strings are always ordered one way |
| Midpoints.ComputeMidpoint | packages/domain/src/ordering/position.midpoint.ts:40-120 | the depth loop computes the function the theorems are about, on any two strings, with its collision and bad-character errors |
| Midpoints.MidpointShape | packages/domain/src/ordering/position.midpoint.ts:48-119 | the result copies the left position down to the first depth with room and puts the middle digit there; it fails exactly when all 32 depths are crowded |
| Midpoints.BadCharacterIff | packages/domain/src/ordering/position.midpoint.ts:16-29 | the bad-character error comes exactly if, before the first depth with room, an end has a character outside the alphabet |
| Midpoints.MidpointIsValid | packages/domain/src/ordering/position.midpoint.ts:90-103 | every result is valid, at most 32 digits long and does not end in the minimum digit |
| Midpoints.MidpointBetweenIff | packages/domain/src/ordering/position.midpoint.ts:40-120 | for valid left below right, a result is strictly between them if and only if right is not left followed by minimum digits |
| Midpoints.MidpointBetween | packages/domain/src/ordering/position.midpoint.ts:40-120 | right not ending in the minimum digit is enough, and the result again does not end in it |
| Midpoints.MidpointOvershoots | packages/domain/src/ordering/position.midpoint.ts:58-104 | the concrete input on which the result is above both ends |
| Generator.GenerateBetween | packages/domain/src/ordering/position.generator.ts:28-109 | between any invariant-keeping neighbours (none, one or two) the result keeps the invariant and lies strictly between them, or it is a collision, exactly when all depths are crowded; the all-maximum branch is not taken |
| Generator.GenerateGuards | packages/domain/src/ordering/position.generator.ts:32-51 | on all arguments: invalid input is rejected exactly, and neighbours that do not ascend collide |
| Generator.GenerateBetweenIff | packages/domain/src/ordering/position.generator.ts:43-108 | for any two valid ascending neighbours, inside the invariant or not: when the result lies strictly between them |
| Generator.GenerateAtEnds | packages/domain/src/ordering/position.generator.ts:56-94 | an empty list is given the middle digit, nothing fits before the minimum digit, and after maximum digits comes one middle digit more, which stays valid exactly below 64 of them |
| Generator.AppendUsesOne | packages/domain/src/ordering/position.generator.ts:81-100 | an append succeeds exactly while appends are left, lands above, and uses up exactly one |
| Generator.AppendCapacity | packages/domain/src/ordering/position.generator.ts:81-100 | after a position exactly its remaining number of appends succeed, at most 192, and then there is a collision |
| Generator.EmptyListCapacity | packages/domain/src/ordering/position.generator.ts:56-100 | an empty list takes `n` appends if and only if `n` is at most 192 |
| Rebalance.DomainRebalance | packages/domain/src/ordering/position.rebalance.ts:39-80 | the domain generator succeeds exactly for 0 to 30 items, then keeps the invariant in strictly ascending order, and equals the worker's generator |
| Rebalance.DomainSpacing | packages/domain/src/ordering/position.rebalance.ts:55-80 | the new positions are single digits, equally far apart, with the widest step that fits |
| Rebalance.ShouldRebalanceIff | packages/domain/src/ordering/position.rebalance.ts:20-29 | a rebalance is asked for exactly for valid positions of at least 48 digits |
| Rebalance.ComputeWorkerPositions | apps/outbox-worker/src/rebalance-worker.ts:32-52 | the pushing loop computes the positions the next two rows are about |
| Rebalance.WorkerRebalance | apps/outbox-worker/src/rebalance-worker.ts:32-52 | as many positions as asked, valid, at most two digits, none ending in the minimum digit, and strictly ascending if and only if there are at most 3660 |
| Rebalance.TwoDigitsCount | apps/outbox-worker/src/rebalance-worker.ts:41-48 | in a long list the two digits count up from "11", with 60 second digits to each first one |
| Rebalance.WorkerWellPlaced | apps/outbox-worker/src/rebalance-worker.ts:41-48 | the full invariant of the engine holds of them if and only if there are at most 3600 |
| OrderingRuns.StepKeepsOrder | packages/domain/src/ordering/position.generator.ts:28-109 | an insert at any index, a removal or a rebalance keeps a list strictly sorted and its positions within the invariant |
| OrderingRuns.StepChangesOne | packages/domain/src/ordering/position.generator.ts:28-109 | an insert puts one new position at its index and moves nothing else, a removal takes out the one at its index |
| OrderingRuns.EveryRunIsOrdered | packages/domain/src/ordering/position.rebalance.ts:20-29 | after any run from an empty list the invariant holds, and no position asks for a rebalance |
| OrderingRuns.InsertFailsWhenCrowded | packages/domain/src/ordering/position.generator.ts:43-108 | at any point of a run an insert leaves the list unchanged exactly when its two neighbours are crowded in all 32 digits |
| BoardServices.Database.InsertCard | packages/db/src/repositories/card.repository.ts:59-75 | an insert refused by the primary key or by the unique index on live positions changes nothing; otherwise exactly this row is added |
| BoardServices.Database.SaveCard | packages/db/src/repositories/card.repository.ts:80-101 | the conditional update changes five columns of the live row that has the expected revision, and reports a miss or a taken position without a change |
| BoardServices.Database.DeleteCard | packages/db/src/repositories/card.repository.ts:106-111 | only the deletion mark of that row changes |
| BoardServices.Database.IncrementRevision | packages/db/src/repositories/list.repository.ts:108-123 | the live list's revision is one higher and returned, no other list changes; a missing list is a fault |
| BoardServices.Database.NextBoardSequence | packages/db/src/repositories/sequence.repository.ts:17-31 | 1 on a new board, otherwise one more than before; other counters are unchanged |
| BoardServices.Database.AppendOutbox | packages/db/src/repositories/outbox.repository.ts:16-29 | one row is added at the end, with sequence 0 if none is given |
| BoardServices.Database.SaveIdempotency | packages/db/src/repositories/idempotency.repository.ts:37-44 | a stored response is never overwritten |
| BoardServices.BoardService.CreateCard | packages/api/src/services/board.service.ts:531-673 | the statements in order, with rollback, have exactly the effect and result of the transaction on values, which `CreateEffect`, `CreateRecord` and `CreateAnswers` are about |
| BoardServices.BoardService.MoveCard | packages/api/src/services/board.service.ts:158-418 | the same for a move, with every guard and both list revisions: `MoveEffect`, `MoveRecord`, `MoveGuards`, `MoveAnswers` |
| BoardServices.BoardService.PrepareMove | packages/api/src/services/board.service.ts:164-304 | the guards of a move in their order, its neighbours and the domain service decide as the function on values does |
| BoardServices.BoardService.CheckRevisions | packages/api/src/services/board.service.ts:261-277 | the loop finds the first expected list revision that does not hold |
| BoardServices.BoardService.UpdateCard | packages/api/src/services/board.service.ts:782-913 | the same for an update, with the optional revision check: `UpdateEffect`, `EditRecord`, `UpdateAnswers` |
| BoardServices.BoardService.DeleteCard | packages/api/src/services/board.service.ts:679-776 | the same for a soft delete: `DeleteEffect`, `EditRecord`, `DeleteAnswers` |
| BoardEffects.CreateEffect | packages/api/src/services/board.service.ts:531-673 | a created card has the command's title, description, list and tenant, its list's board, revision 1 and no deletion mark; all other cards are as they were |
| BoardEffects.CreateRecord | packages/api/src/services/board.service.ts:590-672 | only its list's revision is one higher; the board's next number is taken, and event, audit row, idempotency row and answer carry it with the command's title and the new revision |
| BoardEffects.MoveEffect | packages/domain/src/services/index.ts:41-45 | a move changes the card's list, to the one asked for, and its position; every other column, its description and revision included, and every other card is as it was |
| BoardEffects.MoveRecord | packages/api/src/services/board.service.ts:306-404 | source and target list are bumped, once if they are the same; event, audit row and answer name both lists and their new revisions, under the next number of the target board |
| BoardEffects.UpdateEffect | packages/api/src/services/board.service.ts:818-842 | title and description are what the command gives and otherwise the old ones, the revision is one higher, all else is as it was |
| BoardEffects.DeleteEffect | packages/api/src/services/board.service.ts:712-716 | only the deletion mark of the card changes |
| BoardEffects.EditRecord | packages/api/src/services/board.service.ts:857-913 | the event of an update carries exactly the title and description that the command gives; an update or delete bumps its list and takes the next number of the card's board |
| BoardEffects.CreateAnswers | packages/api/src/services/board.service.ts:544-597 | on any database: which of the seven answers a create gets, in the order in which the reasons are found |
| BoardEffects.UpdateAnswers | packages/api/src/services/board.service.ts:795-855 | the same for an update |
| BoardEffects.DeleteAnswers | packages/api/src/services/board.service.ts:692-730 | the same for a delete |
| BoardEffects.MoveGuards | packages/api/src/services/board.service.ts:164-277 | the same for a move up to its expected list revisions, with the limit of 330 seconds |
| BoardEffects.FirstUnmet | packages/api/src/services/board.service.ts:261-277 | of the expected list revisions the first that does not hold decides: not found, or stale |
| BoardEffects.MoveAnswers | packages/api/src/services/board.service.ts:282-338 | a move that no guard stops: a corrupted chain, an invalid payload, a taken position, a missing source list, or success at the generated position of the neighbours that are found |
| BoardRuns.FirstSuccessFrame | packages/api/src/services/board.service.ts:306-404 | a first success adds one outbox, one audit and one idempotency row, takes the next number of one board counter, bumps only the touched lists, and changes one card |
| BoardRuns.OnlyFirstSuccessWrites | packages/api/src/services/board.service.ts:179-315 | a refusal, a fault and a replay commit nothing |
| BoardRuns.ReplayAnswer | packages/api/src/services/board.service.ts:183-194 | a replay answers with the stored response, or that a move has expired |
| BoardRuns.ExactlyOnce | packages/api/src/services/board.service.ts:544-553 | once a command has succeeded, any command with its mutation id at any later point of any run changes nothing and gets the first response |
| BoardRuns.ExecKeepsGapless | packages/api/src/services/board.service.ts:340-367 | each command keeps every board's events numbered 1 to n with n the counter |
| BoardRuns.EveryRunIsGapless | packages/db/src/repositories/sequence.repository.ts:17-31 | so does every run |
| BoardRuns.LogIsStateIff | packages/api/src/services/board.service.ts:337-367 | after a successful command the board logs still determine the live cards if and only if it did not move a card to another board |
| BoardRuns.CrossBoardBreaksLog | packages/domain/src/services/index.ts:41-45 | a cross-board move leaves the log of the card's own board wrong |
| BoardRuns.CrossBoardExample | packages/api/src/services/board.service.ts:340-367 | a board with one card, and the move that breaks its log |
| BoardRuns.EveryLogIsState | packages/api/src/services/board.service.ts:613-633 | over every run without such moves, folding a board's events from empty gives exactly list, title and position of its live cards |
| BoardRuns.EmptyDatabase | packages/db/src/repositories/sequence.repository.ts:18-22 | a database without cards and events is a start of such runs |
| BoardOrder.GeneratedFits | packages/domain/src/services/index.ts:35-45 | a position generated between two adjacent cards lies above all cards before them and below all cards after them |
| BoardOrder.LastIsEndOfLane | packages/db/src/repositories/card.repository.ts:37-54 | the query for the last card returns the end of the list as it is read |
| BoardOrder.MoveRefines | packages/api/src/services/board.service.ts:282-316 | a move that names its true neighbours puts the card exactly between them, takes it out of its old list, keeps all others in order, and never meets a taken position |
| BoardOrder.CreateRefines | packages/api/src/services/board.service.ts:567-597 | a created card is last in its list, with a free position within the invariant |
| BoardOrder.UpdateOrDeleteRefines | packages/api/src/services/board.service.ts:712-716 | an update keeps every list, a delete takes out one card |
| BoardOrder.ExecRefines | packages/api/src/services/board.service.ts:158-418 | one aligned command: the database refines the lists after the event, or nothing changed; a duplicate position never occurs |
| BoardOrder.MoveSucceedsUnlessFull | packages/api/src/services/board.service.ts:282-302 | an aligned move that passes every guard, with any expectations that hold, is refused with a corrupted chain exactly when no room is left between its neighbours, and otherwise succeeds |
| BoardOrder.CreateSucceedsWhileCapacity | packages/api/src/services/board.service.ts:567-597 | creating succeeds exactly while the list has appends left and uses up one; otherwise the generator's error leaves the transaction |
| BoardOrder.RunRefines | packages/db/src/repositories/card.repository.ts:37-54 | over every aligned run, reading each list by position gives the list of ids that appending, removing and moving build |
| BoardOrder.ScanNeverFires | apps/outbox-worker/src/rebalance-worker.ts:108-116 | in such runs from an empty board no card ever has a position over the scan's threshold |
| BoardRevisions.ListRevisionCounts | packages/db/src/repositories/list.repository.ts:108-123 | over every run a list's revision grows by exactly the number of successful commands that touched it, and nothing else of the row changes |
| BoardRevisions.CardRevisionCounts | packages/domain/src/services/index.ts:41-45 | a card's revision grows by exactly the number of its successful updates; moves and deletes do not count |
| BoardRevisions.UpdateStaleIffEdited | packages/api/src/services/board.service.ts:818-842 | an update that expects the revision of an earlier state is stale if and only if the card was updated in between |
| BoardRevisions.NoLostUpdate | packages/db/src/repositories/card.repository.ts:80-101 | of two updates that expect the same revision, the second never succeeds, at any later point of any run |
| BoardRevisions.RevisionCheckIff | packages/api/src/services/board.service.ts:261-277 | the check passes if and only if every expected list is found with the expected revision |
| BoardRevisions.MoveStaleIffTouched | packages/api/src/services/board.service.ts:258-277 | a move that expects the revisions of an earlier state is stale if and only if a successful command in between touched one of those lists |
| RebalanceWorkers.RebalanceWorker.RewritePositions | apps/outbox-worker/src/rebalance-worker.ts:68-74 | the row loop is refused exactly if some row is given a position that another row of the list has at that moment; otherwise it rewrites all in reading order |
| RebalanceWorkers.RebalanceWorker.RebalanceList | apps/outbox-worker/src/rebalance-worker.ts:54-102 | the whole transaction: committed with the board row's next number exactly if the positions fit and the board row is there, otherwise rolled back |
| RebalanceWorkers.TakenIff | packages/db/src/schema/cards.ts:125-127 | the unique index refuses an update exactly if another row of the list has the position then |
| RebalanceWorkers.FitsIff | apps/outbox-worker/src/rebalance-worker.ts:41-74 | all updates pass the index if and only if there are at most 3660 cards and no new position is the old one of a later card |
| RebalanceWorkers.RepeatsBeyondCapacity | apps/outbox-worker/src/rebalance-worker.ts:43-46 | the two new positions that are equal in every longer list |
| RebalanceWorkers.BlockedRebalance | apps/outbox-worker/src/rebalance-worker.ts:68-74 | a list of two cards that the scan matches and no rebalance ever changes |
| RebalanceWorkers.ScanMatchesIff | apps/outbox-worker/src/rebalance-worker.ts:110-115 | a list is scanned exactly if one of its live cards has a position of at least 49 digits |
| RebalanceWorkers.RebalancedRows | apps/outbox-worker/src/rebalance-worker.ts:68-74 | each row gets its own new position and keeps everything else; rows of other lists are untouched |
| RebalanceWorkers.RebalanceKeepsReading | apps/outbox-worker/src/rebalance-worker.ts:54-116 | the order by position and id is always kept, by position alone once committed; a scanned list leaves the scan if and only if the rebalance commits; other lists are untouched |
| OutboxWorkers.OutboxWorker.ProcessClaimed | apps/outbox-worker/src/index.ts:103-176 | the outcome, the row and what is left outside the database after one attempt, for each way it can go: a dead-letter publish only at the limit, a handler only for a handled type after the publish |
| OutboxWorkers.OutboxWorker.PollOnce | apps/outbox-worker/src/index.ts:182-209 | a poll commits all its attempts and returns the number of delivered rows; a crash restores every row but not what was published |
| OutboxWorkers.CommitAll | apps/outbox-worker/src/index.ts:201-208 | committing a batch of attempts keeps every row's history true |
| OutboxWorkers.ClaimIsSafe | apps/outbox-worker/src/index.ts:188-197 | claims skip locked rows, so no two open transactions hold the same row |
| OutboxWorkers.EveryRunIsSafe | apps/outbox-worker/src/index.ts:103-209 | over every run of appends, claims, attempts, commits and crashes of any workers: the retry count is the number of committed failures, an unprocessed row is below the limit, a processed one was delivered, or failed up to the limit and its dead-letter publish was attempted |
| OutboxWorkers.EveryRunIsReasoned | apps/outbox-worker/src/index.ts:119-174 | over every run, a dead-letter publish was attempted only for a row whose retry count is at least the limit less one, and a handler has run only for a row of a handled type that was published before |
| OutboxWorkers.CountsDelivered | apps/outbox-worker/src/index.ts:201-207 | the count of a poll is the number of its rows whose publish and, if there is one, handler succeeded |
| OutboxWorkers.StrandedForever | apps/outbox-worker/src/index.ts:51-51 | with a configured limit below 1 no run of any workers publishes, attempts or processes anything |
| OutboxWorkers.WorkIsSpent | apps/outbox-worker/src/index.ts:138-174 | without new rows each committed attempt uses up one of the attempts that are left in all |
| OutboxWorkers.DrainsWithin | apps/outbox-worker/src/index.ts:182-209 | `n` rows need at most `n * limit` committed attempts, and after that many all are processed |
| OutboxWorkers.ClaimsMakeProgress | apps/outbox-worker/src/index.ts:188-199 | a poll does not come back empty while an unlocked row is unprocessed |
| PublishOrders.FreshTableIsOrderly | apps/outbox-worker/src/index.ts:182-197 | a table of new rows is a start of the runs below |
| PublishOrders.StepIsAccounted | apps/outbox-worker/src/index.ts:103-209 | with any number of workers and no failing publish: what is attempted or processed is published, and claims stay sorted |
| PublishOrders.PublishKeepsOrderIff | apps/outbox-worker/src/index.ts:118-119 | then a publish keeps the board's order if and only if no earlier unpublished event is held by another open transaction or left unlocked |
| PublishOrders.ClaimTakesEarlier | apps/outbox-worker/src/index.ts:188-197 | the claim of a single worker takes every unpublished earlier event of a claimed one, and before it |
| PublishOrders.EveryRunIsInOrder | apps/outbox-worker/src/index.ts:182-209 | with one worker and no failing publish, over every run with crashes, failing handlers and unnumbered rows, a published event never lacks an earlier numbered one of its board |
| PublishOrders.BatchInOrderIff | apps/outbox-worker/src/index.ts:163-174 | a single worker's batch, of any length, keeps the order if and only if no attempt publishes after a failed publish of an unpublished predecessor of its board |
| PublishOrders.FailedPublishIsOvertaken | apps/outbox-worker/src/index.ts:201-204 | a run of one poll over a new table that ends out of order |
| PublishOrders.SecondWorkerOvertakes | apps/outbox-worker/src/index.ts:194-196 | a run of two workers over a new table, without a failing publish, that ends out of order |
| Deliveries.GaplessIsNumbered | packages/db/src/repositories/outbox.repository.ts:16-29 | a gapless log numbers the board's outbox rows 1 to n without repetitions, whatever unnumbered rows lie between them |
| Deliveries.StartIsSound | packages/db/src/repositories/outbox.repository.ts:16-29 | any gapless database with its events, and unnumbered ones, new in the outbox is a start of the runs below |
| Deliveries.EmptyIsSound | packages/db/src/repositories/sequence.repository.ts:18-22 | so is an empty database |
| Deliveries.PublicationIsArrivalIff | apps/ws-server/src/index.ts:576-598 | on such rows a publication is an arrival that the server's runs allow if and only if all earlier events are published, and arrivals go on describing what is published |
| Deliveries.EveryRunIsSound | apps/outbox-worker/src/index.ts:182-209 | every run of card commands, other writers with or without a number, one worker without failing publishes and the server keeps the three together, and to the server it is one of its own runs |
| Deliveries.EveryEventIsDelivered | apps/ws-server/src/index.ts:234-354 | in every such run a guarded client that stays is told to resync or, once caught up, has every published event above its last sequence; once the board's outbox is drained, every event that was given a number |
| WsServers.WsServer.Unsubscribe | apps/ws-server/src/index.ts:478-490 | the client is in no set afterwards, the others of its board keep their order, all other boards are unchanged, an empty set is dropped |
| WsServers.RemoveAt | apps/ws-server/src/index.ts:481-486 | deleting a client from its set takes out its place in the insertion order and no other |
| WsServers.RegistersLast | apps/ws-server/src/index.ts:229-243 | a client that registers comes after all others of its board, and the others of every board keep their order |
| WsServers.WsServer.Register | apps/ws-server/src/index.ts:229-243 | after leaving its old board the client is the last in the set of its new board, with the requested watermark, and the channel is subscribed |
| WsServers.WsServer.BeginCatchUp | apps/ws-server/src/index.ts:296-297 | a sequence string that is no number, or negative, starts no catch-up |
| WsServers.WsServer.AfterCount | apps/ws-server/src/index.ts:307-314 | more than 500 missed events demand a resync, none ends the catch-up |
| WsServers.WsServer.AfterRows | apps/ws-server/src/index.ts:326-348 | an open client is sent one event for each pulled row, in their order, and then the acknowledgement with their number; the watermark is the last row |
| WsServers.DeliveredInOrder | apps/ws-server/src/index.ts:326-346 | the frames of a catch-up are those sent before, then the events of the rows in order, and nothing else |
| WsServers.Client.Deliver | apps/ws-server/src/index.ts:577-598 | one client: an unreadable watermark throws, an event at or below it is skipped, any other is sent and becomes the watermark |
| WsServers.WsServer.OnEvent | apps/ws-server/src/index.ts:568-615 | every client of the board before the first unreadable watermark is served, that one and all after it get nothing |
| WsServers.LosslessIffIncreasing | apps/ws-server/src/index.ts:576-599 | of new events, which may arrive repeatedly, all are sent if and only if none arrives for the first time after a higher one |
| WsServers.LiveFramesAscend | apps/ws-server/src/index.ts:576-599 | whatever arrives, the frames that a client is sent live are strictly ascending, above its watermark |
| WsServers.OvertakenIsLost | apps/ws-server/src/index.ts:580-580 | an event that has not arrived before a higher one is never sent |
| WsRuns.StepIsSafe | apps/ws-server/src/index.ts:234-354 | what a guarded client was sent covers what arrived, across each commit, arrival, subscription, departure, query and resumption of any client |
| WsRuns.ArrivalFrames | apps/ws-server/src/index.ts:576-599 | one arrival adds one frame, that event, to a client, or none; which of them is decided by its watermark and by the clients before it |
| WsRuns.CatchUpFrames | apps/ws-server/src/index.ts:316-348 | whatever other steps come between the queries and the resumption, a catch-up adds the missed events after the last sequence, ascending and each once, and then the acknowledgement with their number |
| WsRuns.PlainNumberIsGuarded | apps/ws-server/src/index.ts:296-297 | a last sequence that both parsers read as the same number from 0 on is guarded, if the strings of all clients can be read |
| WsRuns.UnnumberedIsSkippedIff | apps/ws-server/src/index.ts:577-580 | an event with number 0 changes nothing if and only if no watermark that it reaches is negative |
| WsRuns.NoEventLost | apps/ws-server/src/index.ts:234-354 | for every interleaving with any other clients, a guarded client that stays and is caught up was sent every arrived event above its last sequence, or it was told to resync |
| WsRuns.NoEventLostIff | apps/ws-server/src/index.ts:234-354 | for a new connection and any `lastSequence` this holds of all runs if and only if the subscription is guarded: live events can be read by all clients ahead and by itself, and catch-up or the watermark leaves no gap |
| WsRuns.NegativeStartLosesEvent | apps/ws-server/src/index.ts:296-297 | "-1": the client is acknowledged as caught up and was sent nothing of a board with an event |
| WsRuns.UnreadableStartLosesEvent | apps/ws-server/src/index.ts:577-580 | two strings that `parseInt` reads as 0 and `BigInt` rejects, or reads as 16: a run that loses event 1 |
| WsRuns.UnreadableAheadLosesEvent | apps/ws-server/src/index.ts:576-577 | a run in which a client at "0" loses event 1 behind one whose string is no number |
| WsRuns.QueriesOnGaplessLog | apps/ws-server/src/index.ts:301-324 | on the log that card commands write, the count and the rows are those of the model |
| MembershipCaches.MembershipCache.GetRole | packages/api/src/acl/membershipCache.ts:118-147 | from a cache that agrees: the name of the database role as `ParsedRoleIff` describes it, "NONE" if there is none, and the answer is stored |
| MembershipCaches.ParsedRoleIff | packages/api/src/acl/aclEngine.ts:219-223 | a role is one of the five names exactly if the stored string spells that name in any letter case; every other string, the empty one and a missing row give "NONE" |
| MembershipCaches.MembershipCache.GetEntry | packages/api/src/acl/membershipCache.ts:153-173 | from a cache that agrees: a member's database entry; for no member nothing, unless it is cached that there is no role |
| MembershipCaches.MembershipCache.GetByUser | packages/api/src/acl/membershipCache.ts:179-215 | on a miss: exactly the user's memberships with their highest version and each role once, which are cached; for a user without any, nothing is returned or cached |
| MembershipCaches.MembershipCache.CollectRows | packages/api/src/acl/membershipCache.ts:191-212 | the loop over boards, version and roles builds the map that `CollectedMap` is about |
| MembershipCaches.CollectedMap | packages/api/src/acl/membershipCache.ts:191-212 | that map is exactly what the database says about the user |
| MembershipCaches.MembershipCache.Upsert | packages/api/src/acl/membershipCache.ts:221-246 | the entry is replaced and the user's map dropped |
| MembershipCaches.MembershipCache.Invalidate | packages/api/src/acl/membershipCache.ts:252-273 | with a user both keys of that user go; without, the entries of the board go and no user map |
| MembershipCaches.EveryRunAgrees | packages/api/src/acl/membershipCache.ts:118-273 | over every sequential run with arbitrary expiries, in which each change is followed by its upsert or the invalidation of its user, entries and user maps are what the database says |
| MembershipCaches.EmptyCacheAgrees | packages/api/src/acl/membershipCache.ts:118-215 | an empty cache over any database is a start of such runs |
| MembershipCaches.BoardInvalidationAgreesIff | packages/api/src/acl/membershipCache.ts:262-265 | after any changes on a board and its invalidation all entries agree, and the user maps if and only if no changed user has one cached in which the change shows |
| Inbox.SortedIsWholeInbox | packages/db/src/repositories/notifications.repository.ts:60-82 | the ordered rows are the same rows, newest first |
| Inbox.NextCandidates | packages/db/src/repositories/notifications.repository.ts:65-76 | the cursor of a page leads to exactly the candidates older than the millisecond of its last row, and fewer of them |
| Inbox.FollowIsCandidatesIff | packages/api/src/routers/notification.router.ts:116-133 | from any cursor the following pages are all candidates if and only if no page boundary cuts a millisecond |
| Inbox.PaginationIsExactIff | packages/api/src/routers/notification.router.ts:103-133 | for each page size, the pages put together are the user's whole inbox, each row once, if and only if no boundary falls between rows of the same millisecond |
| Inbox.EveryLimitIsExactIff | packages/db/src/repositories/notifications.repository.ts:52-86 | this holds for all page sizes if and only if the milliseconds of the creation times are pairwise distinct |
| Inbox.TiedRowIsSkipped | packages/db/src/repositories/notifications.repository.ts:72-76 | two notifications of one moment, of which pages of one row show only the first |
| Inbox.SameMillisecondIsSkipped | packages/db/src/repositories/notifications.repository.ts:67-74 | so with two different times of one millisecond |
| RateLimit.AuthRateLimiter.CheckAuthRateLimit | packages/api/src/middleware/authRateLimit.ts:13-29 | the call is allowed exactly if the key's window holds less than the limit; it opens a window after the end of the last one, counts even when it is refused, and never touches another key or the end of an open window |
| RateLimit.WithinWindow | packages/api/src/middleware/authRateLimit.ts:20-27 | inside one window no more is allowed than the window has left |
| RateLimit.BoundHolds | packages/api/src/middleware/authRateLimit.ts:13-29 | for any mix of keys and a clock that never goes back, an interval as long as a window holds at most `2 * max - 1` allowed calls of a key |
| RateLimit.BoundIsTight | packages/api/src/middleware/authRateLimit.ts:20-24 | a run from the empty limiter attains that bound for every limit |
| RateLimit.WindowStays | packages/api/src/middleware/authRateLimit.ts:20-28 | over any calls up to the end of a window its end stays, and its count grows by the calls of its key, refused ones included |
| RateLimit.OthersKeepWindow | packages/api/src/middleware/authRateLimit.ts:18-28 | calls of other keys leave the window of a key as it is |
| RateLimit.AllowedIff | packages/api/src/middleware/authRateLimit.ts:20-28 | after any calls in a window the next one of the key is allowed exactly if the window is over or not used up |
| Base64Url.EncodeIsUnpadded | packages/auth/src/jwt.ts:30-33 | the encoding is the unpadded text with the two URL-safe characters, without `=` and dots |
| Base64Url.RoundTrip | packages/auth/src/jwt.ts:30-43 | decoding an encoded byte string gives it back, for every byte string |
| Base64Url.CharsOfAlphabet | packages/auth/src/jwt.ts:30-33 | the 64 characters are those of the standard table in its order |
| Base64Url.SextetsAreBits | packages/auth/src/jwt.ts:30-33 | the four characters of a group stand for its 24 bits from the highest on |
| Base64Url.EncodedLength | packages/auth/src/jwt.ts:30-33 | the length of the text for every number of bytes |
| Base64Url.DecodesIff | packages/auth/src/jwt.ts:39-43 | a string decodes if and only if it is a text of the alphabet, in either spelling, with no padding or with the padding that completes a group |
| Base64Url.DecodesToText | packages/auth/src/jwt.ts:39-43 | whatever decodes gives the bytes whose text is the one decoded, but for the bits that its last character has to spare |
| Jwt.ConstantTimeEquals | packages/auth/src/jwt.ts:67-76 | the loop of exclusive ors accepts exactly the expected string |
| Jwt.Verify | packages/auth/src/jwt.ts:108-133 | the checks in their order return what the function on values returns |
| Jwt.VerifyOfSign | packages/auth/src/jwt.ts:86-133 | a signed token verifies to its claims with issue and expiry time up to and including its last second, and to nothing afterwards |
| Jwt.OtherSignatureFails | packages/auth/src/jwt.ts:111-119 | with any other signature, dots included, the same header and body are rejected |
| Jwt.VerifiesIff | packages/auth/src/jwt.ts:108-133 | a token verifies to a payload if and only if it is two parts without dots and the encoded MAC of just these, whatever the header, and its body decodes and parses to that payload, which has not expired |
| Jwt.SignedForm | packages/auth/src/jwt.ts:86-102 | a signed token is the header, the claims with issue time and seven days later, and the MAC of the two, each encoded, between dots |

## Left out

- The list commands `moveList`, `updateList` and `deleteList`, and the list repository's `save` they use: whether its result is right depends on a driver field that is not part of this model.
- Postgres, Drizzle, Redis and sockets: tables are maps, a transaction is one step that commits or rolls back, publishes and sends are appended to logs. The retry of a serialization failure is not modelled.
- BoardServices.BoardService.CreateCard: the answer of the query for the last card is a parameter that the precondition ties to the table, because the row that sorts last is not computed by a loop in the source; with positions that do not ascend the query's choice among equals is not modelled.
- BoardServices.BoardService.MoveCard: `canMoveCards` always returns true in the code (its comment says otherwise) and `mode` is ignored, so both are absent; the expected list revisions are a sequence in the order in which the object is enumerated.
- Event payload fields that no client state is built from (list revisions, user, tenant), the before and after snapshots of the audit log, due dates, timestamps and tracing ids.
- The widths of database columns.
- PublishOrders.EveryRunIsInOrder: rows appended by the rebalance worker carry another counter's numbers and are outside its assumption that the numbered events of a board are numbered in commit order.
- Midpoints.ComputeMidpoint: the check of the candidate against 64 characters is a comment, since at the last depth a candidate has 32.
- OutboxWorkers.OutboxWorker.ProcessClaimed: a failing SQL statement inside a handler aborts the whole batch, so it is a crash and not a failed attempt; the content of messages and of the dead-letter publish is not modelled, nor are the handlers' own effects.
- OutboxWorkers.EveryRunIsSafe: a crash can come between two attempts, not between the publish and the update of one attempt; since it rolls back all rows, only the log of outside traces could tell the two apart.
- WsRuns.NoEventLost: one board, and no failing catch-up query (which the server treats as nothing to catch up); a client whose socket closes leaves, and a subscription that is given up while its catch-up is under way is not resumed.
- Deliveries.EveryEventIsDelivered: Redis hands each published event to the server at once, and the events of the rebalance worker, which carry another counter's numbers, are not part of its runs.
- Token checks at subscription, presence, cursors, typing, heartbeats and the per-user notification channel of the WebSocket server.
- RebalanceWorkers.RebalanceWorker.RebalanceList: cards inserted, moved or deleted between its read and its transaction.
- MembershipCaches.EveryRunAgrees: Redis keys are tuples rather than strings joined by colons, expiry may happen at any moment instead of after a time, `cachedAt` and the publication of invalidations are absent, and roles are upper-cased as ASCII.
- Inbox.PaginationIsExactIff: rows of equal creation time keep one fixed order, which the database does not promise; the number of unread rows is not modelled.
- RateLimit.AuthRateLimiter.CheckAuthRateLimit: the clock is a parameter.
- Base64Url.RoundTrip: `atob` ignores white space, which is not modelled; bytes stand for the characters of its binary string.
- Jwt.VerifyOfSign: the MAC, the JSON codec and UTF-8 are parameters; that parsing undoes stringifying is a precondition.
- Role tables, input schemas, error mapping, password hashing and sessions: each is settled by reading one branch.
