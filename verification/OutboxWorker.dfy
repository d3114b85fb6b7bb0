/**
 The outbox worker: concurrent polls claim disjoint rows, publish them, and commit what
 became of each attempt. A crash rolls the rows back, but not what was published.
 */
module OutboxWorkers {
  /** A row is identified by its place in the table; rows are only appended. */
  type EventId = nat

  datatype Row = Row(boardId: string, sequence: int, eventType: string, processed: bool, retryCount: int)

  /** How the outside world answers one attempt. */
  datatype Attempt = Attempt(publishSucceeds: bool, handlerSucceeds: bool)

  datatype LogEntry = BoardPublish(id: EventId) | HandlerDone(id: EventId) | DlqAttempt(id: EventId)

  datatype RowOutcome = Published | RetryScheduled | DeadLettered

  const HANDLED_TYPES: set<string> := {
    "workspace.invitation.created", "card.updated", "card.assignee_added", "card.due_date_updated",
    "comment.created", "checklist.item_updated", "board.member.added", "board.member.removed"
  }

  predicate HasHandler(eventType: string) {
    eventType in HANDLED_TYPES
  }

  predicate Delivers(row: Row, a: Attempt) {
    a.publishSucceeds && (HasHandler(row.eventType) ==> a.handlerSucceeds)
  }

  function OutcomeOf(row: Row, a: Attempt, maxRetries: int): RowOutcome {
    if Delivers(row, a) then Published
    else if row.retryCount + 1 >= maxRetries then DeadLettered
    else RetryScheduled
  }

  function RowAfter(row: Row, a: Attempt, maxRetries: int): Row {
    match OutcomeOf(row, a, maxRetries)
    case Published => row.(processed := true)
    case DeadLettered => row.(processed := true, retryCount := row.retryCount + 1)
    case RetryScheduled => row.(retryCount := row.retryCount + 1)
  }

  /** What an attempt leaves outside the database. */
  function Traces(id: EventId, row: Row, a: Attempt, maxRetries: int): seq<LogEntry> {
    (if a.publishSucceeds then [BoardPublish(id)] else []) +
    (if a.publishSucceeds && HasHandler(row.eventType) && a.handlerSucceeds then [HandlerDone(id)] else []) +
    (if OutcomeOf(row, a, maxRetries) == DeadLettered then [DlqAttempt(id)] else [])
  }

  // ---------------------------------------------------------------------------
  // One poll
  // ---------------------------------------------------------------------------

  predicate Distinct(ids: seq<EventId>) {
    forall i, j :: 0 <= i < j < |ids| ==> ids[i] != ids[j]
  }

  predicate InRange(rows: seq<Row>, ids: seq<EventId>) {
    forall i :: 0 <= i < |ids| ==> ids[i] < |rows|
  }

  /** The rows after the first `n` attempts, the `i`-th of them on row `ids[i]`. */
  function RowsAfter(rows: seq<Row>, ids: seq<EventId>, attempts: seq<Attempt>, n: nat, maxRetries: int):
      (after: seq<Row>)
    requires InRange(rows, ids) && n <= |ids| == |attempts|
    ensures |after| == |rows|
  {
    if n == 0 then rows
    else
      var before := RowsAfter(rows, ids, attempts, n - 1, maxRetries);
      before[ids[n - 1] := RowAfter(before[ids[n - 1]], attempts[n - 1], maxRetries)]
  }

  function AllTraces(rows: seq<Row>, ids: seq<EventId>, attempts: seq<Attempt>, n: nat, maxRetries: int): seq<LogEntry>
    requires InRange(rows, ids) && n <= |ids| == |attempts|
  {
    if n == 0 then []
    else
      var before := AllTraces(rows, ids, attempts, n - 1, maxRetries);
      before + Traces(ids[n - 1], rows[ids[n - 1]], attempts[n - 1], maxRetries)
  }

  function DeliveredCount(rows: seq<Row>, ids: seq<EventId>, attempts: seq<Attempt>, n: nat): nat
    requires InRange(rows, ids) && n <= |ids| == |attempts|
  {
    if n == 0 then 0
    else DeliveredCount(rows, ids, attempts, n - 1) + if Delivers(rows[ids[n - 1]], attempts[n - 1]) then 1 else 0
  }

  lemma {:induction false} UntouchedRow(rows: seq<Row>, ids: seq<EventId>, attempts: seq<Attempt>, n: nat,
      maxRetries: int, id: EventId)
    requires InRange(rows, ids) && n <= |ids| == |attempts| && id < |rows|
    requires forall i :: 0 <= i < n ==> ids[i] != id
    ensures RowsAfter(rows, ids, attempts, n, maxRetries)[id] == rows[id]
    decreases n
  {
    if n > 0 {
      UntouchedRow(rows, ids, attempts, n - 1, maxRetries, id);
    }
  }

  /** The rows that a poll has delivered: processed by it, without one more failure. */
  function DeliveredRows(rows: seq<Row>, after: seq<Row>, ids: seq<EventId>, n: nat): set<nat>
    requires InRange(rows, ids) && |after| == |rows| && n <= |ids|
  {
    set i: nat | i < n && after[ids[i]].processed && after[ids[i]].retryCount == rows[ids[i]].retryCount
  }

  lemma {:induction false} AttemptedRow(rows: seq<Row>, ids: seq<EventId>, attempts: seq<Attempt>, n: nat,
      maxRetries: int, i: nat)
    requires InRange(rows, ids) && Distinct(ids) && i < n <= |ids| == |attempts|
    ensures RowsAfter(rows, ids, attempts, n, maxRetries)[ids[i]] == RowAfter(rows[ids[i]], attempts[i], maxRetries)
    decreases n
  {
    if i == n - 1 {
      UntouchedRow(rows, ids, attempts, n - 1, maxRetries, ids[i]);
    } else {
      AttemptedRow(rows, ids, attempts, n - 1, maxRetries, i);
    }
  }

  /** A claimed row ends up delivered exactly if its attempt delivers. */
  lemma DeliveredIff(rows: seq<Row>, ids: seq<EventId>, attempts: seq<Attempt>, maxRetries: int, i: nat)
    requires InRange(rows, ids) && Distinct(ids) && i < |ids| == |attempts|
    ensures var row := RowsAfter(rows, ids, attempts, |ids|, maxRetries)[ids[i]];
            row.processed && row.retryCount == rows[ids[i]].retryCount <==>
            (Delivers(rows[ids[i]], attempts[i]))
  {
    AttemptedRow(rows, ids, attempts, |ids|, maxRetries, i);
  }

  lemma DeliveredStep(rows: seq<Row>, after: seq<Row>, ids: seq<EventId>, n: nat)
    requires InRange(rows, ids) && |after| == |rows| && 1 <= n <= |ids|
    ensures var last := after[ids[n - 1]].processed && after[ids[n - 1]].retryCount == rows[ids[n - 1]].retryCount;
            |DeliveredRows(rows, after, ids, n)| == |DeliveredRows(rows, after, ids, n - 1)| + if last then 1 else 0
  {
    var last := after[ids[n - 1]].processed && after[ids[n - 1]].retryCount == rows[ids[n - 1]].retryCount;
    assert DeliveredRows(rows, after, ids, n) == DeliveredRows(rows, after, ids, n - 1) + if last then {n - 1} else {};
  }

  /** The number that a poll returns is the number of rows it has delivered. */
  lemma {:induction false} CountsDelivered(rows: seq<Row>, ids: seq<EventId>, attempts: seq<Attempt>, n: nat,
      maxRetries: int)
    requires InRange(rows, ids) && Distinct(ids) && n <= |ids| == |attempts|
    ensures DeliveredCount(rows, ids, attempts, n) ==
            |DeliveredRows(rows, RowsAfter(rows, ids, attempts, |ids|, maxRetries), ids, n)|
    decreases n
  {
    if n > 0 {
      CountsDelivered(rows, ids, attempts, n - 1, maxRetries);
      DeliveredIff(rows, ids, attempts, maxRetries, n - 1);
      DeliveredStep(rows, RowsAfter(rows, ids, attempts, |ids|, maxRetries), ids, n);
    }
  }

  class OutboxWorker {
    const maxRetries: int
    var rows: seq<Row>
    var log: seq<LogEntry>

    constructor (maxRetries: int, rows: seq<Row>)
      ensures this.maxRetries == maxRetries && this.rows == rows && log == []
    {
      this.maxRetries, this.rows, log := maxRetries, rows, [];
    }

    /** Publishes first, then updates the claimed row; `row` is what the claim read. */
    method ProcessClaimed(id: EventId, row: Row, a: Attempt) returns (outcome: RowOutcome)
      requires id < |rows| && rows[id] == row
      modifies this
      ensures outcome == OutcomeOf(row, a, maxRetries)
      ensures rows == old(rows)[id := RowAfter(row, a, maxRetries)]
      ensures log == old(log) + Traces(id, row, a, maxRetries)
      ensures var delivered := a.publishSucceeds && (HasHandler(row.eventType) ==> a.handlerSucceeds);
              && (outcome == Published <==> delivered)
              && (outcome == DeadLettered <==> !delivered && row.retryCount + 1 >= maxRetries)
      ensures rows[id] == row.(processed := row.processed || outcome != RetryScheduled,
                               retryCount := row.retryCount + if outcome == Published then 0 else 1)
      ensures var handled := HasHandler(row.eventType) && a.handlerSucceeds;
              var published := if !a.publishSucceeds then []
                               else if handled then [BoardPublish(id), HandlerDone(id)]
                               else [BoardPublish(id)];
              log == old(log) + published + if outcome == DeadLettered then [DlqAttempt(id)] else []
    {
      var succeeded := false;
      if a.publishSucceeds {
        log := log + [BoardPublish(id)];
        if !HasHandler(row.eventType) {
          succeeded := true;
        } else if a.handlerSucceeds {
          log := log + [HandlerDone(id)];
          succeeded := true;
        }
      }
      if succeeded {
        rows := rows[id := rows[id].(processed := true)];
        return Published;
      }
      var nextAttempt := row.retryCount + 1;
      if nextAttempt >= maxRetries {
        log := log + [DlqAttempt(id)];
        rows := rows[id := rows[id].(processed := true, retryCount := nextAttempt)];
        return DeadLettered;
      }
      rows := rows[id := rows[id].(retryCount := nextAttempt)];
      return RetryScheduled;
    }

    /**
     One poll over the rows the claim query returned. `survives` says how many of them are
     processed before the connection is lost, if it is; then the rows are rolled back.
     */
    method PollOnce(claimed: seq<EventId>, attempts: seq<Attempt>, survives: nat) returns (published: nat)
      requires InRange(rows, claimed) && Distinct(claimed) && |attempts| == |claimed| && survives <= |claimed|
      modifies this
      ensures survives == |claimed| ==>
                && rows == RowsAfter(old(rows), claimed, attempts, |claimed|, maxRetries)
                && published == DeliveredCount(old(rows), claimed, attempts, |claimed|)
                && |rows| == |old(rows)| && published == |DeliveredRows(old(rows), rows, claimed, |claimed|)|
      ensures survives < |claimed| ==> rows == old(rows) && published == 0
      ensures log == old(log) + AllTraces(old(rows), claimed, attempts, survives, maxRetries)
    {
      var checkpoint := rows;
      published := 0;
      for i := 0 to survives
        invariant rows == RowsAfter(checkpoint, claimed, attempts, i, maxRetries)
        invariant published == DeliveredCount(checkpoint, claimed, attempts, i)
        invariant log == old(log) + AllTraces(checkpoint, claimed, attempts, i, maxRetries)
      {
        UntouchedRow(checkpoint, claimed, attempts, i, maxRetries, claimed[i]);
        var outcome := ProcessClaimed(claimed[i], checkpoint[claimed[i]], attempts[i]);
        if outcome == Published {
          published := published + 1;
        }
      }
      if survives < |claimed| {
        rows, published := checkpoint, 0;
      } else {
        CountsDelivered(checkpoint, claimed, attempts, survives, maxRetries);
      }
    }
  }

  // ---------------------------------------------------------------------------
  // Concurrent workers
  // ---------------------------------------------------------------------------

  type WorkerId = nat

  /** An open transaction: the claimed rows and the attempts made so far. */
  datatype Transaction = Transaction(claimed: seq<EventId>, attempts: seq<Attempt>)

  /** `committed` is the history of committed attempts: which row, and whether it delivered. */
  datatype World = World(
    rows: seq<Row>,
    open: map<WorkerId, Transaction>,
    committed: seq<(EventId, bool)>,
    log: seq<LogEntry>)

  datatype Step =
    | Append(row: Row)
    | Claim(worker: WorkerId, ids: seq<EventId>)
    | Try(worker: WorkerId, attempt: Attempt)
    | Commit(worker: WorkerId)
    | Crash(worker: WorkerId)

  predicate Locked(w: World, id: EventId) {
    exists k :: k in w.open && id in w.open[k].claimed
  }

  predicate Claimable(w: World, id: EventId, maxRetries: int) {
    id < |w.rows| && !w.rows[id].processed && w.rows[id].retryCount < maxRetries && !Locked(w, id)
  }

  /** What the claim query may return: the lowest sequences first, locked rows skipped. */
  ghost predicate IsClaim(w: World, ids: seq<EventId>, maxRetries: int, batchSize: nat) {
    && Distinct(ids) && |ids| <= batchSize
    && (forall i :: 0 <= i < |ids| ==> Claimable(w, ids[i], maxRetries))
    && (forall i, j :: 0 <= i < j < |ids| ==> w.rows[ids[i]].sequence <= w.rows[ids[j]].sequence)
    && (forall id: EventId :: Claimable(w, id, maxRetries) && id !in ids ==>
          |ids| == batchSize && forall i :: 0 <= i < |ids| ==> w.rows[ids[i]].sequence <= w.rows[id].sequence)
  }

  ghost predicate Enabled(w: World, s: Step, maxRetries: int, batchSize: nat) {
    match s
    case Append(row) => !row.processed && row.retryCount == 0
    case Claim(k, ids) => k !in w.open && IsClaim(w, ids, maxRetries, batchSize)
    case Try(k, _) => k in w.open && |w.open[k].attempts| < |w.open[k].claimed|
    case Commit(k) => k in w.open && |w.open[k].attempts| == |w.open[k].claimed|
    case Crash(k) => k in w.open
  }

  function History(rows: seq<Row>, ids: seq<EventId>, attempts: seq<Attempt>, n: nat): seq<(EventId, bool)>
    requires InRange(rows, ids) && n <= |ids| == |attempts|
  {
    if n == 0 then []
    else History(rows, ids, attempts, n - 1) + [(ids[n - 1], Delivers(rows[ids[n - 1]], attempts[n - 1]))]
  }

  /** Transactions hold rows of the table, no row twice, and no row of another transaction. */
  ghost predicate WellLocked(w: World) {
    && (forall k :: k in w.open ==>
          var t := w.open[k];
          InRange(w.rows, t.claimed) && Distinct(t.claimed) && |t.attempts| <= |t.claimed|)
    && (forall k, i :: k in w.open && 0 <= i < |w.open[k].claimed| ==> !w.rows[w.open[k].claimed[i]].processed)
    && (forall k, l, id :: k in w.open && l in w.open && id in w.open[k].claimed && id in w.open[l].claimed ==> k == l)
  }

  ghost function Next(w: World, s: Step, maxRetries: int, batchSize: nat): World
    requires WellLocked(w) && Enabled(w, s, maxRetries, batchSize)
  {
    match s
    case Append(row) => w.(rows := w.rows + [row])
    case Claim(k, ids) => w.(open := w.open[k := Transaction(ids, [])])
    case Try(k, a) =>
      var t := w.open[k];
      var id := t.claimed[|t.attempts|];
      w.(open := w.open[k := t.(attempts := t.attempts + [a])], log := w.log + Traces(id, w.rows[id], a, maxRetries))
    case Commit(k) =>
      var t := w.open[k];
      w.(rows := RowsAfter(w.rows, t.claimed, t.attempts, |t.claimed|, maxRetries),
         open := w.open - {k},
         committed := w.committed + History(w.rows, t.claimed, t.attempts, |t.claimed|))
    case Crash(k) => w.(open := w.open - {k})
  }

  // ---------------------------------------------------------------------------
  // Safety
  // ---------------------------------------------------------------------------

  /** Committed attempts on a row that failed. */
  function Failures(committed: seq<(EventId, bool)>, id: EventId): nat
    decreases |committed|
  {
    if committed == [] then 0
    else
      var last := committed[|committed| - 1];
      Failures(committed[..|committed| - 1], id) + if last == (id, false) then 1 else 0
  }

  ghost predicate DeliveredOutside(log: seq<LogEntry>, id: EventId, row: Row) {
    BoardPublish(id) in log && (HasHandler(row.eventType) ==> HandlerDone(id) in log)
  }

  /**
   What is always true of a row: its retry count is the number of committed failures; while
   unprocessed it can still be claimed; processed below the limit it was delivered; processed
   at the limit it failed exactly that often and the dead-letter publish was attempted.
   */
  ghost predicate RowSafe(row: Row, id: EventId, committed: seq<(EventId, bool)>, log: seq<LogEntry>, maxRetries: int) {
    && row.retryCount == Failures(committed, id) <= maxRetries
    && (!row.processed ==> row.retryCount < maxRetries)
    && (row.processed && row.retryCount < maxRetries ==> (id, true) in committed && DeliveredOutside(log, id, row))
    && (row.processed && row.retryCount == maxRetries ==> DlqAttempt(id) in log)
  }

  ghost predicate AllRowsSafe(rows: seq<Row>, committed: seq<(EventId, bool)>, log: seq<LogEntry>, maxRetries: int) {
    && (forall id: EventId :: id < |rows| ==> RowSafe(rows[id], id, committed, log, maxRetries))
    && (forall i :: 0 <= i < |committed| ==> committed[i].0 < |rows|)
  }

  ghost predicate LeftTraces(log: seq<LogEntry>, id: EventId, row: Row, a: Attempt, maxRetries: int) {
    forall e :: e in Traces(id, row, a, maxRetries) ==> e in log
  }

  /** Every attempt of an open transaction has left its traces. */
  ghost predicate Traced(w: World, maxRetries: int)
    requires WellLocked(w)
  {
    forall k, i :: k in w.open && 0 <= i < |w.open[k].attempts| ==>
      LeftTraces(w.log, w.open[k].claimed[i], w.rows[w.open[k].claimed[i]], w.open[k].attempts[i], maxRetries)
  }

  ghost predicate Safe(w: World, maxRetries: int) {
    WellLocked(w) && Traced(w, maxRetries) && AllRowsSafe(w.rows, w.committed, w.log, maxRetries)
  }

  lemma {:induction false} NoFailures(committed: seq<(EventId, bool)>, id: EventId)
    requires forall i :: 0 <= i < |committed| ==> committed[i].0 != id
    ensures Failures(committed, id) == 0
    decreases |committed|
  {
    if committed != [] {
      NoFailures(committed[..|committed| - 1], id);
    }
  }

  /** One more committed attempt keeps every row safe. */
  lemma CommitOne(rows: seq<Row>, committed: seq<(EventId, bool)>, log: seq<LogEntry>, id: EventId, a: Attempt,
      maxRetries: int)
    requires AllRowsSafe(rows, committed, log, maxRetries) && id < |rows| && !rows[id].processed
    requires LeftTraces(log, id, rows[id], a, maxRetries)
    ensures AllRowsSafe(rows[id := RowAfter(rows[id], a, maxRetries)],
                        committed + [(id, Delivers(rows[id], a))], log, maxRetries)
  {
    var rows' := rows[id := RowAfter(rows[id], a, maxRetries)];
    var committed' := committed + [(id, Delivers(rows[id], a))];
    assert committed'[..|committed|] == committed;
    assert (id, Delivers(rows[id], a)) == committed'[|committed|];
    forall other: EventId | other < |rows'|
      ensures RowSafe(rows'[other], other, committed', log, maxRetries)
    {
      assert RowSafe(rows[other], other, committed, log, maxRetries);
    }
  }

  lemma {:induction false} CommitAll(rows: seq<Row>, committed: seq<(EventId, bool)>, log: seq<LogEntry>,
                                     ids: seq<EventId>, attempts: seq<Attempt>, n: nat, maxRetries: int)
    requires AllRowsSafe(rows, committed, log, maxRetries)
    requires InRange(rows, ids) && Distinct(ids) && n <= |ids| == |attempts|
    requires forall i :: 0 <= i < |ids| ==> !rows[ids[i]].processed
    requires forall i :: 0 <= i < |ids| ==> LeftTraces(log, ids[i], rows[ids[i]], attempts[i], maxRetries)
    ensures AllRowsSafe(RowsAfter(rows, ids, attempts, n, maxRetries), committed + History(rows, ids, attempts, n),
            log, maxRetries)
    decreases n
  {
    if n == 0 {
      assert committed + History(rows, ids, attempts, n) == committed;
    } else {
      var before, history := RowsAfter(rows, ids, attempts, n - 1, maxRetries), History(rows, ids, attempts, n - 1);
      var id, a := ids[n - 1], attempts[n - 1];
      CommitAll(rows, committed, log, ids, attempts, n - 1, maxRetries);
      UntouchedRow(rows, ids, attempts, n - 1, maxRetries, id);
      CommitOne(before, committed + history, log, id, a, maxRetries);
      assert committed + (history + [(id, Delivers(rows[id], a))]) == committed + history +
             [(id, Delivers(rows[id], a))];
    }
  }

  lemma CommitIsSafe(w: World, k: WorkerId, maxRetries: int, batchSize: nat)
    requires Safe(w, maxRetries) && Enabled(w, Commit(k), maxRetries, batchSize)
    ensures Safe(Next(w, Commit(k), maxRetries, batchSize), maxRetries)
  {
    var t := w.open[k];
    var w' := Next(w, Commit(k), maxRetries, batchSize);
    CommitAll(w.rows, w.committed, w.log, t.claimed, t.attempts, |t.claimed|, maxRetries);
    forall l, i | l in w'.open && 0 <= i < |w'.open[l].claimed|
      ensures w'.rows[w'.open[l].claimed[i]] == w.rows[w.open[l].claimed[i]]
    {
      var id := w.open[l].claimed[i];
      assert id in w.open[l].claimed && id !in t.claimed;
      UntouchedRow(w.rows, t.claimed, t.attempts, |t.claimed|, maxRetries, id);
    }
  }

  lemma AppendIsSafe(w: World, row: Row, maxRetries: int, batchSize: nat)
    requires 1 <= maxRetries && Safe(w, maxRetries) && Enabled(w, Append(row), maxRetries, batchSize)
    ensures Safe(Next(w, Append(row), maxRetries, batchSize), maxRetries)
  {
    NoFailures(w.committed, |w.rows|);
  }

  lemma ClaimIsSafe(w: World, k: WorkerId, ids: seq<EventId>, maxRetries: int, batchSize: nat)
    requires Safe(w, maxRetries) && Enabled(w, Claim(k, ids), maxRetries, batchSize)
    ensures Safe(Next(w, Claim(k, ids), maxRetries, batchSize), maxRetries)
  {
    var w' := Next(w, Claim(k, ids), maxRetries, batchSize);
    assert forall i :: 0 <= i < |ids| ==> Claimable(w, ids[i], maxRetries);
    forall l, id | l in w.open && id in w.open[l].claimed
      ensures id !in ids
    {
      assert Locked(w, id);
    }
    assert WellLocked(w');
  }

  lemma TryIsTraced(w: World, k: WorkerId, a: Attempt, maxRetries: int, batchSize: nat)
    requires WellLocked(w) && Traced(w, maxRetries) && Enabled(w, Try(k, a), maxRetries, batchSize)
    ensures var w' := Next(w, Try(k, a), maxRetries, batchSize); WellLocked(w') && Traced(w', maxRetries)
  {
    var w' := Next(w, Try(k, a), maxRetries, batchSize);
    assert WellLocked(w');
    forall l, i | l in w'.open && 0 <= i < |w'.open[l].attempts|
      ensures var id := w'.open[l].claimed[i]; LeftTraces(w'.log, id, w'.rows[id], w'.open[l].attempts[i], maxRetries)
    {
      var id := w'.open[l].claimed[i];
      if l != k || i < |w.open[k].attempts| {
        assert LeftTraces(w.log, id, w.rows[id], w.open[l].attempts[i], maxRetries);
      }
    }
  }

  lemma TryIsSafe(w: World, k: WorkerId, a: Attempt, maxRetries: int, batchSize: nat)
    requires Safe(w, maxRetries) && Enabled(w, Try(k, a), maxRetries, batchSize)
    ensures Safe(Next(w, Try(k, a), maxRetries, batchSize), maxRetries)
  {
    var w' := Next(w, Try(k, a), maxRetries, batchSize);
    TryIsTraced(w, k, a, maxRetries, batchSize);
    assert forall e :: e in w.log ==> e in w'.log;
    LongerLogIsSafe(w.rows, w.committed, w.log, w'.log, maxRetries);
  }

  lemma LongerLogIsSafe(rows: seq<Row>, committed: seq<(EventId, bool)>, log: seq<LogEntry>, longer: seq<LogEntry>,
      maxRetries: int)
    requires AllRowsSafe(rows, committed, log, maxRetries) && forall e :: e in log ==> e in longer
    ensures AllRowsSafe(rows, committed, longer, maxRetries)
  {
    forall id: EventId | id < |rows|
      ensures RowSafe(rows[id], id, committed, longer, maxRetries)
    {
      assert RowSafe(rows[id], id, committed, log, maxRetries);
    }
  }

  lemma CrashIsSafe(w: World, k: WorkerId, maxRetries: int, batchSize: nat)
    requires Safe(w, maxRetries) && Enabled(w, Crash(k), maxRetries, batchSize)
    ensures Safe(Next(w, Crash(k), maxRetries, batchSize), maxRetries)
  {
    assert WellLocked(Next(w, Crash(k), maxRetries, batchSize));
  }

  lemma StepIsSafe(w: World, s: Step, maxRetries: int, batchSize: nat)
    requires 1 <= maxRetries && Safe(w, maxRetries) && Enabled(w, s, maxRetries, batchSize)
    ensures Safe(Next(w, s, maxRetries, batchSize), maxRetries)
  {
    match s
    case Append(row) => AppendIsSafe(w, row, maxRetries, batchSize);
    case Claim(k, ids) => ClaimIsSafe(w, k, ids, maxRetries, batchSize);
    case Try(k, a) => TryIsSafe(w, k, a, maxRetries, batchSize);
    case Commit(k) => CommitIsSafe(w, k, maxRetries, batchSize);
    case Crash(k) => CrashIsSafe(w, k, maxRetries, batchSize);
  }

  /** A table of new rows, with no poll under way, is where runs start. */
  lemma FreshTableIsSafe(rows: seq<Row>, maxRetries: int)
    requires 1 <= maxRetries
    requires forall i :: 0 <= i < |rows| ==> !rows[i].processed && rows[i].retryCount == 0
    ensures Safe(World(rows, map[], [], []), maxRetries)
  {
  }

  ghost predicate IsRun(w: World, steps: seq<Step>, maxRetries: int, batchSize: nat)
    decreases |steps|
  {
    steps == [] ||
    (WellLocked(w) && Enabled(w, steps[0], maxRetries, batchSize)
     && IsRun(Next(w, steps[0], maxRetries, batchSize), steps[1..], maxRetries, batchSize))
  }

  ghost function Final(w: World, steps: seq<Step>, maxRetries: int, batchSize: nat): World
    requires IsRun(w, steps, maxRetries, batchSize)
    decreases |steps|
  {
    if steps == [] then w else Final(Next(w, steps[0], maxRetries, batchSize), steps[1..], maxRetries, batchSize)
  }

  /** Safety over every run of appends and of any number of polling, crashing workers. */
  lemma {:induction false} EveryRunIsSafe(w: World, steps: seq<Step>, maxRetries: int, batchSize: nat)
    requires 1 <= maxRetries && Safe(w, maxRetries) && IsRun(w, steps, maxRetries, batchSize)
    ensures Safe(Final(w, steps, maxRetries, batchSize), maxRetries)
    decreases |steps|
  {
    if steps != [] {
      StepIsSafe(w, steps[0], maxRetries, batchSize);
      EveryRunIsSafe(Next(w, steps[0], maxRetries, batchSize), steps[1..], maxRetries, batchSize);
    }
  }

  /** A new row can be claimed only under a positive limit. */
  lemma FreshRowClaimableIff(w: World, id: EventId, maxRetries: int)
    requires id < |w.rows| && !w.rows[id].processed && w.rows[id].retryCount == 0 && !Locked(w, id)
    ensures Claimable(w, id, maxRetries) <==> 1 <= maxRetries
  {
  }

  // ---------------------------------------------------------------------------
  // Nothing is logged without reason
  // ---------------------------------------------------------------------------

  /** The event was published before the entry at `p`. */
  ghost predicate PublishedBefore(log: seq<LogEntry>, p: nat, id: EventId)
    requires p <= |log|
  {
    exists q :: 0 <= q < p && log[q] == BoardPublish(id)
  }

  /**
   Why an entry may stand at a place of the log: a row is dead-lettered only when it has failed
   as often as the limit allows, the last time perhaps in a transaction that was rolled back; a
   handler runs only for its types, and only after the publish.
   */
  ghost predicate Reasoned(rows: seq<Row>, log: seq<LogEntry>, p: nat, maxRetries: int)
    requires p < |log|
  {
    match log[p]
    case BoardPublish(id) => id < |rows|
    case HandlerDone(id) => id < |rows| && HasHandler(rows[id].eventType) && PublishedBefore(log, p, id)
    case DlqAttempt(id) => id < |rows| && rows[id].retryCount >= maxRetries - 1
  }

  ghost predicate LogIsReasoned(rows: seq<Row>, log: seq<LogEntry>, maxRetries: int) {
    forall p :: 0 <= p < |log| ==> Reasoned(rows, log, p, maxRetries)
  }

  /** Rows may be added, keep their types, and count up: the reasons stay. */
  ghost predicate RowsGrow(rows: seq<Row>, rows': seq<Row>) {
    && |rows| <= |rows'|
    && forall id :: 0 <= id < |rows| ==>
         rows'[id].eventType == rows[id].eventType && rows'[id].retryCount >= rows[id].retryCount
  }

  lemma ReasonsStay(rows: seq<Row>, rows': seq<Row>, log: seq<LogEntry>, maxRetries: int)
    requires LogIsReasoned(rows, log, maxRetries) && RowsGrow(rows, rows')
    ensures LogIsReasoned(rows', log, maxRetries)
  {
    forall p | 0 <= p < |log|
      ensures Reasoned(rows', log, p, maxRetries)
    {
      assert Reasoned(rows, log, p, maxRetries);
    }
  }

  lemma {:induction false} AttemptsGrow(rows: seq<Row>, ids: seq<EventId>, attempts: seq<Attempt>, n: nat,
      maxRetries: int)
    requires InRange(rows, ids) && n <= |ids| == |attempts|
    ensures RowsGrow(rows, RowsAfter(rows, ids, attempts, n, maxRetries))
    decreases n
  {
    if n > 0 {
      AttemptsGrow(rows, ids, attempts, n - 1, maxRetries);
    }
  }

  /** One attempt adds reasoned entries only. */
  lemma TracesAreReasoned(rows: seq<Row>, log: seq<LogEntry>, id: EventId, a: Attempt, maxRetries: int)
    requires id < |rows| && LogIsReasoned(rows, log, maxRetries)
    ensures LogIsReasoned(rows, log + Traces(id, rows[id], a, maxRetries), maxRetries)
  {
    var traces := Traces(id, rows[id], a, maxRetries);
    var log' := log + traces;
    forall p | 0 <= p < |log'|
      ensures Reasoned(rows, log', p, maxRetries)
    {
      if p < |log| {
        assert Reasoned(rows, log, p, maxRetries);
        assert forall q :: 0 <= q < p ==> log'[q] == log[q];
      } else {
        assert log'[p] == traces[p - |log|];
        assert traces[p - |log|] == HandlerDone(id) ==> p > |log| && log'[|log|] == BoardPublish(id);
      }
    }
  }

  lemma StepIsReasoned(w: World, s: Step, maxRetries: int, batchSize: nat)
    requires WellLocked(w) && Enabled(w, s, maxRetries, batchSize) && LogIsReasoned(w.rows, w.log, maxRetries)
    ensures var w' := Next(w, s, maxRetries, batchSize); LogIsReasoned(w'.rows, w'.log, maxRetries)
  {
    match s
    case Append(row) => ReasonsStay(w.rows, w.rows + [row], w.log, maxRetries);
    case Claim(_, _) =>
    case Try(k, a) => TracesAreReasoned(w.rows, w.log, w.open[k].claimed[|w.open[k].attempts|], a, maxRetries);
    case Commit(k) =>
      var t := w.open[k];
      AttemptsGrow(w.rows, t.claimed, t.attempts, |t.claimed|, maxRetries);
      ReasonsStay(w.rows, RowsAfter(w.rows, t.claimed, t.attempts, |t.claimed|, maxRetries), w.log, maxRetries);
    case Crash(_) =>
  }

  /**
   Over every run of appends and of any number of polling, crashing workers nothing is published,
   handled or dead-lettered without reason.
   */
  lemma {:induction false} EveryRunIsReasoned(w: World, steps: seq<Step>, maxRetries: int, batchSize: nat)
    requires IsRun(w, steps, maxRetries, batchSize) && LogIsReasoned(w.rows, w.log, maxRetries)
    ensures var end := Final(w, steps, maxRetries, batchSize); LogIsReasoned(end.rows, end.log, maxRetries)
    decreases |steps|
  {
    if steps != [] {
      StepIsReasoned(w, steps[0], maxRetries, batchSize);
      EveryRunIsReasoned(Next(w, steps[0], maxRetries, batchSize), steps[1..], maxRetries, batchSize);
    }
  }

  /** New rows only, and no transaction that holds one. */
  ghost predicate Untouched(w: World) {
    && (forall id :: 0 <= id < |w.rows| ==> !w.rows[id].processed && w.rows[id].retryCount == 0)
    && (forall k :: k in w.open ==> w.open[k] == Transaction([], []))
  }

  lemma UntouchedStep(w: World, s: Step, maxRetries: int, batchSize: nat)
    requires maxRetries < 1 && Untouched(w) && WellLocked(w) && Enabled(w, s, maxRetries, batchSize)
    ensures var w' := Next(w, s, maxRetries, batchSize);
            Untouched(w') && w'.log == w.log && w'.committed == w.committed && w.rows <= w'.rows
  {
    if s.Claim? && s.ids != [] {
      assert Claimable(w, s.ids[0], maxRetries);
      FreshRowClaimableIff(w, s.ids[0], maxRetries);
    }
  }

  /**
   The limit has to be positive: with any other, no run of any workers ever publishes or attempts
   anything, and every row stays unprocessed.
   */
  lemma {:induction false} StrandedForever(w: World, steps: seq<Step>, maxRetries: int, batchSize: nat)
    requires maxRetries < 1 && Untouched(w) && IsRun(w, steps, maxRetries, batchSize)
    ensures var end := Final(w, steps, maxRetries, batchSize);
            && end.log == w.log && end.committed == w.committed && w.rows <= end.rows
            && forall id :: 0 <= id < |end.rows| ==> !end.rows[id].processed
    decreases |steps|
  {
    if steps != [] {
      UntouchedStep(w, steps[0], maxRetries, batchSize);
      StrandedForever(Next(w, steps[0], maxRetries, batchSize), steps[1..], maxRetries, batchSize);
    }
  }

  // ---------------------------------------------------------------------------
  // Draining
  // ---------------------------------------------------------------------------

  function RowWork(row: Row, maxRetries: int): int {
    if row.processed then 0 else maxRetries - row.retryCount
  }

  /** The attempts the unprocessed rows have left. */
  function Work(rows: seq<Row>, maxRetries: int): int
    decreases |rows|
  {
    if rows == [] then 0 else Work(rows[..|rows| - 1], maxRetries) + RowWork(rows[|rows| - 1], maxRetries)
  }

  lemma {:induction false} WorkOfUpdate(rows: seq<Row>, id: EventId, row: Row, maxRetries: int)
    requires id < |rows|
    ensures Work(rows[id := row], maxRetries) == Work(rows, maxRetries) - RowWork(rows[id], maxRetries) +
            RowWork(row, maxRetries)
    decreases |rows|
  {
    var n := |rows| - 1;
    if id == n {
      assert rows[id := row][..n] == rows[..n];
    } else {
      assert rows[id := row][..n] == rows[..n][id := row];
      WorkOfUpdate(rows[..n], id, row, maxRetries);
    }
  }

  lemma AttemptUsesWork(rows: seq<Row>, id: EventId, a: Attempt, maxRetries: int)
    requires id < |rows| && !rows[id].processed && rows[id].retryCount < maxRetries
    ensures Work(rows[id := RowAfter(rows[id], a, maxRetries)], maxRetries) + 1 <= Work(rows, maxRetries)
  {
    WorkOfUpdate(rows, id, RowAfter(rows[id], a, maxRetries), maxRetries);
  }

  lemma {:induction false} CommitReducesWork(rows: seq<Row>, ids: seq<EventId>, attempts: seq<Attempt>, n: nat,
      maxRetries: int)
    requires InRange(rows, ids) && Distinct(ids) && n <= |ids| == |attempts|
    requires forall i :: 0 <= i < |ids| ==> !rows[ids[i]].processed && rows[ids[i]].retryCount < maxRetries
    ensures Work(RowsAfter(rows, ids, attempts, n, maxRetries), maxRetries) + n <= Work(rows, maxRetries)
    decreases n
  {
    if n > 0 {
      CommitReducesWork(rows, ids, attempts, n - 1, maxRetries);
      UntouchedRow(rows, ids, attempts, n - 1, maxRetries, ids[n - 1]);
      AttemptUsesWork(RowsAfter(rows, ids, attempts, n - 1, maxRetries), ids[n - 1], attempts[n - 1], maxRetries);
    }
  }

  lemma {:induction false} HistoryLength(rows: seq<Row>, ids: seq<EventId>, attempts: seq<Attempt>, n: nat)
    requires InRange(rows, ids) && n <= |ids| == |attempts|
    ensures |History(rows, ids, attempts, n)| == n
    decreases n
  {
    if n > 0 {
      HistoryLength(rows, ids, attempts, n - 1);
    }
  }

  /** Without new rows, every committed attempt uses up work that never comes back. */
  lemma {:induction false} WorkIsSpent(w: World, steps: seq<Step>, maxRetries: int, batchSize: nat)
    requires 1 <= maxRetries && Safe(w, maxRetries) && IsRun(w, steps, maxRetries, batchSize)
    requires forall i :: 0 <= i < |steps| ==> !steps[i].Append?
    ensures var end := Final(w, steps, maxRetries, batchSize);
            Work(end.rows, maxRetries) + |end.committed| <= Work(w.rows, maxRetries) + |w.committed|
    decreases |steps|
  {
    if steps != [] {
      var s := steps[0];
      StepIsSafe(w, s, maxRetries, batchSize);
      if s.Commit? {
        var t := w.open[s.worker];
        forall i | 0 <= i < |t.claimed|
          ensures !w.rows[t.claimed[i]].processed && w.rows[t.claimed[i]].retryCount < maxRetries
        {
          assert RowSafe(w.rows[t.claimed[i]], t.claimed[i], w.committed, w.log, maxRetries);
        }
        CommitReducesWork(w.rows, t.claimed, t.attempts, |t.claimed|, maxRetries);
        HistoryLength(w.rows, t.claimed, t.attempts, |t.claimed|);
      }
      WorkIsSpent(Next(w, s, maxRetries, batchSize), steps[1..], maxRetries, batchSize);
    }
  }

  lemma {:induction false} WorkBounds(rows: seq<Row>, maxRetries: int)
    requires forall i :: 0 <= i < |rows| ==>
               0 <= rows[i].retryCount && (!rows[i].processed ==> rows[i].retryCount < maxRetries)
    requires 1 <= maxRetries
    ensures 0 <= Work(rows, maxRetries) <= |rows| * maxRetries
    ensures Work(rows, maxRetries) == 0 <==> forall i :: 0 <= i < |rows| ==> rows[i].processed
    decreases |rows|
  {
    if rows != [] {
      var n := |rows| - 1;
      WorkBounds(rows[..n], maxRetries);
      assert |rows| * maxRetries == n * maxRetries + maxRetries;
      assert forall i :: 0 <= i < n ==> rows[..n][i] == rows[i];
    }
  }

  /** `n` rows are all processed once `n * maxRetries` attempts have been committed. */
  lemma DrainsWithin(w: World, steps: seq<Step>, maxRetries: int, batchSize: nat)
    requires 1 <= maxRetries && Safe(w, maxRetries) && IsRun(w, steps, maxRetries, batchSize)
    requires forall i :: 0 <= i < |steps| ==> !steps[i].Append?
    ensures var end := Final(w, steps, maxRetries, batchSize);
            && |end.committed| - |w.committed| <= |w.rows| * maxRetries
            && (|end.committed| - |w.committed| >= |w.rows| * maxRetries ==>
                  forall i :: 0 <= i < |end.rows| ==> end.rows[i].processed)
  {
    var end := Final(w, steps, maxRetries, batchSize);
    WorkIsSpent(w, steps, maxRetries, batchSize);
    EveryRunIsSafe(w, steps, maxRetries, batchSize);
    SafeCounts(w, maxRetries);
    SafeCounts(end, maxRetries);
    WorkBounds(w.rows, maxRetries);
    WorkBounds(end.rows, maxRetries);
  }

  lemma SafeCounts(w: World, maxRetries: int)
    requires Safe(w, maxRetries)
    ensures forall i :: 0 <= i < |w.rows| ==>
              0 <= w.rows[i].retryCount && (!w.rows[i].processed ==> w.rows[i].retryCount < maxRetries)
  {
    forall i | 0 <= i < |w.rows|
      ensures 0 <= w.rows[i].retryCount && (!w.rows[i].processed ==> w.rows[i].retryCount < maxRetries)
    {
      assert RowSafe(w.rows[i], i, w.committed, w.log, maxRetries);
    }
  }

  /** A poll never comes back empty while an unlocked row is unprocessed. */
  lemma ClaimsMakeProgress(w: World, ids: seq<EventId>, id: EventId, maxRetries: int, batchSize: nat)
    requires Safe(w, maxRetries) && IsClaim(w, ids, maxRetries, batchSize) && 1 <= batchSize
    requires id < |w.rows| && !w.rows[id].processed && !Locked(w, id)
    ensures ids != []
  {
    assert RowSafe(w.rows[id], id, w.committed, w.log, maxRetries);
    assert Claimable(w, id, maxRetries);
  }
}
