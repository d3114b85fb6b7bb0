/**
 In which order the outbox worker publishes the events of a board for the first time. The
 live delivery of the WebSocket server depends on it.
 */
module PublishOrders {
  import opened OutboxWorkers

  /** `y` is an earlier event of the same board than `x`; unnumbered events have sequence 0. */
  predicate Precedes(rows: seq<Row>, y: EventId, x: EventId) {
    y < |rows| && x < |rows| && rows[y].boardId == rows[x].boardId && 1 <= rows[y].sequence < rows[x].sequence
  }

  predicate IsPublished(log: seq<LogEntry>, id: EventId) {
    BoardPublish(id) in log
  }

  /** Whatever is published, all earlier numbered events of its board are published too. */
  ghost predicate InOrder(w: World) {
    forall x, y :: Precedes(w.rows, y, x) && IsPublished(w.log, x) ==> IsPublished(w.log, y)
  }

  /** Events are numbered in commit order, or not at all, and a single worker `k` polls. */
  ghost predicate OneWorker(w: World, k: WorkerId, s: Step) {
    && (s.Append? && s.row.sequence != 0 ==>
          forall id: EventId :: id < |w.rows| && w.rows[id].boardId == s.row.boardId ==>
                                  w.rows[id].sequence < s.row.sequence)
    && (s.Claim? ==> s.worker == k)
  }

  /** The attempt, if the step is one, gets its event published; its handler may fail. */
  predicate PublishSucceeds(s: Step) {
    s.Try? ==> s.attempt.publishSucceeds
  }

  ghost predicate ClaimedBefore(t: Transaction, y: EventId, i: nat)
    requires i <= |t.claimed|
  {
    exists j :: 0 <= j < i && t.claimed[j] == y
  }

  /** Each event before a claimed one is published, or claimed before it. */
  ghost predicate ClaimsInOrder(w: World, t: Transaction) {
    forall i, y :: 0 <= i < |t.claimed| && Precedes(w.rows, y, t.claimed[i]) ==>
      IsPublished(w.log, y) || ClaimedBefore(t, y, i)
  }

  predicate Sorted(rows: seq<Row>, ids: seq<EventId>)
    requires InRange(rows, ids)
  {
    forall i, j :: 0 <= i < j < |ids| ==> rows[ids[i]].sequence <= rows[ids[j]].sequence
  }

  /** With any number of workers: what is processed or attempted is published, and claims are sorted. */
  ghost predicate Accounted(w: World) {
    && WellLocked(w)
    && (forall id: EventId :: IsPublished(w.log, id) ==> id < |w.rows|)
    && (forall id: EventId :: id < |w.rows| && w.rows[id].processed ==> IsPublished(w.log, id))
    && (forall k, i :: k in w.open && 0 <= i < |w.open[k].attempts| ==> IsPublished(w.log, w.open[k].claimed[i]))
    && (forall k :: k in w.open ==> Sorted(w.rows, w.open[k].claimed))
  }

  /** With the single worker `k` also nothing is published out of order, and it claims in order. */
  ghost predicate Orderly(w: World, k: WorkerId) {
    && Accounted(w)
    && (forall j :: j in w.open ==> j == k)
    && InOrder(w)
    && (k in w.open ==> ClaimsInOrder(w, w.open[k]))
  }

  /** A new table, without a poll under way, is where such runs start. */
  lemma FreshTableIsOrderly(rows: seq<Row>, k: WorkerId, maxRetries: int)
    requires 1 <= maxRetries && forall i :: 0 <= i < |rows| ==> !rows[i].processed && rows[i].retryCount == 0
    ensures Orderly(World(rows, map[], [], []), k) && Safe(World(rows, map[], [], []), maxRetries)
  {
    FreshTableIsSafe(rows, maxRetries);
  }

  lemma {:induction false} RowsKeepPlace(rows: seq<Row>, ids: seq<EventId>, attempts: seq<Attempt>, n: nat,
      maxRetries: int, id: EventId)
    requires InRange(rows, ids) && n <= |ids| == |attempts| && id < |rows|
    ensures var row := RowsAfter(rows, ids, attempts, n, maxRetries)[id];
            row.boardId == rows[id].boardId && row.sequence == rows[id].sequence
            && (row.processed ==> rows[id].processed || exists i :: 0 <= i < n && ids[i] == id)
    decreases n
  {
    if n > 0 {
      RowsKeepPlace(rows, ids, attempts, n - 1, maxRetries, id);
    }
  }

  // ---------------------------------------------------------------------------
  // Any number of workers
  // ---------------------------------------------------------------------------

  lemma CommitIsAccounted(w: World, k: WorkerId, maxRetries: int, batchSize: nat)
    requires Accounted(w) && Safe(w, maxRetries) && Enabled(w, Commit(k), maxRetries, batchSize)
    ensures Accounted(Next(w, Commit(k), maxRetries, batchSize))
    ensures SamePlaces(w.rows, Next(w, Commit(k), maxRetries, batchSize).rows)
  {
    var t := w.open[k];
    var w' := Next(w, Commit(k), maxRetries, batchSize);
    CommitIsSafe(w, k, maxRetries, batchSize);
    forall id: EventId | id < |w.rows|
      ensures w'.rows[id].boardId == w.rows[id].boardId && w'.rows[id].sequence == w.rows[id].sequence
      ensures w'.rows[id].processed ==> IsPublished(w.log, id)
    {
      RowsKeepPlace(w.rows, t.claimed, t.attempts, |t.claimed|, maxRetries, id);
    }
  }

  predicate SamePlaces(rows: seq<Row>, rows': seq<Row>) {
    && |rows'| == |rows|
    && forall id :: 0 <= id < |rows| ==>
         rows'[id].boardId == rows[id].boardId && rows'[id].sequence == rows[id].sequence
  }

  /** What a successful publish adds to the log. */
  lemma PublishAdds(w: World, k: WorkerId, a: Attempt, maxRetries: int, batchSize: nat)
    requires WellLocked(w) && Enabled(w, Try(k, a), maxRetries, batchSize)
    ensures var id := w.open[k].claimed[|w.open[k].attempts|];
            var w' := Next(w, Try(k, a), maxRetries, batchSize);
            && w'.rows == w.rows
            && forall x :: IsPublished(w'.log, x) <==> IsPublished(w.log, x) || (a.publishSucceeds && x == id)
  {
    var t := w.open[k];
    var id := t.claimed[|t.attempts|];
    var traces := Traces(id, w.rows[id], a, maxRetries);
    assert a.publishSucceeds ==> traces[0] == BoardPublish(id);
    assert forall x :: BoardPublish(x) in traces ==> a.publishSucceeds && x == id;
  }

  lemma TryIsAccounted(w: World, k: WorkerId, a: Attempt, maxRetries: int, batchSize: nat)
    requires Accounted(w) && Safe(w, maxRetries) && Enabled(w, Try(k, a), maxRetries, batchSize) && a.publishSucceeds
    ensures Accounted(Next(w, Try(k, a), maxRetries, batchSize))
  {
    TryIsSafe(w, k, a, maxRetries, batchSize);
    PublishAdds(w, k, a, maxRetries, batchSize);
  }

  /** Any step of any worker without a failing publish keeps the account. */
  lemma StepIsAccounted(w: World, s: Step, maxRetries: int, batchSize: nat)
    requires Accounted(w) && Safe(w, maxRetries) && Enabled(w, s, maxRetries, batchSize) && PublishSucceeds(s)
    ensures Accounted(Next(w, s, maxRetries, batchSize))
  {
    match s
    case Append(_) =>
    case Claim(k, ids) => ClaimIsSafe(w, k, ids, maxRetries, batchSize);
    case Try(k, a) => TryIsAccounted(w, k, a, maxRetries, batchSize);
    case Commit(k) => CommitIsAccounted(w, k, maxRetries, batchSize);
    case Crash(k) => CrashIsSafe(w, k, maxRetries, batchSize);
  }

  /** Another open transaction holds the event. */
  predicate HeldByOther(w: World, k: WorkerId, id: EventId) {
    exists l :: l in w.open && l != k && id in w.open[l].claimed
  }

  /** The worker of a publish has published all earlier events that it holds itself. */
  lemma OwnEarlierArePublished(w: World, k: WorkerId, y: EventId)
    requires Accounted(w) && k in w.open && |w.open[k].attempts| < |w.open[k].claimed|
    requires Precedes(w.rows, y, w.open[k].claimed[|w.open[k].attempts|]) && y in w.open[k].claimed
    ensures IsPublished(w.log, y)
  {
    var t := w.open[k];
    var i :| 0 <= i < |t.claimed| && t.claimed[i] == y;
    assert i < |t.attempts|;
  }

  /**
   Where no publish fails, a publish keeps the order if and only if no earlier unpublished event
   of its board is held by another open transaction or left unlocked.
   */
  lemma PublishKeepsOrderIff(w: World, k: WorkerId, a: Attempt, maxRetries: int, batchSize: nat)
    requires Accounted(w) && InOrder(w)
    requires Enabled(w, Try(k, a), maxRetries, batchSize) && a.publishSucceeds
    ensures var id := w.open[k].claimed[|w.open[k].attempts|];
            InOrder(Next(w, Try(k, a), maxRetries, batchSize)) <==>
            !exists y :: Precedes(w.rows, y, id) && !IsPublished(w.log, y) && (HeldByOther(w, k, y) || !Locked(w, y))
  {
    var id := w.open[k].claimed[|w.open[k].attempts|];
    var w' := Next(w, Try(k, a), maxRetries, batchSize);
    PublishAdds(w, k, a, maxRetries, batchSize);
    if InOrder(w') {
      forall y | Precedes(w.rows, y, id)
        ensures IsPublished(w.log, y)
      {
        assert Precedes(w'.rows, y, id) && IsPublished(w'.log, id);
      }
    } else {
      var x, y :| Precedes(w'.rows, y, x) && IsPublished(w'.log, x) && !IsPublished(w'.log, y);
      assert x == id && Precedes(w.rows, y, id);
      if y in w.open[k].claimed {
        OwnEarlierArePublished(w, k, y);
      }
    }
  }

  // ---------------------------------------------------------------------------
  // A single worker
  // ---------------------------------------------------------------------------

  lemma CommitIsOrderly(w: World, k: WorkerId, maxRetries: int, batchSize: nat)
    requires Orderly(w, k) && Safe(w, maxRetries) && Enabled(w, Commit(k), maxRetries, batchSize)
    ensures Orderly(Next(w, Commit(k), maxRetries, batchSize), k)
  {
    var w' := Next(w, Commit(k), maxRetries, batchSize);
    CommitIsAccounted(w, k, maxRetries, batchSize);
    forall x, y | Precedes(w'.rows, y, x) && IsPublished(w.log, x)
      ensures IsPublished(w.log, y)
    {
      assert Precedes(w.rows, y, x);
    }
  }

  lemma AppendIsOrderly(w: World, k: WorkerId, row: Row, maxRetries: int, batchSize: nat)
    requires Orderly(w, k) && Safe(w, maxRetries)
    requires Enabled(w, Append(row), maxRetries, batchSize) && OneWorker(w, k, Append(row))
    ensures Orderly(Next(w, Append(row), maxRetries, batchSize), k)
  {
    var w' := Next(w, Append(row), maxRetries, batchSize);
    StepIsAccounted(w, Append(row), maxRetries, batchSize);
    forall x: EventId, y: EventId | Precedes(w'.rows, y, x) && x < |w.rows|
      ensures Precedes(w.rows, y, x)
    {
    }
  }

  /** An event before a claimed one is either published or can be claimed, so it is claimed first. */
  lemma ClaimTakesEarlier(w: World, k: WorkerId, ids: seq<EventId>, maxRetries: int, batchSize: nat, i: nat, y: EventId)
    requires Orderly(w, k) && Safe(w, maxRetries) && Enabled(w, Claim(k, ids), maxRetries, batchSize)
    requires i < |ids| && Precedes(w.rows, y, ids[i]) && !IsPublished(w.log, y)
    ensures ClaimedBefore(Transaction(ids, []), y, i)
  {
    assert RowSafe(w.rows[y], y, w.committed, w.log, maxRetries);
    assert Claimable(w, y, maxRetries);
    assert y in ids;
    var j :| 0 <= j < |ids| && ids[j] == y;
    assert j < i;
  }

  lemma ClaimIsOrderly(w: World, k: WorkerId, ids: seq<EventId>, maxRetries: int, batchSize: nat)
    requires Orderly(w, k) && Safe(w, maxRetries) && Enabled(w, Claim(k, ids), maxRetries, batchSize)
    ensures Orderly(Next(w, Claim(k, ids), maxRetries, batchSize), k)
  {
    ClaimIsSafe(w, k, ids, maxRetries, batchSize);
    forall i, y | 0 <= i < |ids| && Precedes(w.rows, y, ids[i]) && !IsPublished(w.log, y)
      ensures ClaimedBefore(Transaction(ids, []), y, i)
    {
      ClaimTakesEarlier(w, k, ids, maxRetries, batchSize, i, y);
    }
  }

  /** When an event is published, every earlier event of its board already was. */
  lemma PublishedNext(w: World, k: WorkerId, y: EventId)
    requires Orderly(w, k) && k in w.open && |w.open[k].attempts| < |w.open[k].claimed|
    requires Precedes(w.rows, y, w.open[k].claimed[|w.open[k].attempts|])
    ensures IsPublished(w.log, y)
  {
  }

  lemma TryIsOrderly(w: World, k: WorkerId, a: Attempt, maxRetries: int, batchSize: nat)
    requires Orderly(w, k) && Safe(w, maxRetries) && Enabled(w, Try(k, a), maxRetries, batchSize) && a.publishSucceeds
    ensures Orderly(Next(w, Try(k, a), maxRetries, batchSize), k)
  {
    var w' := Next(w, Try(k, a), maxRetries, batchSize);
    var t := w.open[k];
    TryIsAccounted(w, k, a, maxRetries, batchSize);
    PublishAdds(w, k, a, maxRetries, batchSize);
    forall y | Precedes(w.rows, y, t.claimed[|t.attempts|])
      ensures IsPublished(w.log, y)
    {
      PublishedNext(w, k, y);
    }
    assert forall y, i :: 0 <= i <= |t.claimed| ==> ClaimedBefore(w'.open[k], y, i) == ClaimedBefore(t, y, i);
  }

  lemma StepIsOrderly(w: World, k: WorkerId, s: Step, maxRetries: int, batchSize: nat)
    requires Orderly(w, k) && Safe(w, maxRetries) && Enabled(w, s, maxRetries, batchSize)
    requires OneWorker(w, k, s) && PublishSucceeds(s)
    ensures Orderly(Next(w, s, maxRetries, batchSize), k)
  {
    match s
    case Append(row) => AppendIsOrderly(w, k, row, maxRetries, batchSize);
    case Claim(_, ids) => ClaimIsOrderly(w, k, ids, maxRetries, batchSize);
    case Try(_, a) => TryIsOrderly(w, k, a, maxRetries, batchSize);
    case Commit(_) => CommitIsOrderly(w, k, maxRetries, batchSize);
    case Crash(_) => StepIsAccounted(w, s, maxRetries, batchSize);
  }

  ghost predicate OrderlySteps(w: World, k: WorkerId, steps: seq<Step>, maxRetries: int, batchSize: nat)
    requires IsRun(w, steps, maxRetries, batchSize)
    decreases |steps|
  {
    steps == [] ||
    (OneWorker(w, k, steps[0]) && PublishSucceeds(steps[0])
     && OrderlySteps(Next(w, steps[0], maxRetries, batchSize), k, steps[1..], maxRetries, batchSize))
  }

  /**
   With a single worker and no failing publish, every run publishes the events of a board for
   the first time in ascending order, whatever handlers fail and however often it crashes.
   */
  lemma {:induction false} EveryRunIsInOrder(w: World, k: WorkerId, steps: seq<Step>, maxRetries: int, batchSize: nat)
    requires 1 <= maxRetries && Safe(w, maxRetries) && Orderly(w, k)
    requires IsRun(w, steps, maxRetries, batchSize) && OrderlySteps(w, k, steps, maxRetries, batchSize)
    ensures InOrder(Final(w, steps, maxRetries, batchSize))
    decreases |steps|
  {
    if steps != [] {
      StepIsSafe(w, steps[0], maxRetries, batchSize);
      StepIsOrderly(w, k, steps[0], maxRetries, batchSize);
      EveryRunIsInOrder(Next(w, steps[0], maxRetries, batchSize), k, steps[1..], maxRetries, batchSize);
    }
  }

  // ---------------------------------------------------------------------------
  // Failing publishes
  // ---------------------------------------------------------------------------

  function Tries(k: WorkerId, attempts: seq<Attempt>): seq<Step> {
    if attempts == [] then [] else [Try(k, attempts[0])] + Tries(k, attempts[1..])
  }

  /** The row of the `i`-th attempt that a transaction has left. */
  function Upcoming(t: Transaction, i: nat): EventId
    requires |t.attempts| + i < |t.claimed|
  {
    t.claimed[|t.attempts| + i]
  }

  /** One of the further attempts of a transaction publishes the event. */
  ghost predicate PublishedBy(t: Transaction, more: seq<Attempt>, x: EventId)
    requires |t.attempts| + |more| <= |t.claimed|
  {
    exists i :: 0 <= i < |more| && Upcoming(t, i) == x && more[i].publishSucceeds
  }

  /** Further attempts of a transaction publish exactly those events whose publish succeeds. */
  lemma {:induction false} TriesPublish(w: World, k: WorkerId, more: seq<Attempt>, maxRetries: int, batchSize: nat)
    requires Safe(w, maxRetries) && k in w.open && |w.open[k].attempts| + |more| <= |w.open[k].claimed|
    ensures IsRun(w, Tries(k, more), maxRetries, batchSize)
    ensures var end := Final(w, Tries(k, more), maxRetries, batchSize);
            && end.rows == w.rows
            && forall x :: IsPublished(end.log, x) <==> IsPublished(w.log, x) || PublishedBy(w.open[k], more, x)
    decreases |more|
  {
    if more != [] {
      var w1 := Next(w, Try(k, more[0]), maxRetries, batchSize);
      TryIsSafe(w, k, more[0], maxRetries, batchSize);
      PublishAdds(w, k, more[0], maxRetries, batchSize);
      TriesPublish(w1, k, more[1..], maxRetries, batchSize);
      assert Tries(k, more)[0] == Try(k, more[0]) && Tries(k, more)[1..] == Tries(k, more[1..]);
      forall x
        ensures PublishedBy(w.open[k], more, x) <==>
                (more[0].publishSucceeds && x == w.open[k].claimed[|w.open[k].attempts|])
                    || PublishedBy(w1.open[k], more[1..], x)
      {
        SplitPublishedBy(w.open[k], more, x);
      }
    }
  }

  lemma SplitPublishedBy(t: Transaction, more: seq<Attempt>, x: EventId)
    requires more != [] && |t.attempts| + |more| <= |t.claimed|
    ensures PublishedBy(t, more, x) <==>
            (more[0].publishSucceeds && x == t.claimed[|t.attempts|])
            || PublishedBy(t.(attempts := t.attempts + [more[0]]), more[1..], x)
  {
    var t' := t.(attempts := t.attempts + [more[0]]);
    if PublishedBy(t, more, x) {
      var i :| 0 <= i < |more| && Upcoming(t, i) == x && more[i].publishSucceeds;
      if i > 0 {
        assert more[1..][i - 1] == more[i] && Upcoming(t', i - 1) == x;
      }
    }
    if PublishedBy(t', more[1..], x) {
      var i :| 0 <= i < |more[1..]| && Upcoming(t', i) == x && more[1..][i].publishSucceeds;
      assert more[i + 1] == more[1..][i] && Upcoming(t, i + 1) == x;
    }
  }

  /** No attempt publishes after the failed publish of an unpublished predecessor of its board. */
  ghost predicate NoneOvertakes(w: World, t: Transaction, more: seq<Attempt>)
    requires |t.attempts| + |more| <= |t.claimed|
  {
    forall i, j :: 0 <= i < j < |more| && more[j].publishSucceeds && !more[i].publishSucceeds
                   && Precedes(w.rows, Upcoming(t, i), Upcoming(t, j)) ==>
                   IsPublished(w.log, Upcoming(t, i))
  }

  /** A failed attempt of a batch leaves its event as it was: no event is claimed twice. */
  lemma FailedStaysUnpublished(w: World, k: WorkerId, more: seq<Attempt>, i: nat)
    requires WellLocked(w) && k in w.open && |w.open[k].attempts| + |more| <= |w.open[k].claimed|
    requires i < |more| && !more[i].publishSucceeds
    ensures !PublishedBy(w.open[k], more, Upcoming(w.open[k], i))
  {
  }

  lemma EarlierOfBatch(w: World, k: WorkerId, more: seq<Attempt>, j: nat, y: EventId)
    requires Orderly(w, k) && k in w.open && |w.open[k].attempts| + |more| <= |w.open[k].claimed|
    requires j < |more| && Precedes(w.rows, y, Upcoming(w.open[k], j))
    ensures IsPublished(w.log, y) || exists i :: 0 <= i < j && Upcoming(w.open[k], i) == y
  {
    var t := w.open[k];
    var n := |t.attempts|;
    if !IsPublished(w.log, y) {
      assert Precedes(w.rows, y, t.claimed[n + j]);
      assert ClaimedBefore(t, y, n + j);
      var i :| 0 <= i < n + j && t.claimed[i] == y;
      assert i >= n;
      assert Upcoming(t, i - n) == y;
    }
  }

  lemma OvertakenBreaksOrder(w: World, k: WorkerId, more: seq<Attempt>, end: World)
    requires Orderly(w, k) && k in w.open && |w.open[k].attempts| + |more| <= |w.open[k].claimed|
    requires end.rows == w.rows
    requires forall x :: IsPublished(end.log, x) <==> IsPublished(w.log, x) || PublishedBy(w.open[k], more, x)
    requires !NoneOvertakes(w, w.open[k], more)
    ensures !InOrder(end)
  {
    var t := w.open[k];
    var i, j :| 0 <= i < j < |more| && more[j].publishSucceeds && !more[i].publishSucceeds
                && Precedes(w.rows, Upcoming(t, i), Upcoming(t, j)) && !IsPublished(w.log, Upcoming(t, i));
    FailedStaysUnpublished(w, k, more, i);
    assert PublishedBy(t, more, Upcoming(t, j));
    assert Precedes(end.rows, Upcoming(t, i), Upcoming(t, j));
  }

  lemma NoneOvertakenKeepsOrder(w: World, k: WorkerId, more: seq<Attempt>, end: World)
    requires Orderly(w, k) && k in w.open && |w.open[k].attempts| + |more| <= |w.open[k].claimed|
    requires end.rows == w.rows
    requires forall x :: IsPublished(end.log, x) <==> IsPublished(w.log, x) || PublishedBy(w.open[k], more, x)
    requires NoneOvertakes(w, w.open[k], more)
    ensures InOrder(end)
  {
    var t := w.open[k];
    forall x, y | Precedes(w.rows, y, x) && IsPublished(end.log, x)
      ensures IsPublished(end.log, y)
    {
      if !IsPublished(w.log, x) && !IsPublished(w.log, y) {
        var j :| 0 <= j < |more| && Upcoming(t, j) == x && more[j].publishSucceeds;
        EarlierOfBatch(w, k, more, j, y);
        var i :| 0 <= i < j && Upcoming(t, i) == y;
        assert PublishedBy(t, more, y);
      }
    }
  }

  /**
   A single worker's attempts, over a whole batch or any further part of it, keep the order if
   and only if none publishes after a failed publish of an unpublished predecessor of its board.
   */
  lemma BatchInOrderIff(w: World, k: WorkerId, more: seq<Attempt>, maxRetries: int, batchSize: nat)
    requires Orderly(w, k) && Safe(w, maxRetries)
    requires k in w.open && |w.open[k].attempts| + |more| <= |w.open[k].claimed|
    ensures IsRun(w, Tries(k, more), maxRetries, batchSize)
    ensures InOrder(Final(w, Tries(k, more), maxRetries, batchSize)) <==> NoneOvertakes(w, w.open[k], more)
  {
    TriesPublish(w, k, more, maxRetries, batchSize);
    if NoneOvertakes(w, w.open[k], more) {
      NoneOvertakenKeepsOrder(w, k, more, Final(w, Tries(k, more), maxRetries, batchSize));
    } else {
      OvertakenBreaksOrder(w, k, more, Final(w, Tries(k, more), maxRetries, batchSize));
    }
  }

  // ---------------------------------------------------------------------------
  // Runs that end out of order
  // ---------------------------------------------------------------------------

  const TWO_EVENTS: seq<Row> := [Row("b", 1, "card.moved", false, 0), Row("b", 2, "card.moved", false, 0)]

  lemma OutOfOrder(w: World)
    requires w.rows == TWO_EVENTS && IsPublished(w.log, 1) && !IsPublished(w.log, 0)
    ensures !InOrder(w)
  {
    assert Precedes(w.rows, 0, 1);
  }

  /** A single worker claims both events. */
  function ClaimedTogether(): World {
    World(TWO_EVENTS, map[0 := Transaction([0, 1], [])], [], [])
  }

  lemma TogetherIsClaimed()
    ensures var start := World(TWO_EVENTS, map[], [], []);
            && WellLocked(start) && Enabled(start, Claim(0, [0, 1]), 5, 50)
            && Next(start, Claim(0, [0, 1]), 5, 50) == ClaimedTogether()
  {
    assert IsClaim(World(TWO_EVENTS, map[], [], []), [0, 1], 5, 50);
  }

  lemma TogetherIsOrderly()
    ensures Orderly(ClaimedTogether(), 0) && Safe(ClaimedTogether(), 5)
  {
    FreshTableIsOrderly(TWO_EVENTS, 0, 5);
    TogetherIsClaimed();
    ClaimIsSafe(World(TWO_EVENTS, map[], [], []), 0, [0, 1], 5, 50);
    ClaimIsOrderly(World(TWO_EVENTS, map[], [], []), 0, [0, 1], 5, 50);
  }

  /** One poll over a fresh table: the publish of event 1 fails, that of event 2 does not. */
  lemma FailedPublishIsOvertaken()
    ensures var start := World(TWO_EVENTS, map[], [], []);
            var steps := [Claim(0, [0, 1])] + Tries(0, [Attempt(false, true), Attempt(true, true)]);
            IsRun(start, steps, 5, 50) && !InOrder(Final(start, steps, 5, 50))
  {
    var w := ClaimedTogether();
    var attempts := [Attempt(false, true), Attempt(true, true)];
    TogetherIsClaimed();
    TogetherIsOrderly();
    BatchInOrderIff(w, 0, attempts, 5, 50);
    assert Precedes(w.rows, Upcoming(w.open[0], 0), Upcoming(w.open[0], 1));
    assert ([Claim(0, [0, 1])] + Tries(0, attempts))[1..] == Tries(0, attempts);
  }

  /** Two workers claim one event each. */
  function BothClaimed(): World {
    World(TWO_EVENTS, map[0 := Transaction([0], []), 1 := Transaction([1], [])], [], [])
  }

  lemma FirstClaims()
    ensures var start := World(TWO_EVENTS, map[], [], []);
            && WellLocked(start) && Enabled(start, Claim(0, [0]), 5, 1)
            && Next(start, Claim(0, [0]), 5, 1) == World(TWO_EVENTS, map[0 := Transaction([0], [])], [], [])
  {
  }

  lemma SecondClaims()
    ensures var w := World(TWO_EVENTS, map[0 := Transaction([0], [])], [], []);
            && WellLocked(w) && Enabled(w, Claim(1, [1]), 5, 1)
            && Next(w, Claim(1, [1]), 5, 1) == BothClaimed()
  {
    var w := World(TWO_EVENTS, map[0 := Transaction([0], [])], [], []);
    assert 0 in w.open[0].claimed && Locked(w, 0);
    assert 0 in w.open && w.open.Keys == {0};
  }

  lemma BothAreLocked()
    ensures WellLocked(BothClaimed()) && Enabled(BothClaimed(), Try(1, Attempt(true, true)), 5, 1)
  {
  }

  lemma SecondPublishes()
    requires WellLocked(BothClaimed()) && Enabled(BothClaimed(), Try(1, Attempt(true, true)), 5, 1)
    ensures !InOrder(Next(BothClaimed(), Try(1, Attempt(true, true)), 5, 1))
  {
    PublishAdds(BothClaimed(), 1, Attempt(true, true), 5, 1);
    OutOfOrder(Next(BothClaimed(), Try(1, Attempt(true, true)), 5, 1));
  }

  /** Two workers with batches of one over a fresh table: the second publishes first. */
  lemma SecondWorkerOvertakes()
    ensures var start := World(TWO_EVENTS, map[], [], []);
            var steps := [Claim(0, [0])] + ([Claim(1, [1])] + [Try(1, Attempt(true, true))]);
            IsRun(start, steps, 5, 1) && !InOrder(Final(start, steps, 5, 1))
  {
    FirstClaims();
    SecondClaims();
    BothAreLocked();
    SecondPublishes();
    var start, publish := World(TWO_EVENTS, map[], [], []), [Try(1, Attempt(true, true))];
    var w1 := Next(start, Claim(0, [0]), 5, 1);
    RunStep(BothClaimed(), Try(1, Attempt(true, true)), [], 5, 1);
    RunStep(w1, Claim(1, [1]), publish, 5, 1);
    RunStep(start, Claim(0, [0]), [Claim(1, [1])] + publish, 5, 1);
    assert [Try(1, Attempt(true, true))] + [] == publish;
  }

  lemma RunStep(w: World, s: Step, rest: seq<Step>, maxRetries: int, batchSize: nat)
    requires WellLocked(w) && Enabled(w, s, maxRetries, batchSize)
    requires IsRun(Next(w, s, maxRetries, batchSize), rest, maxRetries, batchSize)
    ensures IsRun(w, [s] + rest, maxRetries, batchSize)
    ensures Final(w, [s] + rest, maxRetries, batchSize) ==
            Final(Next(w, s, maxRetries, batchSize), rest, maxRetries, batchSize)
  {
    assert ([s] + rest)[1..] == rest;
  }
}
