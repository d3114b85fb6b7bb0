/**
 Runs of the WebSocket server on one board: clients subscribe, are caught up from the database
 and leave while events are committed, published and published again.
 */
module WsRuns {
  import opened Wrappers
  import opened BoardModel
  import opened BoardRuns
  import opened WsServers

  /** A subscription between its handlers: each query is read at one moment and used later. */
  datatype Phase =
    | Counting
    | Counted(missed: nat)
    | Pulling
    | Pulled(rows: seq<int>)
    | CaughtUp
    | Resynced

  /**
   A registered client. `since` is the sequence above which it wants all events, `logAt` the
   log when it registered, and `upTo` the last event that its catch-up covered.
   */
  datatype Subscription = Subscription(view: ClientView, phase: Phase, since: int, logAt: nat, upTo: int)

  /**
   The log of the board holds events 1 to `log`, of which 1 to `arrived` have reached the
   server's channel. The clients are in the order in which live events are sent to them.
   */
  datatype World = World(log: nat, arrived: nat, clients: seq<Subscription>)

  datatype Step =
    | CommitEvent
    | Arrive(sequence: int)
    | Subscribe(client: ClientView, lastSequence: Watermark)
    | Leave(index: nat)
    | CountQuery(index: nat)
    | CountResume(index: nat)
    | RowsQuery(index: nat)
    | RowsResume(index: nat)

  function Missed(log: nat, since: int): nat {
    if log > since then log - since else 0
  }

  function Min(a: int, b: int): int {
    if a <= b then a else b
  }

  function Max(a: int, b: int): int {
    if a >= b then a else b
  }

  /** The rows above `since` in ascending order, limited. */
  function RowsAbove(log: nat, since: int): seq<int> {
    seq(Min(Missed(log, since), MAX_CATCH_UP), i => since + 1 + i)
  }

  /**
   Events are committed before they are published, a first publication is the next number,
   and published events may be published again at any time. Events without a number, which are
   not part of the log, arrive as 0.
   */
  predicate Enabled(w: World, s: Step) {
    match s
    case CommitEvent => true
    case Arrive(sequence) => 0 <= sequence <= w.log && sequence <= w.arrived + 1
    case Subscribe(_, _) => true
    case Leave(i) => i < |w.clients|
    case CountQuery(i) => i < |w.clients| && w.clients[i].phase.Counting?
    case CountResume(i) => i < |w.clients| && w.clients[i].phase.Counted?
    case RowsQuery(i) => i < |w.clients| && w.clients[i].phase.Pulling?
    case RowsResume(i) => i < |w.clients| && w.clients[i].phase.Pulled?
  }

  function ViewsOf(clients: seq<Subscription>): seq<ClientView> {
    seq(|clients|, i requires 0 <= i < |clients| => clients[i].view)
  }

  /** A new subscription; one without a usable start wants everything but is not caught up. */
  function Joined(w: World, client: ClientView, lastSequence: Watermark): Subscription {
    var view := client.(watermark := lastSequence);
    var start := CatchUpStart(lastSequence);
    if start.None? then Subscription(Send(view, Subscribed(0)), CaughtUp, 0, w.log, 0)
    else Subscription(view, Counting, start.value, w.log, 0)
  }

  /** One subscription after one of its queries, or after its answer is used. */
  function Advanced(c: Subscription, log: nat): Subscription {
    match c.phase
    case Counting => c.(phase := Counted(Missed(log, c.since)))
    case Counted(missed) =>
      (match AnswerToCount(missed)
       case Resync => c.(phase := Resynced, view := Send(c.view, ResyncRequired))
       case NothingMissed => c.(phase := CaughtUp, upTo := c.since, view := Send(c.view, Subscribed(0)))
       case Pull => c.(phase := Pulling))
    case Pulling => c.(phase := Pulled(RowsAbove(log, c.since)))
    case Pulled(rows) =>
      c.(phase := CaughtUp, upTo := c.since + |rows|, view := Send(DeliverRows(c.view, rows), Subscribed(|rows|)))
    case CaughtUp => c
    case Resynced => c
  }

  /** The clients after a live event. */
  function Served(clients: seq<Subscription>, sequence: int): seq<Subscription> {
    seq(|clients|, i requires 0 <= i < |clients| =>
      clients[i].(view := LiveAt(ViewsOf(clients), i, sequence)))
  }

  function Next(w: World, s: Step): World
    requires Enabled(w, s)
  {
    match s
    case CommitEvent => w.(log := w.log + 1)
    case Arrive(sequence) => w.(arrived := Max(w.arrived, sequence), clients := Served(w.clients, sequence))
    case Subscribe(client, lastSequence) => w.(clients := w.clients + [Joined(w, client, lastSequence)])
    case Leave(i) => w.(clients := w.clients[..i] + w.clients[i + 1..])
    case CountQuery(i) => w.(clients := w.clients[i := Advanced(w.clients[i], w.log)])
    case CountResume(i) => w.(clients := w.clients[i := Advanced(w.clients[i], w.log)])
    case RowsQuery(i) => w.(clients := w.clients[i := Advanced(w.clients[i], w.log)])
    case RowsResume(i) => w.(clients := w.clients[i := Advanced(w.clients[i], w.log)])
  }

  // ---------------------------------------------------------------------------
  // Runs, and one client in them
  // ---------------------------------------------------------------------------

  predicate IsRun(w: World, steps: seq<Step>)
    decreases |steps|
  {
    steps == [] || (Enabled(w, steps[0]) && IsRun(Next(w, steps[0]), steps[1..]))
  }

  function Final(w: World, steps: seq<Step>): World
    requires IsRun(w, steps)
    decreases |steps|
  {
    if steps == [] then w else Final(Next(w, steps[0]), steps[1..])
  }

  /** Where the client at index `i` is after a step of others. */
  function IndexAfter(i: nat, s: Step): nat {
    if s.Leave? && s.index < i then i - 1 else i
  }

  predicate Stays(i: nat, steps: seq<Step>)
    decreases |steps|
  {
    steps == [] || (steps[0] != Leave(i) && Stays(IndexAfter(i, steps[0]), steps[1..]))
  }

  function FinalIndex(i: nat, steps: seq<Step>): nat
    decreases |steps|
  {
    if steps == [] then i else FinalIndex(IndexAfter(i, steps[0]), steps[1..])
  }

  ghost predicate SentBetween(v: ClientView, low: int, high: int) {
    forall s :: low < s <= high ==> Event(s) in v.sent
  }

  /** Once caught up the client was sent all it wants of what arrived; or it is told to resync. */
  ghost predicate Informed(w: World, i: nat) {
    && i < |w.clients|
    && (w.clients[i].phase.CaughtUp? ==> SentBetween(w.clients[i].view, w.clients[i].since, w.arrived))
    && (w.clients[i].phase.Resynced? ==> ResyncRequired in w.clients[i].view.sent)
  }

  // ---------------------------------------------------------------------------
  // When no event is lost
  // ---------------------------------------------------------------------------

  /** No watermark of the first `n` clients throws. */
  predicate Readable(clients: seq<Subscription>, n: nat) {
    n <= |clients| && forall i :: 0 <= i < n ==> clients[i].view.watermark.asBigInt.Some?
  }

  lemma ReachesIff(clients: seq<Subscription>, i: nat)
    requires i < |clients|
    ensures Reaches(ViewsOf(clients), i) <==> Readable(clients, i + 1)
  {
    var views := ViewsOf(clients);
    assert forall j :: 0 <= j < |views| ==> views[j].watermark == clients[j].view.watermark;
  }

  /**
   What can be checked before a subscription. Live events reach the new client if no watermark
   throws, neither its own nor one ahead of it. Where catch-up starts, the gap demands a resync,
   or live events reach the client and its watermark skips none that catch-up does not cover.
   Without a start nothing may have arrived yet.
   */
  predicate Guarded(w: World, lastSequence: Watermark) {
    var start := CatchUpStart(lastSequence);
    var reached := Readable(w.clients, |w.clients|) && lastSequence.asBigInt.Some?;
    if start.Some? then
      Missed(w.log, start.value) > RESYNC_THRESHOLD
      || (reached && lastSequence.asBigInt.value <= Max(start.value, w.log))
    else
      w.arrived == 0 && reached && lastSequence.asBigInt.value <= 0
  }

  /** What holds of a guarded client between any two steps. */
  ghost predicate Covered(w: World, c: Subscription) {
    && c.view.open && c.view.watermark.asBigInt.Some?
    && c.logAt <= w.log && c.since >= 0
    && (c.phase.Counting? || c.phase.Counted? || c.phase.Pulling? || c.phase.Pulled? ==>
          && SentBetween(c.view, Max(c.since, c.logAt), w.arrived)
          && c.view.watermark.asBigInt.value <= Max(Max(c.since, c.logAt), w.arrived))
    && (c.phase.Counted? ==> c.logAt <= c.since + c.phase.missed)
    && (c.phase.Pulling? ==> c.logAt <= c.since + MAX_CATCH_UP)
    && (c.phase.Pulled? ==>
          && c.logAt <= c.since + |c.phase.rows|
          && forall k :: 0 <= k < |c.phase.rows| ==> c.phase.rows[k] == c.since + 1 + k)
    && (c.phase.CaughtUp? ==>
          && SentBetween(c.view, c.since, Max(w.arrived, c.upTo))
          && c.view.watermark.asBigInt.value <= Max(c.since, Max(w.arrived, c.upTo)))
    && (c.phase.Resynced? ==> ResyncRequired in c.view.sent)
  }

  /** What holds of a client whose gap was too large from the start. */
  ghost predicate BoundToResync(w: World, c: Subscription) {
    && c.view.open
    && Missed(w.log, c.since) > RESYNC_THRESHOLD
    && (c.phase.Counting? || (c.phase.Counted? && c.phase.missed > RESYNC_THRESHOLD)
        || (c.phase.Resynced? && ResyncRequired in c.view.sent))
  }

  ghost predicate Safe(w: World, i: nat) {
    && w.arrived <= w.log && i < |w.clients|
    && (BoundToResync(w, w.clients[i]) || (Covered(w, w.clients[i]) && Readable(w.clients, i + 1)))
  }

  lemma DeliveredRows(v: ClientView, rows: seq<int>)
    requires v.open
    ensures var r := DeliverRows(v, rows);
            && r.open
            && (forall f :: f in v.sent ==> f in r.sent)
            && (forall f :: f in r.sent ==> f in v.sent || exists i :: 0 <= i < |rows| && f == Event(rows[i]))
            && (forall i :: 0 <= i < |rows| ==> Event(rows[i]) in r.sent)
            && r.watermark == if rows == [] then v.watermark else Numeral(rows[|rows| - 1])
  {
    DeliveredInOrder(v, rows);
    assert forall i :: 0 <= i < |rows| ==> Events(rows)[i] == Event(rows[i]);
  }

  /** A subscription starts safe exactly where it is guarded. */
  lemma JoinedIsSafe(w: World, client: ClientView, lastSequence: Watermark)
    requires w.arrived <= w.log && client.open && Guarded(w, lastSequence)
    ensures Safe(Next(w, Subscribe(client, lastSequence)), |w.clients|)
  {
    var w' := Next(w, Subscribe(client, lastSequence));
    assert forall j :: 0 <= j < |w.clients| ==> w'.clients[j] == w.clients[j];
  }

  lemma ServedIsCovered(w: World, c: Subscription, sequence: int)
    requires w.arrived <= w.log && Covered(w, c) && Enabled(w, Arrive(sequence))
    ensures Covered(Next(w, Arrive(sequence)), c.(view := Live(c.view, sequence)))
  {
    assert forall f :: f in c.view.sent ==> f in Live(c.view, sequence).sent;
  }

  lemma RowsAreCovered(w: World, c: Subscription)
    requires w.arrived <= w.log && Covered(w, c) && c.phase.Pulled?
    ensures Covered(w, Advanced(c, w.log))
  {
    var c' := Advanced(c, w.log);
    var rows := c.phase.rows;
    DeliveredRows(c.view, rows);
    forall s | c.since < s <= Max(w.arrived, c.since + |rows|)
      ensures Event(s) in c'.view.sent
    {
      if s <= c.since + |rows| {
        assert rows[s - c.since - 1] == s;
      }
    }
  }

  lemma AdvancedIsCovered(w: World, c: Subscription)
    requires w.arrived <= w.log && Covered(w, c)
    ensures Covered(w, Advanced(c, w.log))
  {
    if c.phase.Pulled? {
      RowsAreCovered(w, c);
    } else {
      assert forall f, g :: f in c.view.sent ==> f in Send(c.view, g).sent;
    }
  }

  /** A watermark that can be read stays so. */
  lemma StaysReadable(c: Subscription, log: nat)
    requires c.view.watermark.asBigInt.Some?
    ensures Advanced(c, log).view.watermark.asBigInt.Some?
  {
    if c.phase.Pulled? {
      ReadableAfterRows(c.view, c.phase.rows);
    }
  }

  lemma {:induction false} ReadableAfterRows(v: ClientView, rows: seq<int>)
    requires v.watermark.asBigInt.Some?
    ensures DeliverRows(v, rows).watermark.asBigInt.Some?
    decreases |rows|
  {
    if rows != [] {
      ReadableAfterRows(v, rows[..|rows| - 1]);
    }
  }

  /** A live event changes what it reaches, and nothing after a watermark that throws. */
  lemma ServedAt(clients: seq<Subscription>, i: nat, sequence: int)
    requires i < |clients|
    ensures Served(clients, sequence)[i] ==
            if Readable(clients, i + 1) then clients[i].(view := Live(clients[i].view, sequence)) else clients[i]
  {
    ReachesIff(clients, i);
  }

  lemma ServedStaysReadable(clients: seq<Subscription>, n: nat, sequence: int)
    requires n <= |clients|
    ensures Readable(Served(clients, sequence), n) <==> Readable(clients, n)
  {
    forall i | 0 <= i < n
      ensures Served(clients, sequence)[i].view.watermark.asBigInt.Some? <==> clients[i].view.watermark.asBigInt.Some?
    {
      ServedAt(clients, i, sequence);
    }
  }

  /**
   An event without a number changes nothing, if and only if no watermark that it reaches is
   negative: it is skipped at every other.
   */
  lemma UnnumberedIsSkippedIff(w: World)
    ensures Enabled(w, Arrive(0))
    ensures Next(w, Arrive(0)) == w <==>
            forall i :: 0 <= i < |w.clients| && Readable(w.clients, i + 1) ==>
                          w.clients[i].view.watermark.asBigInt.value >= 0
  {
    var w' := Next(w, Arrive(0));
    forall i | 0 <= i < |w.clients|
      ensures w'.clients[i] == w.clients[i] <==>
              (Readable(w.clients, i + 1) ==> w.clients[i].view.watermark.asBigInt.value >= 0)
    {
      ServedAt(w.clients, i, 0);
    }
  }

  lemma ArriveIsSafe(w: World, i: nat, sequence: int)
    requires Safe(w, i) && Enabled(w, Arrive(sequence))
    ensures Safe(Next(w, Arrive(sequence)), i)
  {
    var c := w.clients[i];
    ServedAt(w.clients, i, sequence);
    ServedStaysReadable(w.clients, i + 1, sequence);
    if BoundToResync(w, c) {
      assert forall f :: f in c.view.sent ==> f in Next(w, Arrive(sequence)).clients[i].view.sent;
    } else {
      ServedIsCovered(w, c, sequence);
    }
  }

  /** A world with one client replaced. */
  function Replaced(w: World, j: nat, c: Subscription): World
    requires j < |w.clients|
  {
    w.(clients := w.clients[j := c])
  }

  lemma AdvanceIsSafe(w: World, i: nat, j: nat)
    requires Safe(w, i) && j < |w.clients|
    ensures Safe(Replaced(w, j, Advanced(w.clients[j], w.log)), i)
  {
    var c := w.clients[j];
    if c.view.watermark.asBigInt.Some? {
      StaysReadable(c, w.log);
    }
    if i == j {
      if Covered(w, c) {
        AdvancedIsCovered(w, c);
      }
    }
  }

  lemma LeaveIsSafe(w: World, i: nat, j: nat)
    requires Safe(w, i) && j < |w.clients| && j != i
    ensures Safe(Next(w, Leave(j)), IndexAfter(i, Leave(j)))
  {
    var w' := Next(w, Leave(j));
    assert forall k :: 0 <= k < |w'.clients| ==> w'.clients[k] == w.clients[if k < j then k else k + 1];
  }

  lemma StepIsSafe(w: World, i: nat, s: Step)
    requires Safe(w, i) && Enabled(w, s) && s != Leave(i)
    ensures Safe(Next(w, s), IndexAfter(i, s))
  {
    match s
    case CommitEvent =>
    case Arrive(sequence) => ArriveIsSafe(w, i, sequence);
    case Subscribe(_, _) => assert forall j :: 0 <= j <= i ==> Next(w, s).clients[j] == w.clients[j];
    case Leave(j) => LeaveIsSafe(w, i, j);
    case CountQuery(j) => AdvanceIsSafe(w, i, j);
    case CountResume(j) => AdvanceIsSafe(w, i, j);
    case RowsQuery(j) => AdvanceIsSafe(w, i, j);
    case RowsResume(j) => AdvanceIsSafe(w, i, j);
  }

  lemma {:induction false} RunIsSafe(w: World, i: nat, steps: seq<Step>)
    requires Safe(w, i) && IsRun(w, steps) && Stays(i, steps)
    ensures Safe(Final(w, steps), FinalIndex(i, steps))
    decreases |steps|
  {
    if steps != [] {
      StepIsSafe(w, i, steps[0]);
      RunIsSafe(Next(w, steps[0]), IndexAfter(i, steps[0]), steps[1..]);
    }
  }

  /**
   No event is lost at subscribe: whatever commits, publications and re-publications happen and
   whatever other clients do, a guarded client that is caught up has been sent every event above
   its last sequence that arrived, so every event once all have arrived; or it is told to resync.
   */
  lemma NoEventLost(w: World, client: ClientView, lastSequence: Watermark, steps: seq<Step>)
    requires w.arrived <= w.log && client.open && Guarded(w, lastSequence)
    requires IsRun(Next(w, Subscribe(client, lastSequence)), steps) && Stays(|w.clients|, steps)
    ensures Informed(Final(Next(w, Subscribe(client, lastSequence)), steps), FinalIndex(|w.clients|, steps))
  {
    JoinedIsSafe(w, client, lastSequence);
    RunIsSafe(Next(w, Subscribe(client, lastSequence)), |w.clients|, steps);
  }

  // ---------------------------------------------------------------------------
  // What a client is sent, frame by frame
  // ---------------------------------------------------------------------------

  /** A live event adds one frame or none to what a client was sent. */
  lemma ArrivalFrames(w: World, i: nat, sequence: int)
    requires i < |w.clients| && Enabled(w, Arrive(sequence))
    ensures var v := w.clients[i].view;
            var sends := v.open && Readable(w.clients, i + 1) && sequence > v.watermark.asBigInt.value;
            Next(w, Arrive(sequence)).clients[i].view.sent == v.sent + if sends then [Event(sequence)] else []
  {
    ServedAt(w.clients, i, sequence);
  }

  /** The client at `i` does not use its rows in these steps. */
  predicate Waits(i: nat, steps: seq<Step>)
    decreases |steps|
  {
    steps == [] || (steps[0] != RowsResume(i) && Waits(IndexAfter(i, steps[0]), steps[1..]))
  }

  lemma WaitingStep(w: World, i: nat, s: Step)
    requires i < |w.clients| && w.clients[i].phase.Pulled? && Enabled(w, s) && s != Leave(i) && s != RowsResume(i)
    ensures var j := IndexAfter(i, s);
            var w' := Next(w, s);
            && j < |w'.clients| && w'.clients[j].phase == w.clients[i].phase
            && w'.clients[j].view.open == w.clients[i].view.open
  {
    if s.Arrive? {
      ServedAt(w.clients, i, s.sequence);
    }
  }

  lemma {:induction false} WaitingRun(w: World, i: nat, steps: seq<Step>)
    requires i < |w.clients| && w.clients[i].phase.Pulled?
    requires IsRun(w, steps) && Stays(i, steps) && Waits(i, steps)
    ensures var j := FinalIndex(i, steps);
            var end := Final(w, steps);
            && j < |end.clients| && end.clients[j].phase == w.clients[i].phase
            && end.clients[j].view.open == w.clients[i].view.open
    decreases |steps|
  {
    if steps != [] {
      WaitingStep(w, i, steps[0]);
      WaitingRun(Next(w, steps[0]), IndexAfter(i, steps[0]), steps[1..]);
    }
  }

  /** The numbers after `since`, in ascending order. */
  function NumbersAfter(since: int, n: nat): seq<int> {
    seq(n, k => since + 1 + k)
  }

  /**
   What one catch-up adds, whatever happens between its query and its use: the events after the
   last sequence that were in the log at the query, at most 500, in ascending order and each
   once, and then the acknowledgement with their number.
   */
  lemma CatchUpFrames(w: World, i: nat, steps: seq<Step>)
    requires i < |w.clients| && w.clients[i].phase.Pulling? && w.clients[i].view.open
    requires IsRun(Next(w, RowsQuery(i)), steps) && Stays(i, steps) && Waits(i, steps)
    ensures var waiting := Final(Next(w, RowsQuery(i)), steps);
            var j := FinalIndex(i, steps);
            var n := Min(if w.log > w.clients[i].since then w.log - w.clients[i].since else 0, 500);
            && n >= 0 && Enabled(waiting, RowsResume(j)) && Ascending(NumbersAfter(w.clients[i].since, n))
            && Next(waiting, RowsResume(j)).clients[j].view.sent ==
               waiting.clients[j].view.sent + Events(NumbersAfter(w.clients[i].since, n)) + [Subscribed(n)]
  {
    var w1 := Next(w, RowsQuery(i));
    WaitingRun(w1, i, steps);
    var c := Final(w1, steps).clients[FinalIndex(i, steps)];
    DeliveredInOrder(c.view, c.phase.rows);
  }

  /** A plain number is never the reason for a loss: only a client ahead can be. */
  lemma PlainNumberIsGuarded(w: World, n: nat)
    requires Readable(w.clients, |w.clients|)
    ensures Guarded(w, Numeral(n))
  {
  }

  // ---------------------------------------------------------------------------
  // When an event is lost
  // ---------------------------------------------------------------------------

  ghost predicate Deaf(w: World, i: nat, last: int)
    requires i < |w.clients|
  {
    !Readable(w.clients, i + 1) || w.clients[i].view.watermark.asBigInt.value >= last
  }

  /** Deafness depends only on the watermarks up to the client's. */
  lemma StaysDeaf(w: World, w': World, i: nat, last: int)
    requires i < |w.clients| <= |w'.clients| && Deaf(w, i, last)
    requires forall j :: 0 <= j <= i ==> w'.clients[j].view.watermark == w.clients[j].view.watermark
    ensures Deaf(w', i, last)
  {
  }

  lemma DeafStep(w: World, i: nat, last: int, sequence: int)
    requires i < |w.clients| && Deaf(w, i, last) && sequence <= last && Enabled(w, Arrive(sequence))
    ensures var w' := Next(w, Arrive(sequence)); w'.clients[i] == w.clients[i] && Deaf(w', i, last)
  {
    ServedAt(w.clients, i, sequence);
    ServedStaysReadable(w.clients, i + 1, sequence);
  }

  /** The steps lead from one world to another, and the client at `i` to index `j`. */
  predicate Leads(w: World, i: nat, steps: seq<Step>, end: World, j: nat) {
    IsRun(w, steps) && Stays(i, steps) && Final(w, steps) == end && FinalIndex(i, steps) == j
  }

  lemma OneStep(w: World, i: nat, s: Step)
    requires Enabled(w, s) && s != Leave(i)
    ensures Leads(w, i, [s], Next(w, s), IndexAfter(i, s))
  {
    assert [s][1..] == [];
  }

  lemma {:induction false} LeadsOn(w: World, i: nat, a: seq<Step>, w1: World, i1: nat, b: seq<Step>, w2: World, i2: nat)
    requires Leads(w, i, a, w1, i1) && Leads(w1, i1, b, w2, i2)
    ensures Leads(w, i, a + b, w2, i2)
    decreases |a|
  {
    if a == [] {
      assert a + b == b;
    } else {
      assert (a + b)[1..] == a[1..] + b;
      LeadsOn(Next(w, a[0]), IndexAfter(i, a[0]), a[1..], w1, i1, b, w2, i2);
    }
  }

  /** Commits and publishes events up to `last`; a deaf client gets none of them. */
  lemma {:induction false} PublishUpTo(w: World, i: nat, last: nat) returns (steps: seq<Step>, end: World)
    requires w.arrived <= w.log && i < |w.clients| && Deaf(w, i, last)
    ensures Leads(w, i, steps, end, i)
    ensures i < |end.clients| && end.clients[i] == w.clients[i] && end.arrived == Max(w.arrived, last) <= end.log
    decreases last - w.arrived, last - w.log
  {
    if w.arrived >= last {
      steps, end := [], w;
    } else {
      var s := if w.log > w.arrived then Arrive(w.arrived + 1) else CommitEvent;
      if s.Arrive? {
        DeafStep(w, i, last, w.arrived + 1);
      }
      var rest, e := PublishUpTo(Next(w, s), i, last);
      steps, end := [s] + rest, e;
      assert steps[1..] == rest;
    }
  }

  predicate FreshConnection(client: ClientView) {
    client.open && client.sent == []
  }

  /** Only events up to `high` were sent. */
  ghost predicate SentUpTo(v: ClientView, high: int) {
    forall s :: Event(s) in v.sent ==> s <= high
  }

  /** A caught-up client that hears nothing up to `last` misses it once it is published. */
  lemma CaughtUpMisses(w: World, i: nat, last: nat) returns (steps: seq<Step>, end: World)
    requires w.arrived <= w.log && i < |w.clients| && Deaf(w, i, last)
    requires w.clients[i].phase.CaughtUp? && w.clients[i].since < last && SentUpTo(w.clients[i].view, last - 1)
    ensures Leads(w, i, steps, end, i) && !Informed(end, i)
  {
    steps, end := PublishUpTo(w, i, last);
    assert Event(last) !in end.clients[i].view.sent;
  }

  /** The same while its rows are on their way: they were read before the event was committed. */
  lemma PulledMisses(w: World, i: nat, last: nat) returns (steps: seq<Step>, end: World)
    requires w.arrived <= w.log && i < |w.clients| && Deaf(w, i, last) && w.clients[i].view.open
    requires w.clients[i].phase.Pulled? && w.clients[i].since < last && SentUpTo(w.clients[i].view, last - 1)
    requires forall k :: 0 <= k < |w.clients[i].phase.rows| ==> w.clients[i].phase.rows[k] < last
    ensures Leads(w, i, steps, end, i) && !Informed(end, i)
  {
    var published, w1 := PublishUpTo(w, i, last);
    end := Next(w1, RowsResume(i));
    steps := published + [RowsResume(i)];
    OneStep(w1, i, RowsResume(i));
    LeadsOn(w, i, published, w1, i, [RowsResume(i)], end, i);
    DeliveredRows(w.clients[i].view, w.clients[i].phase.rows);
    assert Event(last) !in end.clients[i].view.sent;
  }

  /** A catch-up that neither resyncs nor makes up for unheard events. */
  lemma StartedMisses(w: World, i: nat, last: nat) returns (steps: seq<Step>, end: World)
    requires w.arrived <= w.log && i < |w.clients| && Deaf(w, i, last) && w.clients[i].view.open
    requires w.clients[i].phase.Counting? && w.clients[i].view.sent == []
    requires Missed(w.log, w.clients[i].since) <= RESYNC_THRESHOLD
    requires w.clients[i].since >= 0 && last == Max(w.clients[i].since, w.log) + 1
    ensures Leads(w, i, steps, end, i) && !Informed(end, i)
  {
    var w1 := Next(w, CountQuery(i));
    var w2 := Next(w1, CountResume(i));
    var before, ready := [CountQuery(i)] + [CountResume(i)], w2;
    OneStep(w, i, CountQuery(i));
    OneStep(w1, i, CountResume(i));
    LeadsOn(w, i, [CountQuery(i)], w1, i, [CountResume(i)], w2, i);
    StaysDeaf(w, w2, i, last);
    var after: seq<Step>;
    if w2.clients[i].phase.CaughtUp? {
      after, end := CaughtUpMisses(w2, i, last);
    } else {
      ready := Next(w2, RowsQuery(i));
      OneStep(w2, i, RowsQuery(i));
      LeadsOn(w, i, before, w2, i, [RowsQuery(i)], ready, i);
      StaysDeaf(w2, ready, i, last);
      before := before + [RowsQuery(i)];
      after, end := PulledMisses(ready, i, last);
    }
    LeadsOn(w, i, before, ready, i, after, end, i);
    steps := before + after;
  }

  /** An unguarded new connection can be caught up and still lack an event that has arrived. */
  lemma EventLost(w: World, client: ClientView, lastSequence: Watermark) returns (steps: seq<Step>, end: World)
    requires w.arrived <= w.log && FreshConnection(client) && !Guarded(w, lastSequence)
    ensures Leads(Next(w, Subscribe(client, lastSequence)), |w.clients|, steps, end, |w.clients|)
    ensures !Informed(end, |w.clients|)
  {
    var i := |w.clients|;
    var w1 := Next(w, Subscribe(client, lastSequence));
    assert forall j :: 0 <= j < i ==> w1.clients[j] == w.clients[j];
    if w1.clients[i].phase.CaughtUp? {
      if w.arrived >= 1 {
        steps, end := [], w1;
        assert Event(1) !in w1.clients[i].view.sent;
      } else {
        steps, end := CaughtUpMisses(w1, i, 1);
      }
    } else {
      steps, end := StartedMisses(w1, i, Max(w1.clients[i].since, w.log) + 1);
    }
  }

  /**
   The exact condition: every run in which a new connection stays subscribed informs it of all
   events if and only if the subscription is guarded.
   */
  lemma NoEventLostIff(w: World, client: ClientView, lastSequence: Watermark)
    requires w.arrived <= w.log && FreshConnection(client)
    ensures var w1 := Next(w, Subscribe(client, lastSequence));
            Guarded(w, lastSequence) <==>
            forall steps :: IsRun(w1, steps) && Stays(|w.clients|, steps) ==>
                              Informed(Final(w1, steps), FinalIndex(|w.clients|, steps))
  {
    var w1 := Next(w, Subscribe(client, lastSequence));
    if Guarded(w, lastSequence) {
      forall steps | IsRun(w1, steps) && Stays(|w.clients|, steps)
        ensures Informed(Final(w1, steps), FinalIndex(|w.clients|, steps))
      {
        NoEventLost(w, client, lastSequence, steps);
      }
    } else {
      var steps, end := EventLost(w, client, lastSequence);
      assert !Informed(Final(w1, steps), FinalIndex(|w.clients|, steps));
    }
  }

  // ---------------------------------------------------------------------------
  // Inputs on which an event is lost
  // ---------------------------------------------------------------------------

  const NEW_CONNECTION: ClientView := ClientView(true, Numeral(0), [])

  /** "-1" on a board with one event: the client is told it is caught up and was sent nothing. */
  lemma NegativeStartLosesEvent()
    ensures var end := Next(World(1, 1, []), Subscribe(NEW_CONNECTION, Numeral(-1)));
            && end.clients[0].phase.CaughtUp? && end.clients[0].view.sent == [Subscribed(0)]
            && !Informed(end, 0)
  {
    var end := Next(World(1, 1, []), Subscribe(NEW_CONNECTION, Numeral(-1)));
    assert Event(1) !in end.clients[0].view.sent;
  }

  /** A client at "0" is caught up on an empty board; then the first event is published. */
  function FirstEvent(i: nat): seq<Step> {
    [CountQuery(i), CountResume(i), CommitEvent, Arrive(1)]
  }

  lemma FirstEventMissed(w: World, i: nat)
    requires w.log == 0 && w.arrived == 0 && i < |w.clients|
    requires w.clients[i].phase.Counting? && w.clients[i].since == 0 && FreshConnection(w.clients[i].view)
    requires Deaf(w, i, 1)
    ensures var steps := FirstEvent(i);
            IsRun(w, steps) && Stays(i, steps) && FinalIndex(i, steps) == i && !Informed(Final(w, steps), i)
  {
    var w1 := Next(w, CountQuery(i));
    var w2 := Next(w1, CountResume(i));
    var w3 := Next(w2, CommitEvent);
    var w4 := Next(w3, Arrive(1));
    StaysDeaf(w, w3, i, 1);
    DeafStep(w3, i, 1, 1);
    assert Event(1) !in w4.clients[i].view.sent;
    OneStep(w, i, CountQuery(i));
    OneStep(w1, i, CountResume(i));
    OneStep(w2, i, CommitEvent);
    OneStep(w3, i, Arrive(1));
    LeadsOn(w, i, [CountQuery(i)], w1, i, [CountResume(i)], w2, i);
    LeadsOn(w, i, [CountQuery(i)] + [CountResume(i)], w2, i, [CommitEvent], w3, i);
    LeadsOn(w, i, [CountQuery(i)] + [CountResume(i)] + [CommitEvent], w3, i, [Arrive(1)], w4, i);
    assert FirstEvent(i) == [CountQuery(i)] + [CountResume(i)] + [CommitEvent] + [Arrive(1)];
  }

  /** "0x" is 0 to `parseInt` and throws in `BigInt`; "0x10" is 0 and 16. Both miss event 1. */
  lemma UnreadableStartLosesEvent(lastSequence: Watermark)
    requires lastSequence == Watermark(None, Some(0)) || lastSequence == Watermark(Some(16), Some(0))
    ensures var w := Next(World(0, 0, []), Subscribe(NEW_CONNECTION, lastSequence));
            IsRun(w, FirstEvent(0)) && !Informed(Final(w, FirstEvent(0)), 0)
  {
    FirstEventMissed(Next(World(0, 0, []), Subscribe(NEW_CONNECTION, lastSequence)), 0);
  }

  /** So does a client at "0" that joins behind one whose string is no number. */
  lemma UnreadableAheadLosesEvent()
    ensures var ahead := Next(World(0, 0, []), Subscribe(NEW_CONNECTION, Watermark(None, None)));
            var w := Next(ahead, Subscribe(NEW_CONNECTION, Numeral(0)));
            IsRun(w, FirstEvent(1)) && !Informed(Final(w, FirstEvent(1)), 1)
  {
    var ahead := Next(World(0, 0, []), Subscribe(NEW_CONNECTION, Watermark(None, None)));
    var w := Next(ahead, Subscribe(NEW_CONNECTION, Numeral(0)));
    assert w.clients[0].view.watermark.asBigInt.None?;
    FirstEventMissed(w, 1);
  }

  // ---------------------------------------------------------------------------
  // The log of a board
  // ---------------------------------------------------------------------------

  /** The sequences above `since`, as the catch-up queries read them. */
  function SequencesAbove(events: seq<OutboxEvent>, since: int): seq<int>
    decreases |events|
  {
    if events == [] then []
    else
      var last := events[|events| - 1].sequence;
      SequencesAbove(events[..|events| - 1], since) + if last > since then [last] else []
  }

  lemma {:induction false} NumberedAbove(events: seq<OutboxEvent>, since: int)
    requires since >= 0 && forall i :: 0 <= i < |events| ==> events[i].sequence == i + 1
    ensures SequencesAbove(events, since) == seq(Missed(|events|, since), i => since + 1 + i)
    decreases |events|
  {
    if events != [] {
      NumberedAbove(events[..|events| - 1], since);
    }
  }

  /** On the gapless log that card commands write, the queries read what the model says. */
  lemma QueriesOnGaplessLog(db: Db, boardId: Id, since: int)
    requires Gapless(db) && since >= 0
    ensures LastSequence(db.sequences, boardId) >= 0
    ensures var log: nat := LastSequence(db.sequences, boardId);
            var above := SequencesAbove(BoardEvents(db.outbox, boardId), since);
            && |above| == Missed(log, since)
            && RowsAbove(log, since) == above[..Min(|above|, MAX_CATCH_UP)]
  {
    assert GaplessBoard(db.outbox, db.sequences, boardId);
    NumberedAbove(BoardEvents(db.outbox, boardId), since);
  }
}
