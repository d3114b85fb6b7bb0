/**
 The whole pipeline of one board: card commands append events, one worker publishes them, and
 the WebSocket server hands them to its clients.
 */
module Deliveries {
  import opened Wrappers
  import opened BoardModel
  import opened BoardRuns
  import O = OutboxWorkers
  import P = PublishOrders
  import S = WsServers
  import W = WsRuns

  // ---------------------------------------------------------------------------
  // Numbers of the outbox rows
  // ---------------------------------------------------------------------------

  /** A numbered event of the board. */
  predicate OnBoard(rows: seq<O.Row>, x: nat, boardId: Id) {
    x < |rows| && rows[x].boardId == boardId && rows[x].sequence >= 1
  }

  ghost predicate HasNumber(rows: seq<O.Row>, boardId: Id, s: int) {
    exists y: nat :: OnBoard(rows, y, boardId) && rows[y].sequence == s
  }

  /** The numbered rows of a board have the numbers 1 to `n` without repetitions. */
  ghost predicate Numbered(rows: seq<O.Row>, boardId: Id, n: int) {
    && (forall x: nat :: OnBoard(rows, x, boardId) ==> 1 <= rows[x].sequence <= n)
    && (forall x: nat, y: nat ::
          OnBoard(rows, x, boardId) && OnBoard(rows, y, boardId) && rows[x].sequence == rows[y].sequence ==> x == y)
    && (forall s :: 1 <= s <= n ==> HasNumber(rows, boardId, s))
  }

  /** The rows that have a number, in the order in which they were appended. */
  function Sequenced(rows: seq<O.Row>): seq<O.Row>
    decreases |rows|
  {
    if rows == [] then []
    else
      var before, last := Sequenced(rows[..|rows| - 1]), rows[|rows| - 1];
      if last.sequence >= 1 then before + [last] else before
  }

  /** The numbered rows are those that the commands have appended. */
  predicate Matches(rows: seq<O.Row>, events: seq<OutboxEvent>) {
    && |Sequenced(rows)| == |events|
    && forall x :: 0 <= x < |events| ==>
         && Sequenced(rows)[x].boardId == events[x].aggregateId
         && Sequenced(rows)[x].sequence == events[x].sequence
  }

  lemma NumberedAppend(rows: seq<O.Row>, row: O.Row, boardId: Id, n: int)
    requires Numbered(rows, boardId, n) && n >= 0
    requires row.boardId == boardId && row.sequence >= 1 ==> row.sequence == n + 1
    ensures Numbered(rows + [row], boardId, if row.boardId == boardId && row.sequence >= 1 then n + 1 else n)
  {
    var rows' := rows + [row];
    assert forall x: nat :: OnBoard(rows, x, boardId) ==> OnBoard(rows', x, boardId) && rows'[x] == rows[x];
    forall s | 1 <= s <= n
      ensures HasNumber(rows', boardId, s)
    {
      assert HasNumber(rows, boardId, s);
      var y: nat :| OnBoard(rows, y, boardId) && rows[y].sequence == s;
      assert OnBoard(rows', y, boardId) && rows'[y].sequence == s;
    }
    if row.boardId == boardId && row.sequence >= 1 {
      assert OnBoard(rows', |rows|, boardId) && rows'[|rows|].sequence == n + 1;
    }
  }

  /** A gapless board log numbers the board's rows, whatever unnumbered rows lie between them. */
  lemma {:induction false} GaplessIsNumbered(rows: seq<O.Row>, events: seq<OutboxEvent>, boardId: Id)
    requires Matches(rows, events)
    requires var log := BoardEvents(events, boardId); forall i :: 0 <= i < |log| ==> log[i].sequence == i + 1
    ensures Numbered(rows, boardId, |BoardEvents(events, boardId)|)
    decreases |rows|
  {
    if rows != [] {
      var m := |rows| - 1;
      assert rows[..m] + [rows[m]] == rows;
      if rows[m].sequence < 1 {
        GaplessIsNumbered(rows[..m], events, boardId);
        NumberedAppend(rows[..m], rows[m], boardId, |BoardEvents(events, boardId)|);
      } else {
        LastIsNumbered(rows, events, boardId);
        GaplessIsNumbered(rows[..m], events[..|events| - 1], boardId);
        NumberedAppend(rows[..m], rows[m], boardId, |BoardEvents(events[..|events| - 1], boardId)|);
      }
    }
  }

  /** The last numbered row is the last event. */
  lemma LastIsNumbered(rows: seq<O.Row>, events: seq<OutboxEvent>, boardId: Id)
    requires Matches(rows, events) && rows != [] && rows[|rows| - 1].sequence >= 1
    requires var log := BoardEvents(events, boardId); forall i :: 0 <= i < |log| ==> log[i].sequence == i + 1
    ensures events != [] && Matches(rows[..|rows| - 1], events[..|events| - 1])
    ensures var before := BoardEvents(events[..|events| - 1], boardId);
            var row := rows[|rows| - 1];
            && (forall i :: 0 <= i < |before| ==> before[i].sequence == i + 1)
            && |BoardEvents(events, boardId)| == |before| + (if row.boardId == boardId then 1 else 0)
            && (row.boardId == boardId ==> row.sequence == |before| + 1)
  {
    var n := |events| - 1;
    var before := BoardEvents(events[..n], boardId);
    assert Sequenced(rows)[n] == rows[|rows| - 1];
    AppendedEvent(events[..n], events[n], boardId);
    assert events[..n] + [events[n]] == events;
    assert forall i :: 0 <= i < |before| ==> before[i] == BoardEvents(events, boardId)[i];
    if events[n].aggregateId == boardId {
      assert BoardEvents(events, boardId)[|before|] == events[n];
    }
  }

  // ---------------------------------------------------------------------------
  // Publications as arrivals
  // ---------------------------------------------------------------------------

  /** The published events of the board are those numbered up to `n`. */
  ghost predicate ArrivedUpTo(rows: seq<O.Row>, log: seq<O.LogEntry>, boardId: Id, n: nat) {
    forall x: nat :: OnBoard(rows, x, boardId) ==> (P.IsPublished(log, x) <==> rows[x].sequence <= n)
  }

  /**
   The server's run allows the arrival of an event, as a repetition or as the next number, if
   and only if all earlier events of its board are published; and then it keeps track of what is.
   */
  lemma PublicationIsArrivalIff(rows: seq<O.Row>, log: seq<O.LogEntry>, x: nat, n: int, ws: W.World)
    requires x < |rows| && rows[x].sequence >= 1
    requires Numbered(rows, rows[x].boardId, n) && ArrivedUpTo(rows, log, rows[x].boardId, ws.arrived)
    requires ws.arrived <= ws.log == n
    ensures var arrival := W.Arrive(rows[x].sequence);
            && (W.Enabled(ws, arrival) <==> forall y: nat :: P.Precedes(rows, y, x) ==> P.IsPublished(log, y))
            && (W.Enabled(ws, arrival) ==>
                  forall log' :: (forall y: nat :: P.IsPublished(log', y) <==> P.IsPublished(log, y) || y == x) ==>
                                   ArrivedUpTo(rows, log', rows[x].boardId, W.Next(ws, arrival).arrived))
  {
    var boardId := rows[x].boardId;
    assert OnBoard(rows, x, boardId);
    assert rows[x].sequence > ws.arrived + 1 ==> HasNumber(rows, boardId, ws.arrived + 1);
    assert forall y: nat :: OnBoard(rows, y, boardId) && rows[y].sequence < rows[x].sequence <==>
           P.Precedes(rows, y, x);
  }

  // ---------------------------------------------------------------------------
  // The pipeline
  // ---------------------------------------------------------------------------

  /** The board that the server's state is about, and the settings of its one worker. */
  datatype Config = Config(boardId: Id, worker: O.WorkerId, maxRetries: int, batchSize: nat)

  datatype Pipeline = Pipeline(db: Db, outbox: O.World, server: W.World)

  /** `Announce` is any other writer of the outbox, with the next number of the board or without. */
  datatype Step =
    | Execute(command: Command)
    | Announce(boardId: Id, eventType: string, numbered: bool)
    | Work(work: O.Step)
    | Serve(serve: W.Step)

  function EventType(payload: Payload): string {
    match payload
    case CardCreated(_, _, _, _) => "card.created"
    case CardMoved(_, _, _, _) => "card.moved"
    case CardUpdated(_, _, _, _) => "card.updated"
    case CardDeleted(_, _) => "card.deleted"
  }

  /** The outbox row of a command that succeeds. */
  ghost function RowOf(db: Db, c: Command): O.Row
    requires Decide(db, c).Write?
  {
    var d := Decide(db, c);
    O.Row(d.boardId, LastSequence(db.sequences, d.boardId) + 1, EventType(d.payload), false, 0)
  }

  ghost predicate Appends(db: Db, c: Command) {
    Succeeds(db, c) && Decide(db, c).Write?
  }

  /** Redis hands a published event to the server at once; no publish fails. */
  ghost predicate Enabled(g: Config, p: Pipeline, s: Step) {
    match s
    case Execute(_) => true
    case Announce(_, _, _) => true
    case Work(work) =>
      && !work.Append? && P.OneWorker(p.outbox, g.worker, work) && P.PublishSucceeds(work)
      && O.WellLocked(p.outbox) && O.Enabled(p.outbox, work, g.maxRetries, g.batchSize)
    case Serve(serve) => !serve.CommitEvent? && !serve.Arrive? && W.Enabled(p.server, serve)
  }

  /** The row that an attempt publishes. */
  function Attempted(outbox: O.World, work: O.Step): O.EventId
    requires work.Try? && work.worker in outbox.open
    requires |outbox.open[work.worker].attempts| < |outbox.open[work.worker].claimed|
  {
    outbox.open[work.worker].claimed[|outbox.open[work.worker].attempts|]
  }

  /** The row that a step appends, if it does. */
  ghost function Appended(p: Pipeline, s: Step): Option<O.Row> {
    match s
    case Execute(c) => if Appends(p.db, c) then Some(RowOf(p.db, c)) else None
    case Announce(boardId, eventType, numbered) =>
      var sequence := if numbered then LastSequence(p.db.sequences, boardId) + 1 else 0;
      Some(O.Row(boardId, sequence, eventType, false, 0))
    case Work(_) => None
    case Serve(_) => None
  }

  /** What a step of the pipeline is to the server. */
  ghost function ServerSteps(g: Config, p: Pipeline, s: Step): seq<W.Step>
    requires Enabled(g, p, s)
  {
    match s
    case Execute(_) => CommitOf(g, Appended(p, s))
    case Announce(_, _, _) => CommitOf(g, Appended(p, s))
    case Work(work) =>
      if work.Try? && p.outbox.rows[Attempted(p.outbox, work)].boardId == g.boardId
      then [W.Arrive(p.outbox.rows[Attempted(p.outbox, work)].sequence)] else []
    case Serve(serve) => [serve]
  }

  /** A new numbered row of the board extends the log that the server reads. */
  function CommitOf(g: Config, row: Option<O.Row>): seq<W.Step> {
    if row.Some? && row.value.boardId == g.boardId && row.value.sequence >= 1 then [W.CommitEvent] else []
  }

  /** The server's state after a step; an event that it is handed is served whatever its number. */
  function Handled(server: W.World, s: W.Step): W.World
    requires s.Arrive? || W.Enabled(server, s)
  {
    if s.Arrive? then
      server.(arrived := W.Max(server.arrived, s.sequence), clients := W.Served(server.clients, s.sequence))
    else W.Next(server, s)
  }

  function WithRow(outbox: O.World, row: Option<O.Row>): O.World {
    if row.Some? then outbox.(rows := outbox.rows + [row.value]) else outbox
  }

  ghost function Next(g: Config, p: Pipeline, s: Step): Pipeline
    requires Enabled(g, p, s)
  {
    var steps := ServerSteps(g, p, s);
    var server := if steps == [] then p.server else Handled(p.server, steps[0]);
    match s
    case Execute(c) => Pipeline(Exec(p.db, c).0, WithRow(p.outbox, Appended(p, s)), server)
    case Announce(boardId, _, numbered) =>
      var sequences := p.db.sequences[boardId := LastSequence(p.db.sequences, boardId) + 1];
      Pipeline(if numbered then p.db.(sequences := sequences) else p.db, WithRow(p.outbox, Appended(p, s)), server)
    case Work(work) => Pipeline(p.db, O.Next(p.outbox, work, g.maxRetries, g.batchSize), server)
    case Serve(_) => p.(server := server)
  }

  /** Every board's numbered rows have the numbers that its counter has given out. */
  ghost predicate AllNumbered(rows: seq<O.Row>, sequences: map<Id, int>) {
    && (forall x :: 0 <= x < |rows| ==> rows[x].sequence >= 0)
    && forall b :: LastSequence(sequences, b) >= 0 && Numbered(rows, b, LastSequence(sequences, b))
  }

  /** What holds between any two steps. */
  ghost predicate Sound(g: Config, p: Pipeline) {
    && AllNumbered(p.outbox.rows, p.db.sequences)
    && O.Safe(p.outbox, g.maxRetries) && P.Orderly(p.outbox, g.worker)
    && p.server.log == LastSequence(p.db.sequences, g.boardId) && p.server.arrived <= p.server.log
    && ArrivedUpTo(p.outbox.rows, p.outbox.log, g.boardId, p.server.arrived)
  }

  /**
   Where runs start: any database whose board logs are gapless, with its events and any
   unnumbered ones new in the outbox, and no client.
   */
  lemma StartIsSound(g: Config, db: Db, rows: seq<O.Row>)
    requires Gapless(db) && Matches(rows, db.outbox) && 1 <= g.maxRetries
    requires forall i :: 0 <= i < |rows| ==> !rows[i].processed && rows[i].retryCount == 0 && rows[i].sequence >= 0
    ensures LastSequence(db.sequences, g.boardId) >= 0
    ensures Sound(g, Pipeline(db, O.World(rows, map[], [], []), W.World(LastSequence(db.sequences, g.boardId), 0, [])))
  {
    P.FreshTableIsOrderly(rows, g.worker, g.maxRetries);
    forall b
      ensures LastSequence(db.sequences, b) >= 0 && Numbered(rows, b, LastSequence(db.sequences, b))
    {
      assert GaplessBoard(db.outbox, db.sequences, b);
      GaplessIsNumbered(rows, db.outbox, b);
    }
  }

  /** In particular an empty database with an empty outbox. */
  lemma EmptyIsSound(g: Config, db: Db)
    requires db.cards == map[] && db.outbox == [] && db.sequences == map[] && 1 <= g.maxRetries
    ensures Sound(g, Pipeline(db, O.World([], map[], [], []), W.World(0, 0, [])))
  {
    EmptyDatabase(db);
    StartIsSound(g, db, []);
  }

  /** A new row keeps the numbers of all boards. */
  lemma AppendIsNumbered(rows: seq<O.Row>, sequences: map<Id, int>, row: O.Row)
    requires AllNumbered(rows, sequences)
    requires row.sequence == 0 || row.sequence == LastSequence(sequences, row.boardId) + 1
    ensures AllNumbered(rows + [row], if row.sequence >= 1 then sequences[row.boardId := row.sequence] else sequences)
  {
    var sequences' := if row.sequence >= 1 then sequences[row.boardId := row.sequence] else sequences;
    assert LastSequence(sequences, row.boardId) >= 0;
    forall b
      ensures LastSequence(sequences', b) >= 0 && Numbered(rows + [row], b, LastSequence(sequences', b))
    {
      NumberedAppend(rows, row, b, LastSequence(sequences, b));
    }
  }

  /** The outbox side of a step that appends a row. */
  lemma AppendIsSound(g: Config, p: Pipeline, row: O.Row)
    requires 1 <= g.maxRetries && Sound(g, p) && !row.processed && row.retryCount == 0
    requires row.sequence == 0 || row.sequence == LastSequence(p.db.sequences, row.boardId) + 1
    ensures O.Safe(WithRow(p.outbox, Some(row)), g.maxRetries) && P.Orderly(WithRow(p.outbox, Some(row)), g.worker)
  {
    forall x: O.EventId | x < |p.outbox.rows| && p.outbox.rows[x].boardId == row.boardId
      ensures row.sequence != 0 ==> p.outbox.rows[x].sequence < row.sequence
    {
      assert Numbered(p.outbox.rows, row.boardId, LastSequence(p.db.sequences, row.boardId));
      assert p.outbox.rows[x].sequence >= 1 ==> OnBoard(p.outbox.rows, x, row.boardId);
    }
    O.AppendIsSafe(p.outbox, row, g.maxRetries, g.batchSize);
    P.AppendIsOrderly(p.outbox, g.worker, row, g.maxRetries, g.batchSize);
  }

  lemma AppendedNotArrived(g: Config, p: Pipeline, row: O.Row)
    requires Sound(g, p) && (row.sequence == 0 || row.sequence == LastSequence(p.db.sequences, row.boardId) + 1)
    ensures ArrivedUpTo(p.outbox.rows + [row], p.outbox.log, g.boardId, p.server.arrived)
  {
    var rows' := p.outbox.rows + [row];
    forall x: nat | OnBoard(rows', x, g.boardId)
      ensures P.IsPublished(p.outbox.log, x) <==> rows'[x].sequence <= p.server.arrived
    {
      if x < |p.outbox.rows| {
        assert OnBoard(p.outbox.rows, x, g.boardId);
      }
    }
  }

  /** A step that appends a row, with the counter that goes with it. */
  lemma RowIsSound(g: Config, p: Pipeline, s: Step, row: O.Row)
    requires 1 <= g.maxRetries && Sound(g, p) && Enabled(g, p, s) && (s.Execute? || s.Announce?)
    requires Appended(p, s) == Some(row) && !row.processed && row.retryCount == 0
    requires row.sequence == 0 || row.sequence == LastSequence(p.db.sequences, row.boardId) + 1
    requires Next(g, p, s).db.sequences ==
             if row.sequence >= 1 then p.db.sequences[row.boardId := row.sequence] else p.db.sequences
    ensures Sound(g, Next(g, p, s))
  {
    AppendIsNumbered(p.outbox.rows, p.db.sequences, row);
    AppendIsSound(g, p, row);
    AppendedNotArrived(g, p, row);
  }

  lemma ExecuteIsSound(g: Config, p: Pipeline, c: Command)
    requires 1 <= g.maxRetries && Sound(g, p)
    ensures Sound(g, Next(g, p, Execute(c)))
  {
    if Appends(p.db, c) {
      RowOfCommand(p.db, c);
      assert LastSequence(p.db.sequences, RowOf(p.db, c).boardId) >= 0;
      RowIsSound(g, p, Execute(c), RowOf(p.db, c));
    } else {
      NothingAppended(p.db, c);
    }
  }

  lemma RowOfCommand(db: Db, c: Command)
    requires Appends(db, c)
    ensures var row := RowOf(db, c);
            && row.sequence == LastSequence(db.sequences, row.boardId) + 1
            && Exec(db, c).0.sequences == db.sequences[row.boardId := row.sequence]
  {
    FirstSuccessFrame(db, c);
  }

  lemma NothingAppended(db: Db, c: Command)
    requires !Appends(db, c)
    ensures Exec(db, c).0 == db
  {
    OnlyFirstSuccessWrites(db, c);
    if Succeeds(db, c) {
      FirstSuccessFrame(db, c);
    }
  }

  lemma AnnounceIsSound(g: Config, p: Pipeline, s: Step)
    requires 1 <= g.maxRetries && Sound(g, p) && s.Announce?
    ensures Sound(g, Next(g, p, s))
  {
    assert LastSequence(p.db.sequences, s.boardId) >= 0;
    RowIsSound(g, p, s, Appended(p, s).value);
  }

  /** The server's part of a step is a run of the server on its own. */
  ghost predicate ServerRun(g: Config, p: Pipeline, s: Step)
    requires Enabled(g, p, s)
  {
    var steps := ServerSteps(g, p, s);
    W.IsRun(p.server, steps) && W.Final(p.server, steps) == Next(g, p, s).server
  }

  lemma OneServerStep(server: W.World, s: W.Step)
    requires W.Enabled(server, s)
    ensures W.IsRun(server, [s]) && W.Final(server, [s]) == W.Next(server, s) == Handled(server, s)
  {
    assert [s][1..] == [];
  }

  /** A publication of the board is an arrival that the server's run allows. */
  lemma TryIsArrival(g: Config, p: Pipeline, work: O.Step)
    requires 1 <= g.maxRetries && Sound(g, p) && Enabled(g, p, Work(work)) && work.Try?
    ensures var id := Attempted(p.outbox, work);
            var p' := Next(g, p, Work(work));
            && (p.outbox.rows[id].boardId == g.boardId ==> W.Enabled(p.server, W.Arrive(p.outbox.rows[id].sequence)))
            && p'.outbox.rows == p.outbox.rows
            && ArrivedUpTo(p'.outbox.rows, p'.outbox.log, g.boardId, p'.server.arrived)
  {
    var id := Attempted(p.outbox, work);
    var p' := Next(g, p, Work(work));
    P.PublishAdds(p.outbox, work.worker, work.attempt, g.maxRetries, g.batchSize);
    if p.outbox.rows[id].boardId == g.boardId {
      if p.outbox.rows[id].sequence >= 1 {
        assert Numbered(p.outbox.rows, g.boardId, LastSequence(p.db.sequences, g.boardId));
        forall y: nat | P.Precedes(p.outbox.rows, y, id)
          ensures P.IsPublished(p.outbox.log, y)
        {
          P.PublishedNext(p.outbox, g.worker, y);
        }
        PublicationIsArrivalIff(p.outbox.rows, p.outbox.log, id, p.server.log, p.server);
      }
    }
  }

  lemma WorkIsSound(g: Config, p: Pipeline, work: O.Step)
    requires 1 <= g.maxRetries && Sound(g, p) && Enabled(g, p, Work(work))
    ensures Sound(g, Next(g, p, Work(work)))
    ensures ServerRun(g, p, Work(work))
  {
    O.StepIsSafe(p.outbox, work, g.maxRetries, g.batchSize);
    P.StepIsOrderly(p.outbox, g.worker, work, g.maxRetries, g.batchSize);
    if work.Try? {
      TryIsArrival(g, p, work);
      var id := Attempted(p.outbox, work);
      if p.outbox.rows[id].boardId == g.boardId {
        OneServerStep(p.server, W.Arrive(p.outbox.rows[id].sequence));
      }
    } else if work.Commit? {
      P.CommitIsAccounted(p.outbox, work.worker, g.maxRetries, g.batchSize);
      SamePlacesMatch(p.outbox.rows, Next(g, p, Work(work)).outbox.rows, g, p);
    }
  }

  lemma SamePlacesMatch(rows: seq<O.Row>, rows': seq<O.Row>, g: Config, p: Pipeline)
    requires Sound(g, p) && rows == p.outbox.rows && P.SamePlaces(rows, rows')
    ensures AllNumbered(rows', p.db.sequences) && ArrivedUpTo(rows', p.outbox.log, g.boardId, p.server.arrived)
  {
    assert forall x: nat, b :: OnBoard(rows', x, b) <==> OnBoard(rows, x, b);
    forall b
      ensures Numbered(rows', b, LastSequence(p.db.sequences, b))
    {
      SamePlacesNumbered(rows, rows', b, LastSequence(p.db.sequences, b));
    }
  }

  lemma SamePlacesNumbered(rows: seq<O.Row>, rows': seq<O.Row>, boardId: Id, n: int)
    requires Numbered(rows, boardId, n) && P.SamePlaces(rows, rows')
    ensures Numbered(rows', boardId, n)
  {
    assert forall x: nat :: OnBoard(rows', x, boardId) <==> OnBoard(rows, x, boardId);
    forall s | 1 <= s <= n
      ensures HasNumber(rows', boardId, s)
    {
      assert HasNumber(rows, boardId, s);
    }
  }

  lemma StepIsSound(g: Config, p: Pipeline, s: Step)
    requires 1 <= g.maxRetries && Sound(g, p) && Enabled(g, p, s)
    ensures Sound(g, Next(g, p, s)) && ServerRun(g, p, s)
  {
    match s
    case Execute(c) =>
      ExecuteIsSound(g, p, c);
      OneServerStep(p.server, W.CommitEvent);
    case Announce(_, _, _) =>
      AnnounceIsSound(g, p, s);
      OneServerStep(p.server, W.CommitEvent);
    case Work(work) => WorkIsSound(g, p, work);
    case Serve(serve) => OneServerStep(p.server, serve);
  }

  // ---------------------------------------------------------------------------
  // Runs
  // ---------------------------------------------------------------------------

  ghost predicate IsRun(g: Config, p: Pipeline, steps: seq<Step>)
    decreases |steps|
  {
    steps == [] || (Enabled(g, p, steps[0]) && IsRun(g, Next(g, p, steps[0]), steps[1..]))
  }

  ghost function Final(g: Config, p: Pipeline, steps: seq<Step>): Pipeline
    requires IsRun(g, p, steps)
    decreases |steps|
  {
    if steps == [] then p else Final(g, Next(g, p, steps[0]), steps[1..])
  }

  /** What a run of the pipeline is to the server. */
  ghost function ServerView(g: Config, p: Pipeline, steps: seq<Step>): seq<W.Step>
    requires IsRun(g, p, steps)
    decreases |steps|
  {
    if steps == [] then [] else ServerSteps(g, p, steps[0]) + ServerView(g, Next(g, p, steps[0]), steps[1..])
  }

  lemma {:induction false} ServerRunsOn(w: W.World, a: seq<W.Step>, b: seq<W.Step>)
    requires W.IsRun(w, a) && W.IsRun(W.Final(w, a), b)
    ensures W.IsRun(w, a + b) && W.Final(w, a + b) == W.Final(W.Final(w, a), b)
    decreases |a|
  {
    if a == [] {
      assert a + b == b;
    } else {
      assert (a + b)[1..] == a[1..] + b;
      ServerRunsOn(W.Next(w, a[0]), a[1..], b);
    }
  }

  /** Every run of the pipeline keeps its parts together, and is a run of the server. */
  lemma {:induction false} EveryRunIsSound(g: Config, p: Pipeline, steps: seq<Step>)
    requires 1 <= g.maxRetries && Sound(g, p) && IsRun(g, p, steps)
    ensures Sound(g, Final(g, p, steps))
    ensures W.IsRun(p.server, ServerView(g, p, steps))
    ensures W.Final(p.server, ServerView(g, p, steps)) == Final(g, p, steps).server
    decreases |steps|
  {
    if steps != [] {
      var p1 := Next(g, p, steps[0]);
      StepIsSound(g, p, steps[0]);
      EveryRunIsSound(g, p1, steps[1..]);
      ServerRunsOn(p.server, ServerSteps(g, p, steps[0]), ServerView(g, p1, steps[1..]));
    }
  }

  /** All numbered rows of the board are processed. */
  ghost predicate Drained(g: Config, p: Pipeline) {
    forall x: nat :: OnBoard(p.outbox.rows, x, g.boardId) ==> p.outbox.rows[x].processed
  }

  lemma DrainedHasArrived(g: Config, p: Pipeline)
    requires Sound(g, p) && Drained(g, p)
    ensures p.server.arrived == p.server.log
  {
    assert Numbered(p.outbox.rows, g.boardId, LastSequence(p.db.sequences, g.boardId));
    if p.server.log >= 1 {
      assert HasNumber(p.outbox.rows, g.boardId, p.server.log);
      var x: nat :| OnBoard(p.outbox.rows, x, g.boardId) && p.outbox.rows[x].sequence == p.server.log;
      assert P.IsPublished(p.outbox.log, x);
    }
  }

  /**
   From command to client: in every run of card commands, other writers of the outbox, one worker
   whose publishes do not fail, and a server with any clients, a guarded client that stays is told
   to resync, or once caught up has been sent every published event above its last sequence. When
   the outbox of the board is drained these are all events numbered for it.
   */
  lemma EveryEventIsDelivered(g: Config, p: Pipeline, client: S.ClientView, lastSequence: S.Watermark, steps: seq<Step>)
    requires 1 <= g.maxRetries && Sound(g, p) && client.open && W.Guarded(p.server, lastSequence)
    requires var p1 := Next(g, p, Serve(W.Subscribe(client, lastSequence)));
             IsRun(g, p1, steps) && W.Stays(|p.server.clients|, ServerView(g, p1, steps))
    ensures var p1 := Next(g, p, Serve(W.Subscribe(client, lastSequence)));
            var end := Final(g, p1, steps);
            var i := W.FinalIndex(|p.server.clients|, ServerView(g, p1, steps));
            && W.Informed(end.server, i)
            && (Drained(g, end) && end.server.clients[i].phase.CaughtUp? ==>
                  W.SentBetween(end.server.clients[i].view, end.server.clients[i].since,
                                LastSequence(end.db.sequences, g.boardId)))
  {
    var subscribe := W.Subscribe(client, lastSequence);
    var p1 := Next(g, p, Serve(subscribe));
    StepIsSound(g, p, Serve(subscribe));
    EveryRunIsSound(g, p1, steps);
    W.NoEventLost(p.server, client, lastSequence, ServerView(g, p1, steps));
    if Drained(g, Final(g, p1, steps)) {
      DrainedHasArrived(g, Final(g, p1, steps));
    }
  }
}
