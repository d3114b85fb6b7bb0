/**
 What every run of card commands keeps: one effect per mutation id, gapless board sequences,
 and an event log from which the live cards of each board can be rebuilt.
 */
module BoardRuns {
  import opened Wrappers
  import opened Positions
  import opened BoardModel

  // ---------------------------------------------------------------------------
  // Effect and frame of one command
  // ---------------------------------------------------------------------------

  /** The command is not a replay of a saved one. */
  predicate FirstTime(db: Db, c: Command) {
    c.mutationId !in db.idempotency
  }

  ghost predicate Succeeds(db: Db, c: Command) {
    FirstTime(db, c) && Exec(db, c).1.Done?
  }

  /** The rows a command reads before it writes, and the board its event belongs to. */
  lemma DecisionReads(db: Db, c: Command)
    requires Decide(db, c).Write?
    ensures FirstTime(db, c)
    ensures var d := Decide(db, c);
            && d.payload.cardId == Subject(c) && d.row.tenantId == c.tenantId
            && (c.CreateCard? <==> d.payload.CardCreated?)
            && (c.MoveCard? <==> d.payload.CardMoved?)
            && (c.UpdateCard? <==> d.payload.CardUpdated?)
            && (c.CreateCard? ==> HasLiveList(db.lists, c.listId)
                                  && d.boardId == db.lists[c.listId].boardId == d.row.boardId
                                  && c.newId !in db.cards && db.lists[c.listId].tenantId == c.tenantId
                                  && TouchedLists(d.payload) == [c.listId])
            && (!c.CreateCard? ==> c.cardId in db.cards && !db.cards[c.cardId].deleted
                                   && db.cards[c.cardId].tenantId == c.tenantId
                                   && d.row.boardId == db.cards[c.cardId].boardId)
            && (c.MoveCard? ==> HasLiveList(db.lists, c.targetListId)
                                && d.boardId == db.lists[c.targetListId].boardId
                                && d.payload.fromListId == db.cards[c.cardId].listId
                                && d.payload.toListId == c.targetListId)
            && (c.UpdateCard? || c.DeleteCard? ==> d.boardId == db.cards[c.cardId].boardId
                                                   && TouchedLists(d.payload) == [db.cards[c.cardId].listId])
  {
  }

  /**
   A first success adds one idempotency, one audit and one outbox row, takes the next number
   of one board counter, bumps the revision of the touched lists by one, and changes no other
   card, list, counter or stored response.
   */
  lemma FirstSuccessFrame(db: Db, c: Command)
    requires Succeeds(db, c)
    ensures Decide(db, c).Write?
    ensures var d := Decide(db, c);
            var (db', outcome) := Exec(db, c);
            var sequence := LastSequence(db.sequences, d.boardId) + 1;
            && db'.outbox == db.outbox + [OutboxEvent(d.boardId, sequence, d.payload)]
            && outcome.response.boardSequence == sequence
            && db'.idempotency == db.idempotency[c.mutationId := outcome.response]
            && |db'.audit| == |db.audit| + 1 && db.audit <= db'.audit
            && db'.audit[|db.audit|].entityId == Subject(c) && db'.audit[|db.audit|].actorId == c.userId
            && db'.sequences == db.sequences[d.boardId := sequence]
            && db'.aclVersions == db.aclVersions
    ensures var touched := TouchedLists(Decide(db, c).payload);
            var db' := Exec(db, c).0;
            && db'.cards == db.cards[Subject(c) := Decide(db, c).row]
            && db'.lists.Keys == db.lists.Keys
            && forall l :: l in db.lists ==>
                 db'.lists[l] == db.lists[l].(revision := db.lists[l].revision + if l in touched then 1 else 0)
  {
  }

  /** A refusal or a fault commits nothing, and neither does a replay. */
  lemma OnlyFirstSuccessWrites(db: Db, c: Command)
    ensures !Succeeds(db, c) ==> Exec(db, c).0 == db
    ensures Exec(db, c).1.Refused? || Exec(db, c).1.Threw? ==> Exec(db, c).0 == db
  {
  }

  /** What a replay answers: the stored response, or that a move has expired meanwhile. */
  lemma ReplayAnswer(db: Db, c: Command)
    requires !FirstTime(db, c)
    ensures Exec(db, c).0 == db
    ensures Exec(db, c).1 == Done(db.idempotency[c.mutationId], c.MoveCard?)
            || (c.MoveCard? && Exec(db, c).1 == Refused(CommandExpired))
  {
  }

  lemma {:induction false} ResponsesAreKept(db: Db, commands: seq<Command>, mutationId: Id)
    requires mutationId in db.idempotency
    ensures mutationId in Run(db, commands).idempotency
    ensures Run(db, commands).idempotency[mutationId] == db.idempotency[mutationId]
    decreases |commands|
  {
    if commands != [] {
      var c := commands[0];
      if Succeeds(db, c) {
        FirstSuccessFrame(db, c);
      } else {
        OnlyFirstSuccessWrites(db, c);
      }
      ResponsesAreKept(Exec(db, c).0, commands[1..], mutationId);
    }
  }

  /**
   Exactly once: after a command has succeeded, running any command with the same mutation id
   at any later point of any run changes nothing and answers with the first response.
   */
  lemma ExactlyOnce(db: Db, first: Command, later: seq<Command>, again: Command)
    requires Exec(db, first).1.Done? && again.mutationId == first.mutationId
    ensures var db' := Run(Exec(db, first).0, later);
            && Exec(db', again).0 == db'
            && (Exec(db', again).1 == Done(Exec(db, first).1.response, again.MoveCard?)
                || (again.MoveCard? && Exec(db', again).1 == Refused(CommandExpired)))
  {
    var db1 := Exec(db, first).0;
    if FirstTime(db, first) {
      FirstSuccessFrame(db, first);
    }
    ResponsesAreKept(db1, later, first.mutationId);
    ReplayAnswer(Run(db1, later), again);
  }

  // ---------------------------------------------------------------------------
  // Gapless sequences
  // ---------------------------------------------------------------------------

  /** The events of one board, in commit order. */
  function BoardEvents(outbox: seq<OutboxEvent>, boardId: Id): seq<OutboxEvent>
    decreases |outbox|
  {
    if outbox == [] then []
    else
      var rest := BoardEvents(outbox[..|outbox| - 1], boardId);
      var last := outbox[|outbox| - 1];
      if last.aggregateId == boardId then rest + [last] else rest
  }

  lemma AppendedEvent(outbox: seq<OutboxEvent>, e: OutboxEvent, boardId: Id)
    ensures BoardEvents(outbox + [e], boardId) ==
            BoardEvents(outbox, boardId) + (if e.aggregateId == boardId then [e] else [])
  {
    assert (outbox + [e])[..|outbox|] == outbox;
  }

  /** The log of a board is numbered 1, 2, ..., n in commit order, and n is its counter. */
  ghost predicate GaplessBoard(outbox: seq<OutboxEvent>, sequences: map<Id, int>, boardId: Id) {
    var events := BoardEvents(outbox, boardId);
    && |events| == LastSequence(sequences, boardId)
    && forall i :: 0 <= i < |events| ==> events[i].sequence == i + 1
  }

  ghost predicate Gapless(db: Db) {
    forall boardId :: GaplessBoard(db.outbox, db.sequences, boardId)
  }

  lemma NumberedEvent(outbox: seq<OutboxEvent>, sequences: map<Id, int>, e: OutboxEvent, boardId: Id)
    requires GaplessBoard(outbox, sequences, boardId)
    requires e.sequence == LastSequence(sequences, e.aggregateId) + 1
    ensures GaplessBoard(outbox + [e], sequences[e.aggregateId := e.sequence], boardId)
  {
    AppendedEvent(outbox, e, boardId);
  }

  lemma ExecKeepsGapless(db: Db, c: Command)
    requires Gapless(db)
    ensures Gapless(Exec(db, c).0)
  {
    if Succeeds(db, c) {
      FirstSuccessFrame(db, c);
      var d := Decide(db, c);
      var e := OutboxEvent(d.boardId, LastSequence(db.sequences, d.boardId) + 1, d.payload);
      var db' := Exec(db, c).0;
      forall boardId
        ensures GaplessBoard(db'.outbox, db'.sequences, boardId)
      {
        NumberedEvent(db.outbox, db.sequences, e, boardId);
      }
    } else {
      OnlyFirstSuccessWrites(db, c);
    }
  }

  /** Every state that card commands reach from an empty log has gapless board logs. */
  lemma {:induction false} EveryRunIsGapless(db: Db, commands: seq<Command>)
    requires Gapless(db)
    ensures Gapless(Run(db, commands))
    decreases |commands|
  {
    if commands != [] {
      ExecKeepsGapless(db, commands[0]);
      EveryRunIsGapless(Exec(db, commands[0]).0, commands[1..]);
    }
  }

  // ---------------------------------------------------------------------------
  // The event log determines the state
  // ---------------------------------------------------------------------------

  /** What a client rebuilds of a card. */
  datatype CardView = CardView(listId: Id, title: string, position: Position)

  function ViewOf(card: Card): CardView {
    CardView(card.listId, card.title, card.position)
  }

  /** One event applied to the cards a client knows. */
  function Apply(view: map<Id, CardView>, payload: Payload): map<Id, CardView> {
    match payload
    case CardCreated(id, listId, title, position) => view[id := CardView(listId, title, position)]
    case CardMoved(id, _, toListId, newPosition) =>
      if id in view then view[id := view[id].(listId := toListId, position := newPosition)] else view
    case CardUpdated(id, _, newTitle, _) =>
      if id in view && newTitle.Some? then view[id := view[id].(title := newTitle.value)] else view
    case CardDeleted(id, _) => view - {id}
  }

  function Fold(events: seq<OutboxEvent>): map<Id, CardView>
    decreases |events|
  {
    if events == [] then map[] else Apply(Fold(events[..|events| - 1]), events[|events| - 1].payload)
  }

  /** The live cards of a board, as the database holds them. */
  function LiveView(cards: map<Id, Card>, boardId: Id): map<Id, CardView> {
    map id | id in cards && !cards[id].deleted && cards[id].boardId == boardId :: ViewOf(cards[id])
  }

  ghost predicate LogDetermines(db: Db, boardId: Id) {
    Fold(BoardEvents(db.outbox, boardId)) == LiveView(db.cards, boardId)
  }

  /** Every live card is in a list of its own board. */
  ghost predicate CardsOnTheirBoards(db: Db) {
    forall id :: id in db.cards && !db.cards[id].deleted ==>
      db.cards[id].listId in db.lists && db.lists[db.cards[id].listId].boardId == db.cards[id].boardId
  }

  ghost predicate LogIsState(db: Db) {
    CardsOnTheirBoards(db) && forall boardId :: LogDetermines(db, boardId)
  }

  /** The move, if it is one, stays on the card's board. */
  predicate SameBoard(db: Db, c: Command) {
    c.MoveCard? && c.cardId in db.cards && c.targetListId in db.lists ==>
      db.lists[c.targetListId].boardId == db.cards[c.cardId].boardId
  }

  lemma {:induction false} FoldOfLast(events: seq<OutboxEvent>, e: OutboxEvent)
    ensures Fold(events + [e]) == Apply(Fold(events), e.payload)
  {
    var longer := events + [e];
    assert longer[..|longer| - 1] == events && longer[|longer| - 1] == e;
  }

  lemma {:induction false} FoldOfAppended(outbox: seq<OutboxEvent>, e: OutboxEvent, boardId: Id)
    ensures var log := Fold(BoardEvents(outbox, boardId));
            Fold(BoardEvents(outbox + [e], boardId)) == if boardId == e.aggregateId then Apply(log, e.payload) else log
  {
    var events := BoardEvents(outbox, boardId);
    AppendedEvent(outbox, e, boardId);
    if boardId == e.aggregateId {
      FoldOfLast(events, e);
    } else {
      assert events + [] == events;
    }
  }

  /** A board's log after a successful command: extended for the event's board only. */
  lemma LogAfter(db: Db, c: Command, boardId: Id)
    requires Succeeds(db, c)
    ensures var d := Decide(db, c);
            var log := Fold(BoardEvents(db.outbox, boardId));
            && d.Write?
            && Fold(BoardEvents(Exec(db, c).0.outbox, boardId)) ==
               if boardId == d.boardId then Apply(log, d.payload) else log
  {
    FirstSuccessFrame(db, c);
    var d := Decide(db, c);
    FoldOfAppended(db.outbox, OutboxEvent(d.boardId, LastSequence(db.sequences, d.boardId) + 1, d.payload), boardId);
  }

  /** The view of a board after one row of that board is written, and of any other board. */
  lemma ViewAfterWrite(cards: map<Id, Card>, id: Id, row: Card, boardId: Id)
    requires id in cards ==> cards[id].boardId == row.boardId
    ensures LiveView(cards[id := row], boardId) ==
            if row.boardId != boardId then LiveView(cards, boardId)
            else if row.deleted then LiveView(cards, boardId) - {id}
            else LiveView(cards, boardId)[id := ViewOf(row)]
  {
  }

  /** The event does to any view that knows the old row what the write does to the database. */
  lemma EventDescribesRow(db: Db, c: Command, view: map<Id, CardView>)
    requires Decide(db, c).Write?
    requires !c.CreateCard? ==> c.cardId in db.cards && c.cardId in view && view[c.cardId] == ViewOf(db.cards[c.cardId])
    ensures var d := Decide(db, c);
            Apply(view, d.payload) == if d.row.deleted then view - {Subject(c)} else view[Subject(c) := ViewOf(d.row)]
  {
  }

  lemma SameBoardDetermines(db: Db, c: Command, boardId: Id)
    requires LogIsState(db) && Succeeds(db, c) && SameBoard(db, c)
    ensures LogDetermines(Exec(db, c).0, boardId)
  {
    var d := Decide(db, c);
    FirstSuccessFrame(db, c);
    DecisionReads(db, c);
    LogAfter(db, c, boardId);
    ViewAfterWrite(db.cards, Subject(c), d.row, boardId);
    assert LogDetermines(db, boardId);
    if boardId == d.boardId {
      EventDescribesRow(db, c, LiveView(db.cards, boardId));
    }
  }

  lemma CardsStayOnBoards(db: Db, c: Command)
    requires CardsOnTheirBoards(db) && Succeeds(db, c) && SameBoard(db, c)
    ensures CardsOnTheirBoards(Exec(db, c).0)
  {
    FirstSuccessFrame(db, c);
    DecisionReads(db, c);
    RowOnItsBoard(db, Exec(db, c).0, Subject(c), Decide(db, c).row);
  }

  lemma RowOnItsBoard(db: Db, db': Db, id: Id, row: Card)
    requires CardsOnTheirBoards(db) && db'.cards == db.cards[id := row] && db'.lists.Keys == db.lists.Keys
    requires forall l :: l in db.lists ==> db'.lists[l].boardId == db.lists[l].boardId
    requires !row.deleted ==> row.listId in db.lists && db.lists[row.listId].boardId == row.boardId
    ensures CardsOnTheirBoards(db')
  {
  }

  /** A command that stays on one board keeps every board's log equal to its live cards. */
  lemma SameBoardKeepsLog(db: Db, c: Command)
    requires LogIsState(db) && SameBoard(db, c)
    ensures LogIsState(Exec(db, c).0)
  {
    if Succeeds(db, c) {
      CardsStayOnBoards(db, c);
      forall boardId
        ensures LogDetermines(Exec(db, c).0, boardId)
      {
        SameBoardDetermines(db, c, boardId);
      }
    } else {
      OnlyFirstSuccessWrites(db, c);
    }
  }

  /** A move to a list of another board leaves the log of the card's own board behind. */
  lemma CrossBoardBreaksLog(db: Db, c: Command)
    requires LogIsState(db) && Succeeds(db, c) && !SameBoard(db, c)
    ensures c.MoveCard? && c.cardId in db.cards && !LogDetermines(Exec(db, c).0, db.cards[c.cardId].boardId)
  {
    DecisionReads(db, c);
    var row := Decide(db, c).row;
    var home := db.cards[c.cardId].boardId;
    LogAfter(db, c, home);
    assert LogDetermines(db, home);
    FirstSuccessFrame(db, c);
    OtherListShows(db.cards, c.cardId, row, home);
  }

  /** A card that changes its list shows in the view of its board. */
  lemma OtherListShows(cards: map<Id, Card>, id: Id, row: Card, boardId: Id)
    requires id in cards && !cards[id].deleted && cards[id].boardId == boardId && row.listId != cards[id].listId
    ensures LiveView(cards[id := row], boardId) != LiveView(cards, boardId)
  {
    assert LiveView(cards, boardId)[id].listId == cards[id].listId;
  }

  /**
   Exactly when the board logs go on determining the state: after a successful command they
   do if and only if the command did not move a card to another board.
   */
  lemma LogIsStateIff(db: Db, c: Command)
    requires LogIsState(db) && Succeeds(db, c)
    ensures LogIsState(Exec(db, c).0) <==> SameBoard(db, c)
  {
    if SameBoard(db, c) {
      SameBoardKeepsLog(db, c);
    } else {
      CrossBoardBreaksLog(db, c);
    }
  }

  /** Card "c" of board "b1" in list "l1"; list "l2" is on board "b2". */
  const ONE_CARD: Db := Db(
    map["c" := Card("c", "t", "b1", "l1", "title", None, "V", 1, false)],
    map["l1" := CardList("l1", "t", "b1", 0, false), "l2" := CardList("l2", "t", "b2", 0, false)],
    map[], map["b1" := 1], [OutboxEvent("b1", 1, CardCreated("c", "l1", "title", "V"))], [], map[])

  const CROSS_BOARD_MOVE: Command := MoveCard("c", "l2", None, None, None, [], 0, 0, "u", "t", "m")

  lemma OneCardIsLogged(boardId: Id)
    ensures LogDetermines(ONE_CARD, boardId)
  {
    var e := OutboxEvent("b1", 1, CardCreated("c", "l1", "title", "V"));
    FoldOfAppended([], e, boardId);
    assert [] + [e] == ONE_CARD.outbox;
    ViewAfterWrite(map[], "c", ONE_CARD.cards["c"], boardId);
    assert map["c" := ONE_CARD.cards["c"]] == ONE_CARD.cards;
  }

  /** A card that is moved to the other board: board "b1" goes on showing it in its old list. */
  lemma CrossBoardExample()
    ensures LogIsState(ONE_CARD) && Succeeds(ONE_CARD, CROSS_BOARD_MOVE)
    ensures !LogIsState(Exec(ONE_CARD, CROSS_BOARD_MOVE).0)
  {
    forall boardId
      ensures LogDetermines(ONE_CARD, boardId)
    {
      OneCardIsLogged(boardId);
    }
    assert Decide(ONE_CARD, CROSS_BOARD_MOVE).Write?;
    assert TouchedLists(Decide(ONE_CARD, CROSS_BOARD_MOVE).payload) == ["l1", "l2"];
    LogIsStateIff(ONE_CARD, CROSS_BOARD_MOVE);
  }

  ghost predicate StaysOnBoards(db: Db, commands: seq<Command>)
    decreases |commands|
  {
    commands == [] || (SameBoard(db, commands[0]) && StaysOnBoards(Exec(db, commands[0]).0, commands[1..]))
  }

  /** Over whole runs: folding a board's events from empty gives exactly its live cards. */
  lemma {:induction false} EveryLogIsState(db: Db, commands: seq<Command>)
    requires LogIsState(db) && StaysOnBoards(db, commands)
    ensures LogIsState(Run(db, commands))
    decreases |commands|
  {
    if commands != [] {
      SameBoardKeepsLog(db, commands[0]);
      EveryLogIsState(Exec(db, commands[0]).0, commands[1..]);
    }
  }

  /** The empty board database, with any lists, is where such runs start. */
  lemma EmptyDatabase(db: Db)
    requires db.cards == map[] && db.outbox == [] && db.sequences == map[]
    ensures Gapless(db) && LogIsState(db)
  {
  }
}
