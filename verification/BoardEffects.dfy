/**
 What each card command answers and what it leaves in the tables, in terms of the command and
 the tables before it only.
 */
module BoardEffects {
  import opened Wrappers
  import opened Positions
  import opened Generator
  import opened BoardModel
  import opened BoardRuns

  /** The card can be found for a tenant; an empty tenant id finds the cards of all. */
  predicate Finds(cards: map<Id, Card>, id: Id, tenantId: Id) {
    id in cards && !cards[id].deleted && (tenantId == "" || cards[id].tenantId == tenantId)
  }

  predicate FindsList(lists: map<Id, CardList>, id: Id, tenantId: Id) {
    id in lists && !lists[id].deleted && (tenantId == "" || lists[id].tenantId == tenantId)
  }

  /** Another live card of the list has the position. */
  predicate Occupied(cards: map<Id, Card>, listId: Id, position: Position, self: Id) {
    exists id :: id in cards && id != self && !cards[id].deleted && cards[id].listId == listId
                 && cards[id].position == position
  }

  /** The number of an event that follows the board's counter. */
  function NextNumber(db: Db, boardId: Id): int {
    (if boardId in db.sequences then db.sequences[boardId] else 0) + 1
  }

  function BoardAcl(db: Db, boardId: Id): int {
    if boardId in db.aclVersions then db.aclVersions[boardId] else 1
  }

  /** All cards but one are as they were, and no card is gone. */
  ghost predicate OthersKept(db: Db, db': Db, id: Id) {
    && db'.cards.Keys == db.cards.Keys + {id}
    && forall other :: other in db.cards && other != id ==> db'.cards[other] == db.cards[other]
  }

  /** Exactly the revisions of these lists are one higher. */
  ghost predicate Bumped(db: Db, db': Db, bumped: set<Id>) {
    && bumped <= db.lists.Keys && db'.lists.Keys == db.lists.Keys
    && forall l :: l in db.lists ==>
         db'.lists[l] == db.lists[l].(revision := db.lists[l].revision + if l in bumped then 1 else 0)
  }

  /** One event, one audit row, one idempotency row; one counter goes on. */
  ghost predicate Recorded(db: Db, db': Db, c: Command, boardId: Id, payload: Payload, action: AuditAction,
      response: Response) {
    && db'.sequences == db.sequences[boardId := NextNumber(db, boardId)]
    && db'.outbox == db.outbox + [OutboxEvent(boardId, NextNumber(db, boardId), payload)]
    && db'.audit == db.audit + [AuditLog(c.userId, c.tenantId, action, payload.cardId)]
    && db'.idempotency == db.idempotency[c.mutationId := response]
    && db'.aclVersions == db.aclVersions
  }

  predicate ListIsLive(db: Db, listId: Id) {
    listId in db.lists && !db.lists[listId].deleted
  }

  /** The lists of an event are live exactly if its one or two lists are. */
  lemma TouchedAreLiveIff(db: Db, payload: Payload)
    ensures HaveLiveRows(db.lists, TouchedLists(payload)) <==>
            if payload.CardMoved? then ListIsLive(db, payload.fromListId) && ListIsLive(db, payload.toListId)
            else ListIsLive(db, payload.listId)
  {
    var touched := TouchedLists(payload);
    assert touched[0] == if payload.CardMoved? then payload.fromListId else payload.listId;
    assert |touched| == 2 ==> touched[1] == payload.toListId;
  }

  /** A success has found the rows of its lists. */
  lemma SuccessTouchesLive(db: Db, c: Command)
    requires Succeeds(db, c)
    ensures Decide(db, c).Write? && HaveLiveRows(db.lists, TouchedLists(Decide(db, c).payload))
  {
  }

  /** The logs of a success, for whatever event it has. */
  lemma SuccessRecords(db: Db, c: Command)
    requires Succeeds(db, c)
    ensures Decide(db, c).Write?
    ensures var d := Decide(db, c);
            Recorded(db, Exec(db, c).0, c, d.boardId, d.payload, d.action, Exec(db, c).1.response)
  {
    DecisionReads(db, c);
  }

  lemma SuccessBumps(db: Db, c: Command)
    requires Succeeds(db, c)
    ensures Decide(db, c).Write?
    ensures Bumped(db, Exec(db, c).0, set l | l in TouchedLists(Decide(db, c).payload))
  {
    FirstSuccessFrame(db, c);
    SuccessTouchesLive(db, c);
  }

  lemma SuccessAnswer(db: Db, c: Command)
    requires Succeeds(db, c)
    ensures Decide(db, c).Write?
    ensures var d := Decide(db, c);
            Exec(db, c).1 == Done(ResponseTo(BumpAll(db.lists, TouchedLists(d.payload)), d.payload,
                                             NextNumber(db, d.boardId), BoardAcl(db, d.boardId)), false)
  {
  }

  // ---------------------------------------------------------------------------
  // Effects of a first success
  // ---------------------------------------------------------------------------

  /** A created card is the command's, at revision 1, and so is its event. */
  lemma CreateEffect(db: Db, c: Command)
    requires c.CreateCard? && Succeeds(db, c)
    ensures c.newId !in db.cards && c.newId in Exec(db, c).0.cards && c.listId in db.lists
    ensures var db' := Exec(db, c).0;
            var card := db'.cards[c.newId];
            && card == Card(c.newId, c.tenantId, db.lists[c.listId].boardId, c.listId, c.title, c.description,
                            card.position, 1, false)
            && OthersKept(db, db', c.newId)
  {
    FirstSuccessFrame(db, c);
    DecisionReads(db, c);
  }

  /** It bumps its list, takes its board's next number, and answers with both. */
  lemma CreateRecord(db: Db, c: Command)
    requires c.CreateCard? && Succeeds(db, c)
    ensures c.newId in Exec(db, c).0.cards && c.listId in db.lists
    ensures var (db', outcome) := Exec(db, c);
            var list := db.lists[c.listId];
            && Bumped(db, db', {c.listId})
            && Recorded(db, db', c, list.boardId,
                        CardCreated(c.newId, c.listId, c.title, db'.cards[c.newId].position), Created, outcome.response)
            && outcome == Done(MutationResponse(c.newId, list.revision + 1, NextNumber(db, list.boardId),
                                                BoardAcl(db, list.boardId)), false)
  {
    CreateEffect(db, c);
    SuccessRecords(db, c);
    SuccessBumps(db, c);
    SuccessAnswer(db, c);
    FirstSuccessFrame(db, c);
    DecisionReads(db, c);
    assert (set l | l in TouchedLists(Decide(db, c).payload)) == {c.listId};
  }

  /** A move changes the card's list and position and nothing else of it, its revision included. */
  lemma MoveEffect(db: Db, c: Command)
    requires c.MoveCard? && Succeeds(db, c)
    ensures c.cardId in db.cards && c.cardId in Exec(db, c).0.cards
    ensures var db' := Exec(db, c).0;
            var before, after := db.cards[c.cardId], db'.cards[c.cardId];
            after == before.(listId := c.targetListId, position := after.position) && OthersKept(db, db', c.cardId)
  {
    FirstSuccessFrame(db, c);
    DecisionReads(db, c);
  }

  /** A move bumps the source and the target list, each once, and says to which revisions. */
  lemma MoveRecord(db: Db, c: Command)
    requires c.MoveCard? && Succeeds(db, c)
    ensures c.cardId in db.cards && c.cardId in Exec(db, c).0.cards
    ensures db.cards[c.cardId].listId in db.lists && c.targetListId in db.lists
    ensures var (db', outcome) := Exec(db, c);
            var source, target := db.cards[c.cardId].listId, c.targetListId;
            var boardId := db.lists[target].boardId;
            && Bumped(db, db', {source, target})
            && Recorded(db, db', c, boardId, CardMoved(c.cardId, source, target, db'.cards[c.cardId].position), Moved,
                        outcome.response)
            && outcome == Done(MoveResponse(NextNumber(db, boardId),
                                            map[source := db.lists[source].revision + 1]
                                               [target := db.lists[target].revision + 1]), false)
  {
    MoveEffect(db, c);
    SuccessRecords(db, c);
    SuccessBumps(db, c);
    SuccessAnswer(db, c);
    SuccessTouchesLive(db, c);
    MovedPayload(db, c);
    MovedRevisions(db.lists, db.cards[c.cardId].listId, c.targetListId);
    MovedPosition(db, c);
    assert (set l | l in TouchedLists(Decide(db, c).payload)) == {db.cards[c.cardId].listId, c.targetListId};
  }

  lemma MovedPosition(db: Db, c: Command)
    requires c.MoveCard? && Succeeds(db, c) && Decide(db, c).Write?
    ensures c.cardId in Exec(db, c).0.cards
    ensures Exec(db, c).0.cards[c.cardId].position == Decide(db, c).row.position
  {
    FirstSuccessFrame(db, c);
  }

  lemma MovedPayload(db: Db, c: Command)
    requires c.MoveCard? && Succeeds(db, c) && Decide(db, c).Write?
    requires HaveLiveRows(db.lists, TouchedLists(Decide(db, c).payload))
    ensures c.cardId in db.cards && db.cards[c.cardId].listId in db.lists && c.targetListId in db.lists
    ensures var d := Decide(db, c);
            && d.boardId == db.lists[c.targetListId].boardId && d.action == Moved
            && d.payload == CardMoved(c.cardId, db.cards[c.cardId].listId, c.targetListId, d.row.position)
  {
    DecisionReads(db, c);
    TouchedAreLiveIff(db, Decide(db, c).payload);
  }

  lemma MovedRevisions(lists: map<Id, CardList>, source: Id, target: Id)
    requires source in lists && target in lists
    ensures var touched := if target == source then [source] else [source, target];
            RevisionsOf(BumpAll(lists, touched), touched) ==
            map[source := lists[source].revision + 1][target := lists[target].revision + 1]
  {
  }

  /** An update sets what the command gives, keeps what it does not, and its event carries the same. */
  lemma UpdateEffect(db: Db, c: Command)
    requires c.UpdateCard? && Succeeds(db, c)
    ensures c.cardId in db.cards && c.cardId in Exec(db, c).0.cards
    ensures var db' := Exec(db, c).0;
            var before, after := db.cards[c.cardId], db'.cards[c.cardId];
            && after == before.(title := after.title, description := after.description, revision := before.revision + 1)
            && after.title == (if c.newTitle.Some? then c.newTitle.value else before.title)
            && after.description == (if c.newDescription.Some? then c.newDescription else before.description)
            && OthersKept(db, db', c.cardId)
  {
    FirstSuccessFrame(db, c);
    DecisionReads(db, c);
  }

  /** A delete sets the card's deletion mark and nothing else of it. */
  lemma DeleteEffect(db: Db, c: Command)
    requires c.DeleteCard? && Succeeds(db, c)
    ensures c.cardId in db.cards && c.cardId in Exec(db, c).0.cards
    ensures var db' := Exec(db, c).0;
            var before, after := db.cards[c.cardId], db'.cards[c.cardId];
            && !before.deleted && after == before.(deleted := true) && OthersKept(db, db', c.cardId)
  {
    FirstSuccessFrame(db, c);
    DecisionReads(db, c);
  }

  /** What an update or a delete records: the event carries exactly what the command gives. */
  lemma EditRecord(db: Db, c: Command)
    requires (c.UpdateCard? || c.DeleteCard?) && Succeeds(db, c)
    ensures c.cardId in db.cards && db.cards[c.cardId].listId in db.lists
    ensures var (db', outcome) := Exec(db, c);
            var card := db.cards[c.cardId];
            var list := db.lists[card.listId];
            && Bumped(db, db', {card.listId})
            && (c.UpdateCard? ==>
                  Recorded(db, db', c, card.boardId,
                           CardUpdated(c.cardId, card.listId, c.newTitle, c.newDescription), Updated, outcome.response))
            && (c.DeleteCard? ==>
                  Recorded(db, db', c, card.boardId, CardDeleted(c.cardId, card.listId), Deleted, outcome.response))
            && outcome == Done(MutationResponse(c.cardId, list.revision + 1, NextNumber(db, card.boardId),
                                                BoardAcl(db, card.boardId)), false)
  {
    SuccessRecords(db, c);
    SuccessBumps(db, c);
    SuccessAnswer(db, c);
    DecisionReads(db, c);
    SuccessTouchesLive(db, c);
    TouchedAreLiveIff(db, Decide(db, c).payload);
    assert (set l | l in TouchedLists(Decide(db, c).payload)) == {db.cards[c.cardId].listId};
  }

  // ---------------------------------------------------------------------------
  // Answers
  // ---------------------------------------------------------------------------

  /** Every answer of a create, in the order in which the reasons for it are found. */
  lemma CreateAnswers(db: Db, c: Command)
    requires c.CreateCard?
    ensures var outcome := Exec(db, c).1;
            if c.mutationId in db.idempotency then outcome == Done(db.idempotency[c.mutationId], false)
            else if !FindsList(db.lists, c.listId, c.tenantId) then outcome == Refused(NotFound)
            else if db.lists[c.listId].tenantId != c.tenantId then outcome == Refused(Forbidden)
            else
              var position := GeneratePosition(LastPosition(db.cards, c.listId, c.tenantId), None);
              if position.Err? then outcome == Threw(PositionFault(position.error))
              else if c.newId in db.cards then outcome == Threw(DuplicateCardId)
              else if Occupied(db.cards, c.listId, position.value, c.newId) then outcome == Threw(DuplicatePosition)
              else outcome.Done? && c.newId in Exec(db, c).0.cards
                   && Exec(db, c).0.cards[c.newId].position == position.value
  {
  }

  /** Every answer of an update. */
  lemma UpdateAnswers(db: Db, c: Command)
    requires c.UpdateCard?
    ensures var outcome := Exec(db, c).1;
            if c.mutationId in db.idempotency then outcome == Done(db.idempotency[c.mutationId], false)
            else if !Finds(db.cards, c.cardId, c.tenantId) then outcome == Refused(NotFound)
            else
              var card := db.cards[c.cardId];
              if card.tenantId != c.tenantId then outcome == Refused(Forbidden)
              else if c.expectedRevision.Some? && c.expectedRevision.value != card.revision
              then outcome == Refused(StaleRevision)
              else if Occupied(db.cards, card.listId, card.position, c.cardId) then outcome == Threw(DuplicatePosition)
              else if !ListIsLive(db, card.listId) then outcome == Threw(ListRowMissing)
              else outcome.Done?
  {
  }

  /** Every answer of a delete. */
  lemma DeleteAnswers(db: Db, c: Command)
    requires c.DeleteCard?
    ensures var outcome := Exec(db, c).1;
            if c.mutationId in db.idempotency then outcome == Done(db.idempotency[c.mutationId], false)
            else if !Finds(db.cards, c.cardId, c.tenantId) then outcome == Refused(NotFound)
            else if db.cards[c.cardId].tenantId != c.tenantId then outcome == Refused(Forbidden)
            else if !ListIsLive(db, db.cards[c.cardId].listId) then outcome == Threw(ListRowMissing)
            else outcome.Done?
  {
  }

  /** The position that a neighbour id of a move stands for: that of a found card, if there is one. */
  ghost predicate Neighbours(db: Db, id: Option<Id>, tenantId: Id, position: Option<Position>) {
    if id.Some? && id.value != "" && Finds(db.cards, id.value, tenantId)
    then position == Some(db.cards[id.value].position)
    else position == None
  }

  predicate Expects(db: Db, tenantId: Id, expected: (Id, int)) {
    FindsList(db.lists, expected.0, tenantId) && db.lists[expected.0].revision == expected.1
  }

  /** The reason that an expectation which does not hold gives. */
  function Unmet(db: Db, tenantId: Id, expected: (Id, int)): Reason {
    if FindsList(db.lists, expected.0, tenantId) then StaleRevision else NotFound
  }

  /** The first expectation of a move that does not hold decides its answer. */
  lemma {:induction false} FirstUnmet(db: Db, expected: seq<(Id, int)>, tenantId: Id)
    ensures var reason := RevisionCheck(db.lists, expected, tenantId);
            && (reason.None? <==> forall i :: 0 <= i < |expected| ==> Expects(db, tenantId, expected[i]))
            && (reason.Some? ==>
                  exists i :: 0 <= i < |expected| && !Expects(db, tenantId, expected[i])
                              && (forall j :: 0 <= j < i ==> Expects(db, tenantId, expected[j]))
                              && reason.value == Unmet(db, tenantId, expected[i]))
    decreases |expected|
  {
    if expected != [] {
      FirstUnmet(db, expected[1..], tenantId);
      if Expects(db, tenantId, expected[0]) {
        var rest := RevisionCheck(db.lists, expected[1..], tenantId);
        assert forall i :: 1 <= i < |expected| ==> expected[i] == expected[1..][i - 1];
        if rest.Some? {
          var i :| 0 <= i < |expected[1..]| && !Expects(db, tenantId, expected[1..][i])
                   && (forall j :: 0 <= j < i ==> Expects(db, tenantId, expected[1..][j]))
                   && rest.value == Unmet(db, tenantId, expected[1..][i]);
          assert expected[i + 1] == expected[1..][i];
        }
      }
    }
  }

  /** The answers of a move up to its expectations. */
  lemma MoveGuards(db: Db, c: Command)
    requires c.MoveCard?
    ensures var outcome := Exec(db, c).1;
            if c.now - c.issuedAt > 5 * 60 * 1000 + 30000 then outcome == Refused(CommandExpired)
            else if c.mutationId in db.idempotency then outcome == Done(db.idempotency[c.mutationId], true)
            else if !Finds(db.cards, c.cardId, c.tenantId) then outcome == Refused(NotFound)
            else if db.cards[c.cardId].tenantId != c.tenantId then outcome == Refused(Forbidden)
            else if !FindsList(db.lists, c.targetListId, c.tenantId) then outcome == Refused(NotFound)
            else if c.expectedAclVersion.Some?
                    && c.expectedAclVersion.value != BoardAcl(db, db.lists[c.targetListId].boardId)
            then outcome == Refused(AclMismatch)
            else RevisionCheck(db.lists, c.expectedListRevisions, c.tenantId).Some? ==>
                   outcome == Refused(RevisionCheck(db.lists, c.expectedListRevisions, c.tenantId).value)
  {
  }

  /** A move that no guard stops. */
  predicate PassesAll(db: Db, c: Command)
    requires c.MoveCard?
  {
    && c.now - c.issuedAt <= 5 * 60 * 1000 + 30000 && c.mutationId !in db.idempotency
    && Finds(db.cards, c.cardId, c.tenantId) && db.cards[c.cardId].tenantId == c.tenantId
    && FindsList(db.lists, c.targetListId, c.tenantId)
    && (c.expectedAclVersion.Some? ==> c.expectedAclVersion.value == BoardAcl(db, db.lists[c.targetListId].boardId))
    && forall i :: 0 <= i < |c.expectedListRevisions| ==> Expects(db, c.tenantId, c.expectedListRevisions[i])
  }

  /** Its answers: a collision, unusable neighbours, a taken position, a missing source list, or success. */
  lemma MoveAnswers(db: Db, c: Command, prev: Option<Position>, next: Option<Position>)
    requires c.MoveCard? && PassesAll(db, c)
    requires Neighbours(db, c.prevId, c.tenantId, prev) && Neighbours(db, c.nextId, c.tenantId, next)
    ensures var outcome := Exec(db, c).1;
            var position := GeneratePosition(prev, next);
            if position == Err(Collision) then outcome == Refused(CorruptedChain)
            else if position.Err? then outcome == Refused(InvalidRequestPayload)
            else if Occupied(db.cards, c.targetListId, position.value, c.cardId)
            then outcome == Threw(DuplicatePosition)
            else if !ListIsLive(db, db.cards[c.cardId].listId) then outcome == Threw(ListRowMissing)
            else outcome.Done? && c.cardId in Exec(db, c).0.cards
                 && Exec(db, c).0.cards[c.cardId].position == position.value
  {
    FirstUnmet(db, c.expectedListRevisions, c.tenantId);
    NeighboursFound(db, c);
    MoveDecides(db, c);
    if Decide(db, c).Write? {
      WriteAnswers(db, c);
    }
  }

  /** Past the guards, the generated position decides. */
  lemma MoveDecides(db: Db, c: Command)
    requires c.MoveCard? && PassesAll(db, c) && RevisionCheck(db.lists, c.expectedListRevisions, c.tenantId).None?
    ensures var position := GeneratePosition(NeighbourPosition(db.cards, c.prevId, c.tenantId),
                                             NeighbourPosition(db.cards, c.nextId, c.tenantId));
            var d := Decide(db, c);
            if position.Err? then
              d == Refuse(if position.error == Collision then CorruptedChain else InvalidRequestPayload)
            else
              && d.Write? && d.payload.CardMoved?
              && d.row == db.cards[c.cardId].(listId := c.targetListId, position := position.value)
              && d.payload.fromListId == db.cards[c.cardId].listId && d.payload.toListId == c.targetListId
  {
  }

  /** A write of a move is stopped only by a taken position or a missing list. */
  lemma WriteAnswers(db: Db, c: Command)
    requires c.MoveCard? && Decide(db, c).Write? && Decide(db, c).payload.CardMoved? && !Decide(db, c).row.deleted
    ensures var d := Decide(db, c);
            var (db', outcome) := Exec(db, c);
            if Occupied(db.cards, d.row.listId, d.row.position, c.cardId) then outcome == Threw(DuplicatePosition)
            else if !ListIsLive(db, d.payload.fromListId) || !ListIsLive(db, d.payload.toListId)
            then outcome == Threw(ListRowMissing)
            else outcome.Done? && c.cardId in db'.cards && db'.cards[c.cardId] == d.row
  {
    TouchedAreLiveIff(db, Decide(db, c).payload);
  }

  lemma NeighboursFound(db: Db, c: Command)
    requires c.MoveCard?
    ensures Neighbours(db, c.prevId, c.tenantId, NeighbourPosition(db.cards, c.prevId, c.tenantId))
    ensures Neighbours(db, c.nextId, c.tenantId, NeighbourPosition(db.cards, c.nextId, c.tenantId))
  {
  }
}
