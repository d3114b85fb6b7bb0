/**
 The board database as a value, and each card command as one serializable transaction on it:
 the state it commits and what it returns. A thrown error rolls the transaction back.
 */
module BoardModel {
  import opened Wrappers
  import opened Positions
  import opened Generator

  type Id = string

  datatype Card = Card(
    id: Id, tenantId: Id, boardId: Id, listId: Id,
    title: string, description: Option<string>, position: Position, revision: int, deleted: bool)

  datatype CardList = CardList(id: Id, tenantId: Id, boardId: Id, revision: int, deleted: bool)

  datatype Payload =
    | CardCreated(cardId: Id, listId: Id, title: string, position: Position)
    | CardMoved(cardId: Id, fromListId: Id, toListId: Id, newPosition: Position)
    | CardUpdated(cardId: Id, listId: Id, newTitle: Option<string>, newDescription: Option<string>)
    | CardDeleted(cardId: Id, listId: Id)

  datatype OutboxEvent = OutboxEvent(aggregateId: Id, sequence: int, payload: Payload)

  datatype AuditAction = Created | Moved | Updated | Deleted

  datatype AuditLog = AuditLog(actorId: Id, tenantId: Id, action: AuditAction, entityId: Id)

  datatype Response =
    | MoveResponse(boardSequence: int, updatedListRevisions: map<Id, int>)
    | MutationResponse(cardId: Id, listRevision: int, boardSequence: int, aclVersion: int)

  datatype Reason =
    | NotFound
    | Forbidden
    | CommandExpired
    | AclMismatch
    | StaleRevision
    | CorruptedChain
    | InvalidRequestPayload

  datatype Fault =
    | PositionFault(error: PositionError)
    | DuplicateCardId
    | DuplicatePosition
    | DuplicateMutation
    | ListRowMissing

  /** A command returns a response or a reason; a fault is an exception that leaves it. */
  datatype Outcome =
    | Done(response: Response, replayed: bool)
    | Refused(reason: Reason)
    | Threw(fault: Fault)

  datatype Db = Db(
    cards: map<Id, Card>,
    lists: map<Id, CardList>,
    aclVersions: map<Id, int>,
    sequences: map<Id, int>,
    outbox: seq<OutboxEvent>,
    audit: seq<AuditLog>,
    idempotency: map<Id, Response>)

  datatype Command =
    | CreateCard(listId: Id, title: string, description: Option<string>, newId: Id,
        userId: Id, tenantId: Id, mutationId: Id)
    | MoveCard(cardId: Id, targetListId: Id, prevId: Option<Id>, nextId: Option<Id>,
        expectedAclVersion: Option<int>, expectedListRevisions: seq<(Id, int)>,
        issuedAt: int, now: int,
        userId: Id, tenantId: Id, mutationId: Id)
    | UpdateCard(cardId: Id, newTitle: Option<string>, newDescription: Option<string>,
        expectedRevision: Option<int>,
        userId: Id, tenantId: Id, mutationId: Id)
    | DeleteCard(cardId: Id,
        userId: Id, tenantId: Id, mutationId: Id)

  const COMMAND_TTL_MS: int := 5 * 60 * 1000
  const CLOCK_SKEW_MS: int := 30000

  // ---------------------------------------------------------------------------
  // Repository queries
  // ---------------------------------------------------------------------------

  /** An empty tenant id is falsy and adds no condition to a query. */
  predicate TenantMatches(rowTenant: Id, tenantId: Id) {
    tenantId == "" || rowTenant == tenantId
  }

  function FindCard(cards: map<Id, Card>, id: Id, tenantId: Id): Option<Card> {
    if id in cards && !cards[id].deleted && TenantMatches(cards[id].tenantId, tenantId) then Some(cards[id]) else None
  }

  function FindList(lists: map<Id, CardList>, id: Id, tenantId: Id): Option<CardList> {
    if id in lists && !lists[id].deleted && TenantMatches(lists[id].tenantId, tenantId) then Some(lists[id]) else None
  }

  predicate LiveIn(card: Card, listId: Id) {
    !card.deleted && card.listId == listId
  }

  /** The row that `ORDER BY position DESC LIMIT 1` returns. */
  ghost predicate IsLast(cards: map<Id, Card>, listId: Id, tenantId: Id, id: Id) {
    && id in cards && LiveIn(cards[id], listId) && cards[id].tenantId == tenantId
    && forall other ::
         other in cards && other != id && LiveIn(cards[other], listId) && cards[other].tenantId == tenantId ==>
           Less(cards[other].position, cards[id].position)
  }

  ghost function LastPosition(cards: map<Id, Card>, listId: Id, tenantId: Id): Option<Position> {
    if exists id :: IsLast(cards, listId, tenantId, id) then
      var id :| IsLast(cards, listId, tenantId, id);
      Some(cards[id].position)
    else None
  }

  /** The unique index on (list, position) of live cards refuses a row. */
  predicate PositionTaken(cards: map<Id, Card>, listId: Id, position: Position, self: Id) {
    exists id :: id in cards && id != self && LiveIn(cards[id], listId) && cards[id].position == position
  }

  function LastSequence(sequences: map<Id, int>, boardId: Id): int {
    if boardId in sequences then sequences[boardId] else 0
  }

  function AclVersion(aclVersions: map<Id, int>, boardId: Id): int {
    if boardId in aclVersions then aclVersions[boardId] else 1
  }

  predicate HasLiveList(lists: map<Id, CardList>, listId: Id) {
    listId in lists && !lists[listId].deleted
  }

  // ---------------------------------------------------------------------------
  // What a command reads: an answer without effect, or the row to write
  // ---------------------------------------------------------------------------

  datatype Decision =
    | Answer(outcome: Outcome)
    | Write(row: Card, payload: Payload, boardId: Id, action: AuditAction)

  function Refuse(reason: Reason): Decision {
    Answer(Refused(reason))
  }

  ghost function DecideCreate(db: Db, c: Command): Decision
    requires c.CreateCard?
  {
    if c.mutationId in db.idempotency then Answer(Done(db.idempotency[c.mutationId], false))
    else
      var list := FindList(db.lists, c.listId, c.tenantId);
      if list.None? then Refuse(NotFound)
      else if list.value.tenantId != c.tenantId then Refuse(Forbidden)
      else
        var position := GeneratePosition(LastPosition(db.cards, c.listId, c.tenantId), None);
        if position.Err? then Answer(Threw(PositionFault(position.error)))
        else if c.newId in db.cards then Answer(Threw(DuplicateCardId))
        else
          var boardId := list.value.boardId;
          Write(Card(c.newId, c.tenantId, boardId, c.listId, c.title, c.description, position.value, 1, false),
                CardCreated(c.newId, c.listId, c.title, position.value), boardId, Created)
  }

  function DecideDelete(db: Db, c: Command): Decision
    requires c.DeleteCard?
  {
    if c.mutationId in db.idempotency then Answer(Done(db.idempotency[c.mutationId], false))
    else
      var found := FindCard(db.cards, c.cardId, c.tenantId);
      if found.None? then Refuse(NotFound)
      else if found.value.tenantId != c.tenantId then Refuse(Forbidden)
      else
        var card := found.value;
        Write(card.(deleted := true), CardDeleted(c.cardId, card.listId), card.boardId, Deleted)
  }

  function Edited(card: Card, c: Command): Card
    requires c.UpdateCard?
  {
    card.(title := if c.newTitle.Some? then c.newTitle.value else card.title,
          description := if c.newDescription.Some? then c.newDescription else card.description,
          revision := card.revision + 1)
  }

  function DecideUpdate(db: Db, c: Command): Decision
    requires c.UpdateCard?
  {
    if c.mutationId in db.idempotency then Answer(Done(db.idempotency[c.mutationId], false))
    else
      var found := FindCard(db.cards, c.cardId, c.tenantId);
      if found.None? then Refuse(NotFound)
      else if found.value.tenantId != c.tenantId then Refuse(Forbidden)
      else if c.expectedRevision.Some? && c.expectedRevision.value != found.value.revision then Refuse(StaleRevision)
      else
        var card := found.value;
        Write(Edited(card, c), CardUpdated(c.cardId, card.listId, c.newTitle, c.newDescription), card.boardId, Updated)
  }

  /** The first expected list revision that does not hold, in the order they are given. */
  function RevisionCheck(lists: map<Id, CardList>, expected: seq<(Id, int)>, tenantId: Id): Option<Reason> {
    if expected == [] then None
    else
      var list := FindList(lists, expected[0].0, tenantId);
      if list.None? then Some(NotFound)
      else if list.value.revision != expected[0].1 then Some(StaleRevision)
      else RevisionCheck(lists, expected[1..], tenantId)
  }

  /** An empty neighbour id is falsy; a neighbour that is not found counts as absent. */
  function NeighbourPosition(cards: map<Id, Card>, id: Option<Id>, tenantId: Id): Option<Position> {
    if id.None? || id.value == "" then None
    else
      var found := FindCard(cards, id.value, tenantId);
      if found.Some? then Some(found.value.position) else None
  }

  /** The pure domain service: the card with its new list and position, or why not. */
  function MoveCardDomainService(card: Card, targetListId: Id, prev: Option<Position>, next: Option<Position>)
    : Result<Card, Reason>
  {
    match GeneratePosition(prev, next)
    case Ok(position) => Ok(card.(listId := targetListId, position := position))
    case Err(error) => Err(if error == Collision then CorruptedChain else InvalidRequestPayload)
  }

  function DecideMove(db: Db, c: Command): Decision
    requires c.MoveCard?
  {
    if c.now - c.issuedAt > COMMAND_TTL_MS + CLOCK_SKEW_MS then Refuse(CommandExpired)
    else if c.mutationId in db.idempotency then Answer(Done(db.idempotency[c.mutationId], true))
    else
      var card := FindCard(db.cards, c.cardId, c.tenantId);
      if card.None? then Refuse(NotFound)
      else if card.value.tenantId != c.tenantId then Refuse(Forbidden)
      else
        var target := FindList(db.lists, c.targetListId, c.tenantId);
        if target.None? then Refuse(NotFound)
        else if c.expectedAclVersion.Some?
                && AclVersion(db.aclVersions, target.value.boardId) != c.expectedAclVersion.value
        then Refuse(AclMismatch)
        else
          var stale := RevisionCheck(db.lists, c.expectedListRevisions, c.tenantId);
          if stale.Some? then Refuse(stale.value)
          else
            var placed := MoveCardDomainService(card.value, c.targetListId,
                                                NeighbourPosition(db.cards, c.prevId, c.tenantId),
                                                NeighbourPosition(db.cards, c.nextId, c.tenantId));
            if placed.Err? then Refuse(placed.error)
            else
              Write(placed.value,
                    CardMoved(c.cardId, card.value.listId, c.targetListId, placed.value.position),
                    target.value.boardId, Moved)
  }

  ghost function Decide(db: Db, c: Command): Decision {
    if c.CreateCard? then DecideCreate(db, c)
    else if c.MoveCard? then DecideMove(db, c)
    else if c.UpdateCard? then DecideUpdate(db, c)
    else DecideDelete(db, c)
  }

  // ---------------------------------------------------------------------------
  // What a command writes
  // ---------------------------------------------------------------------------

  /** The card a command is about. */
  function Subject(c: Command): Id {
    if c.CreateCard? then c.newId else c.cardId
  }

  /** The lists whose revision an event bumps: source before target, each once. */
  function TouchedLists(payload: Payload): seq<Id> {
    if !payload.CardMoved? then [payload.listId]
    else if payload.toListId == payload.fromListId then [payload.fromListId]
    else [payload.fromListId, payload.toListId]
  }

  predicate HaveLiveRows(lists: map<Id, CardList>, ids: seq<Id>) {
    forall i :: 0 <= i < |ids| ==> HasLiveList(lists, ids[i])
  }

  function BumpAll(lists: map<Id, CardList>, ids: seq<Id>): map<Id, CardList> {
    map l | l in lists :: if l in ids then lists[l].(revision := lists[l].revision + 1) else lists[l]
  }

  function RevisionsOf(lists: map<Id, CardList>, ids: seq<Id>): map<Id, int> {
    map l | l in lists && l in ids :: lists[l].revision
  }

  function ResponseTo(lists: map<Id, CardList>, payload: Payload, sequence: int, aclVersion: int): Response {
    if payload.CardMoved? then MoveResponse(sequence, RevisionsOf(lists, TouchedLists(payload)))
    else
      MutationResponse(payload.cardId, if payload.listId in lists then lists[payload.listId].revision else 0,
                       sequence, aclVersion)
  }

  /**
   The writes of a command, in order: card row, list revisions, board sequence, outbox row,
   audit row, idempotency row. A fault on the way leaves the state as it was.
   */
  function Commit(db: Db, c: Command, d: Decision): (Db, Outcome)
    requires d.Write?
  {
    if !d.row.deleted && PositionTaken(db.cards, d.row.listId, d.row.position, Subject(c)) then
      (db, Threw(DuplicatePosition))
    else if !HaveLiveRows(db.lists, TouchedLists(d.payload)) then (db, Threw(ListRowMissing))
    else
      var lists := BumpAll(db.lists, TouchedLists(d.payload));
      var sequence := LastSequence(db.sequences, d.boardId) + 1;
      var response := ResponseTo(lists, d.payload, sequence, AclVersion(db.aclVersions, d.boardId));
      (Db(db.cards[Subject(c) := d.row],
          lists,
          db.aclVersions,
          db.sequences[d.boardId := sequence],
          db.outbox + [OutboxEvent(d.boardId, sequence, d.payload)],
          db.audit + [AuditLog(c.userId, c.tenantId, d.action, Subject(c))],
          db.idempotency[c.mutationId := response]),
       Done(response, false))
  }

  ghost function Exec(db: Db, c: Command): (Db, Outcome) {
    var d := Decide(db, c);
    if d.Answer? then (db, d.outcome) else Commit(db, c, d)
  }

  ghost function Run(db: Db, commands: seq<Command>): Db
    decreases |commands|
  {
    if commands == [] then db else Run(Exec(db, commands[0]).0, commands[1..])
  }
}
