/**
 The card commands as the service runs them: repository writes one after the other on the
 tables, inside a transaction that restores the tables when something throws.
 */
module BoardServices {
  import opened Wrappers
  import opened Positions
  import opened Generator
  import opened BoardModel

  /** The tables, with the writes of the repositories. */
  class Database {
    var cards: map<Id, Card>
    var lists: map<Id, CardList>
    var aclVersions: map<Id, int>
    var sequences: map<Id, int>
    var outbox: seq<OutboxEvent>
    var audit: seq<AuditLog>
    var idempotency: map<Id, Response>

    function State(): Db
      reads this
    {
      Db(cards, lists, aclVersions, sequences, outbox, audit, idempotency)
    }

    /** Rolls the open transaction back. */
    method Restore(checkpoint: Db)
      modifies this
      ensures State() == checkpoint
    {
      cards, lists, aclVersions := checkpoint.cards, checkpoint.lists, checkpoint.aclVersions;
      sequences, outbox := checkpoint.sequences, checkpoint.outbox;
      audit, idempotency := checkpoint.audit, checkpoint.idempotency;
    }

    method InsertCard(card: Card) returns (fault: Option<Fault>)
      modifies this`cards
      ensures var taken := !card.deleted && PositionTaken(old(cards), card.listId, card.position, card.id);
              fault == if card.id in old(cards) then Some(DuplicateCardId)
                       else if taken then Some(DuplicatePosition)
                       else None
      ensures cards == if fault.Some? then old(cards) else old(cards)[card.id := card]
    {
      if card.id in cards {
        return Some(DuplicateCardId);
      }
      if !card.deleted && PositionTaken(cards, card.listId, card.position, card.id) {
        return Some(DuplicatePosition);
      }
      cards := cards[card.id := card];
      return None;
    }

    /** Writes list, title, description, position and revision if the row still has the expected revision. */
    method SaveCard(id: Id, entity: Card, expectedRevision: int) returns (saved: Result<bool, Fault>)
      modifies this`cards
      ensures var found := id in old(cards) && !old(cards)[id].deleted && old(cards)[id].revision == expectedRevision;
              saved == if !found then Ok(false)
                       else if PositionTaken(old(cards), entity.listId, entity.position, id) then Err(DuplicatePosition)
                       else Ok(true)
      ensures saved == Ok(true) ==>
                cards == old(cards)[id := old(cards)[id].(listId := entity.listId, title := entity.title,
                                                          description := entity.description,
                                                          position := entity.position,
                                                          revision := entity.revision)]
      ensures saved != Ok(true) ==> cards == old(cards)
    {
      if id !in cards || cards[id].deleted || cards[id].revision != expectedRevision {
        return Ok(false);
      }
      if PositionTaken(cards, entity.listId, entity.position, id) {
        return Err(DuplicatePosition);
      }
      cards := cards[id := cards[id].(listId := entity.listId, title := entity.title, description := entity.description,
                                      position := entity.position, revision := entity.revision)];
      return Ok(true);
    }

    method DeleteCard(id: Id)
      modifies this`cards
      ensures cards == if id in old(cards) then old(cards)[id := old(cards)[id].(deleted := true)] else old(cards)
    {
      if id in cards {
        cards := cards[id := cards[id].(deleted := true)];
      }
    }

    method IncrementRevision(listId: Id) returns (revision: Result<int, Fault>)
      modifies this`lists
      ensures revision.Ok? <==> HaveLiveRows(old(lists), [listId])
      ensures revision.Ok? ==>
                && listId in lists && lists == BumpAll(old(lists), [listId])
                && revision.value == lists[listId].revision
      ensures revision.Err? ==> lists == old(lists) && revision.error == ListRowMissing
    {
      assert [listId][0] == listId;
      if listId !in lists || lists[listId].deleted {
        return Err(ListRowMissing);
      }
      lists := lists[listId := lists[listId].(revision := lists[listId].revision + 1)];
      return Ok(lists[listId].revision);
    }

    /** Upserts the counter: 1 for a new board, otherwise one more. */
    method NextBoardSequence(boardId: Id) returns (sequence: int)
      modifies this`sequences
      ensures sequence == LastSequence(old(sequences), boardId) + 1
      ensures sequences == old(sequences)[boardId := sequence]
    {
      if boardId in sequences {
        sequences := sequences[boardId := sequences[boardId] + 1];
      } else {
        sequences := sequences[boardId := 1];
      }
      return sequences[boardId];
    }

    /** An event without a sequence is stored with 0. */
    method AppendOutbox(boardId: Id, sequence: Option<int>, payload: Payload)
      modifies this`outbox
      ensures outbox == old(outbox) + [OutboxEvent(boardId, if sequence.Some? then sequence.value else 0, payload)]
    {
      outbox := outbox + [OutboxEvent(boardId, if sequence.Some? then sequence.value else 0, payload)];
    }

    method AppendAudit(log: AuditLog)
      modifies this`audit
      ensures audit == old(audit) + [log]
    {
      audit := audit + [log];
    }

    /** Inserts under a primary key. */
    method SaveIdempotency(mutationId: Id, response: Response) returns (fault: Option<Fault>)
      modifies this`idempotency
      ensures fault == if mutationId in old(idempotency) then Some(DuplicateMutation) else None
      ensures idempotency == if fault.Some? then old(idempotency) else old(idempotency)[mutationId := response]
    {
      if mutationId in idempotency {
        return Some(DuplicateMutation);
      }
      idempotency := idempotency[mutationId := response];
      return None;
    }
  }

  lemma BumpTwice(lists: map<Id, CardList>, source: Id, target: Id)
    requires source != target
    ensures HaveLiveRows(lists, [source, target]) <==> HaveLiveRows(lists, [source]) && HaveLiveRows(lists, [target])
    ensures BumpAll(BumpAll(lists, [source]), [target]) == BumpAll(lists, [source, target])
    ensures HaveLiveRows(BumpAll(lists, [source]), [target]) <==> HaveLiveRows(lists, [target])
    ensures source in lists && target in lists ==>
              RevisionsOf(BumpAll(lists, [source, target]), [source, target]) ==
              map[source := BumpAll(lists, [source])[source].revision]
                 [target := BumpAll(BumpAll(lists, [source]), [target])[target].revision]
  {
    assert [source, target][0] == source && [source, target][1] == target && [source][0] == source
           && [target][0] == target;
  }

  class BoardService {
    const db: Database

    constructor (db: Database)
      ensures this.db == db
    {
      this.db := db;
    }

    /**
     What create, update and delete do after the card row: bump the list, number, log and
     remember. A missing list row throws before anything of this is written.
     */
    method Complete(c: Command, listId: Id, boardId: Id, payload: Payload, action: AuditAction)
        returns (outcome: Outcome)
      requires !payload.CardMoved? && payload.listId == listId && payload.cardId == Subject(c)
      requires c.mutationId !in db.idempotency
      modifies db
      ensures db.cards == old(db.cards) && db.aclVersions == old(db.aclVersions)
      ensures !HaveLiveRows(old(db.lists), [listId]) ==>
                db.State() == old(db.State()) && outcome == Threw(ListRowMissing)
      ensures HaveLiveRows(old(db.lists), [listId]) ==>
                var sequence := LastSequence(old(db.sequences), boardId) + 1;
                && db.lists == BumpAll(old(db.lists), [listId])
                && db.sequences == old(db.sequences)[boardId := sequence]
                && db.outbox == old(db.outbox) + [OutboxEvent(boardId, sequence, payload)]
                && db.audit == old(db.audit) + [AuditLog(c.userId, c.tenantId, action, Subject(c))]
                && outcome == Done(ResponseTo(db.lists, payload, sequence, AclVersion(db.aclVersions, boardId)), false)
                && db.idempotency == old(db.idempotency)[c.mutationId := outcome.response]
    {
      var listRevision := db.IncrementRevision(listId);
      if listRevision.Err? {
        return Threw(listRevision.error);
      }
      var aclVersion := AclVersion(db.aclVersions, boardId);
      var boardSequence := LogEvent(c, boardId, payload, action);
      var response := MutationResponse(Subject(c), listRevision.value, boardSequence, aclVersion);
      // The key was looked up in this transaction and not found, so this cannot fail.
      var _ := db.SaveIdempotency(c.mutationId, response);
      return Done(response, false);
    }

    /** `last` is the answer of the query for the last card of the list. */
    method CreateCard(c: Command, last: Option<Position>) returns (outcome: Outcome)
      requires c.CreateCard?
      requires last == LastPosition(db.cards, c.listId, c.tenantId)
      modifies db
      ensures (db.State(), outcome) == Exec(old(db.State()), c)
    {
      if c.mutationId in db.idempotency {
        return Done(db.idempotency[c.mutationId], false);
      }
      var list := FindList(db.lists, c.listId, c.tenantId);
      if list.None? {
        return Refused(NotFound);
      }
      if list.value.tenantId != c.tenantId {
        return Refused(Forbidden);
      }
      var position := GeneratePosition(last, None);
      if position.Err? {
        return Threw(PositionFault(position.error));
      }
      var boardId := list.value.boardId;
      var card := Card(c.newId, c.tenantId, boardId, c.listId, c.title, c.description, position.value, 1, false);
      var fault := db.InsertCard(card);
      if fault.Some? {
        return Threw(fault.value);
      }
      // The list was read live in this transaction, so its row is still there.
      outcome := Complete(c, c.listId, boardId, CardCreated(c.newId, c.listId, c.title, position.value), Created);
    }

    method DeleteCard(c: Command) returns (outcome: Outcome)
      requires c.DeleteCard?
      modifies db
      ensures (db.State(), outcome) == Exec(old(db.State()), c)
    {
      var checkpoint := db.State();
      if c.mutationId in db.idempotency {
        return Done(db.idempotency[c.mutationId], false);
      }
      var found := FindCard(db.cards, c.cardId, c.tenantId);
      if found.None? {
        return Refused(NotFound);
      }
      var card := found.value;
      if card.tenantId != c.tenantId {
        return Refused(Forbidden);
      }
      db.DeleteCard(c.cardId);
      outcome := Complete(c, card.listId, card.boardId, CardDeleted(c.cardId, card.listId), Deleted);
      if outcome.Threw? {
        db.Restore(checkpoint);
      }
    }

    method UpdateCard(c: Command) returns (outcome: Outcome)
      requires c.UpdateCard?
      modifies db
      ensures (db.State(), outcome) == Exec(old(db.State()), c)
    {
      var checkpoint := db.State();
      if c.mutationId in db.idempotency {
        return Done(db.idempotency[c.mutationId], false);
      }
      var found := FindCard(db.cards, c.cardId, c.tenantId);
      if found.None? {
        return Refused(NotFound);
      }
      var card := found.value;
      if card.tenantId != c.tenantId {
        return Refused(Forbidden);
      }
      if c.expectedRevision.Some? && c.expectedRevision.value != card.revision {
        return Refused(StaleRevision);
      }
      var saved := db.SaveCard(c.cardId, Edited(card, c), card.revision);
      if saved.Err? {
        return Threw(saved.error);
      }
      if !saved.value {
        return Refused(StaleRevision);
      }
      var payload := CardUpdated(c.cardId, card.listId, c.newTitle, c.newDescription);
      outcome := Complete(c, card.listId, card.boardId, payload, Updated);
      if outcome.Threw? {
        db.Restore(checkpoint);
      }
    }

    /** Checks the expected list revisions one by one. */
    method CheckRevisions(expected: seq<(Id, int)>, tenantId: Id) returns (stale: Option<Reason>)
      ensures stale == RevisionCheck(db.lists, expected, tenantId)
    {
      for i := 0 to |expected|
        invariant RevisionCheck(db.lists, expected, tenantId) == RevisionCheck(db.lists, expected[i..], tenantId)
      {
        assert expected[i..][1..] == expected[i + 1..];
        var list := FindList(db.lists, expected[i].0, tenantId);
        if list.None? {
          return Some(NotFound);
        }
        if list.value.revision != expected[i].1 {
          return Some(StaleRevision);
        }
      }
      return None;
    }

    /** The reads of a move: every guard, the neighbours, and the domain service. */
    method PrepareMove(c: Command) returns (d: Decision)
      requires c.MoveCard?
      ensures d == DecideMove(db.State(), c)
    {
      if c.now - c.issuedAt > COMMAND_TTL_MS + CLOCK_SKEW_MS {
        return Refuse(CommandExpired);
      }
      if c.mutationId in db.idempotency {
        return Answer(Done(db.idempotency[c.mutationId], true));
      }
      var found := FindCard(db.cards, c.cardId, c.tenantId);
      if found.None? {
        return Refuse(NotFound);
      }
      var card := found.value;
      if card.tenantId != c.tenantId {
        return Refuse(Forbidden);
      }
      var target := FindList(db.lists, c.targetListId, c.tenantId);
      if target.None? {
        return Refuse(NotFound);
      }
      var boardId := target.value.boardId;
      if c.expectedAclVersion.Some? && AclVersion(db.aclVersions, boardId) != c.expectedAclVersion.value {
        return Refuse(AclMismatch);
      }
      var stale := CheckRevisions(c.expectedListRevisions, c.tenantId);
      if stale.Some? {
        return Refuse(stale.value);
      }
      var prev := NeighbourPosition(db.cards, c.prevId, c.tenantId);
      var next := NeighbourPosition(db.cards, c.nextId, c.tenantId);
      var placed := MoveCardDomainService(card, c.targetListId, prev, next);
      if placed.Err? {
        return Refuse(placed.error);
      }
      var payload := CardMoved(c.cardId, card.listId, c.targetListId, placed.value.position);
      return Write(placed.value, payload, boardId, Moved);
    }

    method MoveCard(c: Command) returns (outcome: Outcome)
      requires c.MoveCard?
      modifies db
      ensures (db.State(), outcome) == Exec(old(db.State()), c)
    {
      var checkpoint := db.State();
      var d := PrepareMove(c);
      if d.Answer? {
        return d.outcome;
      }
      var card := db.cards[c.cardId];
      var saved := db.SaveCard(c.cardId, d.row, card.revision);
      if saved.Err? {
        return Threw(saved.error);
      }
      if !saved.value {
        return Refused(StaleRevision);
      }
      outcome := CompleteMove(c, d.payload, d.boardId);
      if outcome.Threw? {
        db.Restore(checkpoint);
      }
    }

    /** What a move does after the card row; only the source list can be missing. */
    method CompleteMove(c: Command, payload: Payload, boardId: Id) returns (outcome: Outcome)
      requires payload.CardMoved? && HasLiveList(db.lists, payload.toListId) && c.mutationId !in db.idempotency
      modifies db
      ensures db.cards == old(db.cards) && db.aclVersions == old(db.aclVersions)
      ensures !HaveLiveRows(old(db.lists), TouchedLists(payload)) ==>
                db.State() == old(db.State()) && outcome == Threw(ListRowMissing)
      ensures HaveLiveRows(old(db.lists), TouchedLists(payload)) ==>
                var sequence := LastSequence(old(db.sequences), boardId) + 1;
                && db.lists == BumpAll(old(db.lists), TouchedLists(payload))
                && db.sequences == old(db.sequences)[boardId := sequence]
                && db.outbox == old(db.outbox) + [OutboxEvent(boardId, sequence, payload)]
                && db.audit == old(db.audit) + [AuditLog(c.userId, c.tenantId, Moved, Subject(c))]
                && outcome == Done(MoveResponse(sequence, RevisionsOf(db.lists, TouchedLists(payload))), false)
                && db.idempotency == old(db.idempotency)[c.mutationId := outcome.response]
    {
      var revisions := BumpLists(payload.fromListId, payload.toListId);
      if revisions.Err? {
        return Threw(revisions.error);
      }
      var boardSequence := LogEvent(c, boardId, payload, Moved);
      var response := MoveResponse(boardSequence, revisions.value);
      // The key was looked up in this transaction and not found, so this cannot fail.
      var _ := db.SaveIdempotency(c.mutationId, response);
      return Done(response, false);
    }

    /** Bumps the source list, then the target list if it is another one. */
    method BumpLists(source: Id, target: Id) returns (revisions: Result<map<Id, int>, Fault>)
      requires HasLiveList(db.lists, target)
      modifies db`lists
      ensures var touched := if target == source then [source] else [source, target];
              if HaveLiveRows(old(db.lists), touched)
              then db.lists == BumpAll(old(db.lists), touched) && revisions == Ok(RevisionsOf(db.lists, touched))
              else db.lists == old(db.lists) && revisions == Err(ListRowMissing)
    {
      if source != target {
        BumpTwice(db.lists, source, target);
      }
      assert HaveLiveRows(db.lists, [target]);
      var newSourceRevision := db.IncrementRevision(source);
      if newSourceRevision.Err? {
        return Err(newSourceRevision.error);
      }
      var updatedListRevisions := map[source := newSourceRevision.value];
      assert updatedListRevisions == RevisionsOf(db.lists, [source]);
      if target != source {
        var newTargetRevision := db.IncrementRevision(target);
        updatedListRevisions := updatedListRevisions[target := newTargetRevision.value];
      }
      return Ok(updatedListRevisions);
    }

    /** Numbers an event and appends it with its audit row. */
    method LogEvent(c: Command, boardId: Id, payload: Payload, action: AuditAction) returns (sequence: int)
      modifies db`sequences, db`outbox, db`audit
      ensures sequence == LastSequence(old(db.sequences), boardId) + 1
      ensures db.sequences == old(db.sequences)[boardId := sequence]
      ensures db.outbox == old(db.outbox) + [OutboxEvent(boardId, sequence, payload)]
      ensures db.audit == old(db.audit) + [AuditLog(c.userId, c.tenantId, action, Subject(c))]
    {
      sequence := db.NextBoardSequence(boardId);
      db.AppendOutbox(boardId, Some(sequence), payload);
      db.AppendAudit(AuditLog(c.userId, c.tenantId, action, Subject(c)));
    }
  }
}
