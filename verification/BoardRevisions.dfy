/**
 Optimistic concurrency over whole runs: revisions count the commands that touched a list or
 edited a card, so a command is refused as stale exactly if one of them came in between.
 */
module BoardRevisions {
  import opened Wrappers
  import opened BoardModel
  import opened BoardRuns

  ghost predicate TouchesList(db: Db, c: Command, listId: Id) {
    Succeeds(db, c) && Decide(db, c).Write? && listId in TouchedLists(Decide(db, c).payload)
  }

  ghost predicate EditsCard(db: Db, c: Command, cardId: Id) {
    Succeeds(db, c) && c.UpdateCard? && c.cardId == cardId
  }

  /** How many commands of a run succeed and touch the list. */
  ghost function Touches(db: Db, commands: seq<Command>, listId: Id): nat
    decreases |commands|
  {
    if commands == [] then 0
    else
      var rest := Touches(Exec(db, commands[0]).0, commands[1..], listId);
      rest + if TouchesList(db, commands[0], listId) then 1 else 0
  }

  /** How many commands of a run succeed in updating the card. */
  ghost function Edits(db: Db, commands: seq<Command>, cardId: Id): nat
    decreases |commands|
  {
    if commands == [] then 0
    else
      var rest := Edits(Exec(db, commands[0]).0, commands[1..], cardId);
      rest + if EditsCard(db, commands[0], cardId) then 1 else 0
  }

  /** What one command does to a list row: at most its revision changes. */
  lemma ListStep(db: Db, c: Command, listId: Id)
    requires listId in db.lists
    ensures listId in Exec(db, c).0.lists
    ensures Exec(db, c).0.lists[listId] ==
            db.lists[listId].(revision := db.lists[listId].revision + if TouchesList(db, c, listId) then 1 else 0)
  {
    if Succeeds(db, c) {
      FirstSuccessFrame(db, c);
    } else {
      OnlyFirstSuccessWrites(db, c);
    }
  }

  /** Cards are never removed, and only an update raises a card's revision. */
  lemma CardStep(db: Db, c: Command, cardId: Id)
    requires cardId in db.cards
    ensures cardId in Exec(db, c).0.cards
    ensures Exec(db, c).0.cards[cardId].revision ==
            db.cards[cardId].revision + if EditsCard(db, c, cardId) then 1 else 0
  {
    if Succeeds(db, c) {
      FirstSuccessFrame(db, c);
      DecisionReads(db, c);
    } else {
      OnlyFirstSuccessWrites(db, c);
    }
  }

  /** Over every run a list's revision grows by exactly the number of commands that touched it. */
  lemma {:induction false} ListRevisionCounts(db: Db, commands: seq<Command>, listId: Id)
    requires listId in db.lists
    ensures listId in Run(db, commands).lists
    ensures Run(db, commands).lists[listId] ==
            db.lists[listId].(revision := db.lists[listId].revision + Touches(db, commands, listId))
    decreases |commands|
  {
    if commands != [] {
      ListStep(db, commands[0], listId);
      ListRevisionCounts(Exec(db, commands[0]).0, commands[1..], listId);
    }
  }

  /** A card's revision grows by exactly the number of its updates; moves do not count. */
  lemma {:induction false} CardRevisionCounts(db: Db, commands: seq<Command>, cardId: Id)
    requires cardId in db.cards
    ensures cardId in Run(db, commands).cards
    ensures Run(db, commands).cards[cardId].revision == db.cards[cardId].revision + Edits(db, commands, cardId)
    decreases |commands|
  {
    if commands != [] {
      CardStep(db, commands[0], cardId);
      CardRevisionCounts(Exec(db, commands[0]).0, commands[1..], cardId);
    }
  }

  /**
   An update that expects the revision of an earlier state, and finds its card in a later one,
   is refused as stale if and only if the card was updated in between.
   */
  lemma UpdateStaleIffEdited(db: Db, between: seq<Command>, c: Command)
    requires c.UpdateCard? && c.cardId in db.cards && c.expectedRevision == Some(db.cards[c.cardId].revision)
    requires FirstTime(Run(db, between), c)
    requires FindCard(Run(db, between).cards, c.cardId, c.tenantId).Some?
    requires Run(db, between).cards[c.cardId].tenantId == c.tenantId
    ensures Exec(Run(db, between), c).1 == Refused(StaleRevision) <==> Edits(db, between, c.cardId) > 0
  {
    CardRevisionCounts(db, between, c.cardId);
  }

  /** Of two updates that expect the same revision at most one ever succeeds. */
  lemma NoLostUpdate(db: Db, first: Command, between: seq<Command>, second: Command)
    requires first.UpdateCard? && second.UpdateCard? && first.cardId == second.cardId
    requires first.expectedRevision.Some? && second.expectedRevision == first.expectedRevision
    requires Succeeds(db, first)
    ensures !Succeeds(Run(Exec(db, first).0, between), second)
  {
    FirstSuccessFrame(db, first);
    DecisionReads(db, first);
    CardStep(db, first, first.cardId);
    CardRevisionCounts(Exec(db, first).0, between, first.cardId);
  }

  // ---------------------------------------------------------------------------
  // Moves
  // ---------------------------------------------------------------------------

  ghost predicate Reads(lists: map<Id, CardList>, expected: seq<(Id, int)>, tenantId: Id) {
    forall i :: 0 <= i < |expected| ==>
      FindList(lists, expected[i].0, tenantId).Some? && lists[expected[i].0].revision == expected[i].1
  }

  /** The loop over the expected revisions passes exactly if all of them hold. */
  lemma {:induction false} RevisionCheckIff(lists: map<Id, CardList>, expected: seq<(Id, int)>, tenantId: Id)
    ensures RevisionCheck(lists, expected, tenantId).None? <==> Reads(lists, expected, tenantId)
    decreases |expected|
  {
    if expected != [] {
      RevisionCheckIff(lists, expected[1..], tenantId);
      if Reads(lists, expected[1..], tenantId) {
        assert forall i :: 1 <= i < |expected| ==> expected[i] == expected[1..][i - 1];
      } else {
        var i :| 0 <= i < |expected[1..]|
                 && !(FindList(lists, expected[1..][i].0, tenantId).Some?
                      && lists[expected[1..][i].0].revision == expected[1..][i].1);
        assert expected[i + 1] == expected[1..][i];
      }
    }
  }

  /** If all lists are found, the only reason to refuse is a stale revision. */
  lemma {:induction false} FoundMeansStale(lists: map<Id, CardList>, expected: seq<(Id, int)>, tenantId: Id)
    requires forall i :: 0 <= i < |expected| ==> FindList(lists, expected[i].0, tenantId).Some?
    ensures RevisionCheck(lists, expected, tenantId).Some? ==>
            RevisionCheck(lists, expected, tenantId).value == StaleRevision
    decreases |expected|
  {
    if expected != [] {
      FoundMeansStale(lists, expected[1..], tenantId);
    }
  }

  /** Every guard of a move before the list revisions lets it pass. */
  ghost predicate ReachesRevisionCheck(db: Db, c: Command)
    requires c.MoveCard?
  {
    && c.now - c.issuedAt <= COMMAND_TTL_MS + CLOCK_SKEW_MS
    && FirstTime(db, c)
    && FindCard(db.cards, c.cardId, c.tenantId).Some? && db.cards[c.cardId].tenantId == c.tenantId
    && FindList(db.lists, c.targetListId, c.tenantId).Some?
    && (c.expectedAclVersion.Some? ==>
         AclVersion(db.aclVersions, db.lists[c.targetListId].boardId) == c.expectedAclVersion.value)
  }

  lemma RefusedByRevisions(db: Db, c: Command)
    requires c.MoveCard? && ReachesRevisionCheck(db, c)
    requires forall i :: 0 <= i < |c.expectedListRevisions| ==>
             FindList(db.lists, c.expectedListRevisions[i].0, c.tenantId).Some?
    ensures Exec(db, c).1 == Refused(StaleRevision) <==> !Reads(db.lists, c.expectedListRevisions, c.tenantId)
  {
    RevisionCheckIff(db.lists, c.expectedListRevisions, c.tenantId);
    FoundMeansStale(db.lists, c.expectedListRevisions, c.tenantId);
  }

  /**
   A move that expects the list revisions of an earlier state is refused as stale if and only
   if a command that succeeded in between touched one of those lists.
   */
  lemma MoveStaleIffTouched(db: Db, between: seq<Command>, c: Command)
    requires c.MoveCard? && Reads(db.lists, c.expectedListRevisions, c.tenantId)
    requires ReachesRevisionCheck(Run(db, between), c)
    ensures Exec(Run(db, between), c).1 == Refused(StaleRevision) <==>
            exists i :: 0 <= i < |c.expectedListRevisions| && Touches(db, between, c.expectedListRevisions[i].0) > 0
  {
    var db' := Run(db, between);
    var expected := c.expectedListRevisions;
    forall i | 0 <= i < |expected|
      ensures FindList(db'.lists, expected[i].0, c.tenantId).Some?
      ensures db'.lists[expected[i].0].revision == expected[i].1 + Touches(db, between, expected[i].0)
    {
      ListRevisionCounts(db, between, expected[i].0);
    }
    RefusedByRevisions(db', c);
  }
}
