/**
 The order of the cards on a board: the positions in the database refine plain lists of card
 ids, on which creating appends, deleting removes and moving takes out and puts in.
 */
module BoardOrder {
  import opened Wrappers
  import opened Positions
  import opened Midpoints
  import opened Generator
  import opened Rebalance
  import opened BoardModel
  import opened BoardRuns
  import opened BoardRevisions

  /** For each list, its cards from top to bottom. */
  type Lanes = map<Id, seq<Id>>

  function Lane(lanes: Lanes, listId: Id): seq<Id> {
    if listId in lanes then lanes[listId] else []
  }

  function Without(lane: seq<Id>, id: Id): seq<Id> {
    if lane == [] then []
    else if lane[0] == id then Without(lane[1..], id)
    else [lane[0]] + Without(lane[1..], id)
  }

  function PutAt(lane: seq<Id>, i: nat, id: Id): seq<Id>
    requires i <= |lane|
  {
    lane[..i] + [id] + lane[i..]
  }

  ghost predicate Ascends(cards: map<Id, Card>, lane: seq<Id>) {
    && (forall i :: 0 <= i < |lane| ==> lane[i] in cards)
    && forall i, j :: 0 <= i < j < |lane| ==> Less(cards[lane[i]].position, cards[lane[j]].position)
  }

  ghost predicate HoldsLiveCards(cards: map<Id, Card>, listId: Id, lane: seq<Id>) {
    forall id :: id in lane <==> id in cards && LiveIn(cards[id], listId)
  }

  /** Reading the list's live cards ordered by position gives exactly this lane. */
  ghost predicate IsLane(cards: map<Id, Card>, listId: Id, lane: seq<Id>) {
    HoldsLiveCards(cards, listId, lane) && Ascends(cards, lane)
  }

  /** A live card has a well-placed position and the tenant of its list. */
  ghost predicate Settled(db: Db) {
    && "" !in db.cards
    && forall id :: id in db.cards && !db.cards[id].deleted ==>
         && WellPlaced(db.cards[id].position)
         && db.cards[id].listId in db.lists
         && db.lists[db.cards[id].listId].tenantId == db.cards[id].tenantId
  }

  /** The database refines the lanes. */
  ghost predicate Refines(db: Db, lanes: Lanes) {
    Settled(db) && forall l :: IsLane(db.cards, l, Lane(lanes, l))
  }

  // ---------------------------------------------------------------------------
  // Commands on lanes
  // ---------------------------------------------------------------------------

  /** What an event means for the lanes; a moved card is put at index `i`. */
  function AfterEvent(lanes: Lanes, payload: Payload, i: nat): Lanes {
    match payload
    case CardCreated(id, l, _, _) => lanes[l := Lane(lanes, l) + [id]]
    case CardDeleted(id, l) => lanes[l := Without(Lane(lanes, l), id)]
    case CardUpdated(_, _, _, _) => lanes
    case CardMoved(id, from, target, _) =>
      var others := Without(Lane(lanes, target), id);
      if i <= |others| then lanes[from := Without(Lane(lanes, from), id)][target := PutAt(others, i, id)] else lanes
  }

  function At(lane: seq<Id>, i: int): Option<Id> {
    if 0 <= i < |lane| then Some(lane[i]) else None
  }

  /**
   A move names the true neighbours at index `i` of the target lane without the moved card.
   Tenant and card ids are UUIDs, so they are not empty.
   */
  predicate Aligned(lanes: Lanes, c: Command, i: nat) {
    && c.tenantId != ""
    && (c.CreateCard? ==> c.newId != "")
    && (c.MoveCard? ==>
          var others := Without(Lane(lanes, c.targetListId), c.cardId);
          i <= |others| && c.prevId == At(others, i - 1) && c.nextId == At(others, i))
  }

  // ---------------------------------------------------------------------------
  // Lanes under one written row
  // ---------------------------------------------------------------------------

  lemma {:induction false} WithoutMembers(lane: seq<Id>, id: Id)
    ensures forall x :: x in Without(lane, id) <==> x in lane && x != id
    ensures id !in lane ==> Without(lane, id) == lane
    decreases |lane|
  {
    if lane != [] {
      WithoutMembers(lane[1..], id);
      assert lane == [lane[0]] + lane[1..];
    }
  }

  lemma {:induction false} WithoutAscends(cards: map<Id, Card>, lane: seq<Id>, id: Id)
    requires Ascends(cards, lane)
    ensures Ascends(cards, Without(lane, id))
    decreases |lane|
  {
    if lane != [] {
      var rest := Without(lane[1..], id);
      WithoutAscends(cards, lane[1..], id);
      WithoutMembers(lane[1..], id);
      forall k | 0 <= k < |rest|
        ensures Less(cards[lane[0]].position, cards[rest[k]].position)
      {
        assert rest[k] in lane[1..];
        var j :| 0 <= j < |lane[1..]| && lane[1..][j] == rest[k];
        assert rest[k] == lane[j + 1];
      }
      HeadAscends(cards, lane[0], rest);
    }
  }

  lemma HeadAscends(cards: map<Id, Card>, id: Id, rest: seq<Id>)
    requires id in cards && Ascends(cards, rest)
    requires forall k :: 0 <= k < |rest| ==> Less(cards[id].position, cards[rest[k]].position)
    ensures Ascends(cards, [id] + rest)
  {
  }

  /** A row that is not live in the list leaves the lane without that card. */
  lemma RowElsewhere(cards: map<Id, Card>, listId: Id, lane: seq<Id>, id: Id, row: Card)
    requires IsLane(cards, listId, lane) && !LiveIn(row, listId)
    ensures IsLane(cards[id := row], listId, Without(lane, id))
  {
    WithoutMembers(lane, id);
    WithoutAscends(cards, lane, id);
  }

  /** The lane with a card put in reads off as before, with the new card at its index. */
  lemma PutAtElements(lane: seq<Id>, i: nat, id: Id)
    requires i <= |lane|
    ensures var s := PutAt(lane, i, id);
            && |s| == |lane| + 1
            && (forall j :: 0 <= j < |s| ==> s[j] == if j < i then lane[j] else if j == i then id else lane[j - 1])
            && (forall x :: x in s <==> x == id || x in lane)
  {
    var s := PutAt(lane, i, id);
    forall x | x in lane
      ensures x in s
    {
      var j :| 0 <= j < |lane| && lane[j] == x;
      assert s[if j < i then j else j + 1] == x;
    }
    assert s[i] == id;
  }

  lemma PutAtAscends(cards: map<Id, Card>, lane: seq<Id>, i: nat, id: Id, row: Card)
    requires Ascends(cards, lane) && i <= |lane| && id !in lane
    requires forall j :: 0 <= j < i ==> Less(cards[lane[j]].position, row.position)
    requires forall j :: i <= j < |lane| ==> Less(row.position, cards[lane[j]].position)
    ensures Ascends(cards[id := row], PutAt(lane, i, id))
  {
    PutAtElements(lane, i, id);
    assert forall j :: 0 <= j < |lane| ==> lane[j] in lane && cards[id := row][lane[j]] == cards[lane[j]];
  }

  /** A row whose position fits at index `i` extends the lane there. */
  lemma RowPutAt(cards: map<Id, Card>, listId: Id, lane: seq<Id>, i: nat, id: Id, row: Card)
    requires Ascends(cards, lane) && i <= |lane| && LiveIn(row, listId)
    requires forall x :: x in lane <==> x in cards && x != id && LiveIn(cards[x], listId)
    requires forall j :: 0 <= j < i ==> Less(cards[lane[j]].position, row.position)
    requires forall j :: i <= j < |lane| ==> Less(row.position, cards[lane[j]].position)
    ensures IsLane(cards[id := row], listId, PutAt(lane, i, id))
  {
    PutAtElements(lane, i, id);
    PutAtAscends(cards, lane, i, id, row);
  }

  /** A row with the same place keeps every lane. */
  lemma RowInPlace(cards: map<Id, Card>, listId: Id, lane: seq<Id>, id: Id, row: Card)
    requires IsLane(cards, listId, lane) && id in cards
    requires row.listId == cards[id].listId && row.deleted == cards[id].deleted && row.position == cards[id].position
    ensures IsLane(cards[id := row], listId, lane)
  {
  }

  // ---------------------------------------------------------------------------
  // Neighbours of the new position
  // ---------------------------------------------------------------------------

  ghost predicate FitsAt(cards: map<Id, Card>, lane: seq<Id>, i: nat, p: Position)
    requires Ascends(cards, lane) && i <= |lane|
  {
    && (forall j :: 0 <= j < i ==> Less(cards[lane[j]].position, p))
    && (forall j :: i <= j < |lane| ==> Less(p, cards[lane[j]].position))
  }

  function PositionAt(cards: map<Id, Card>, lane: seq<Id>, i: int): Option<Position>
    requires forall j :: 0 <= j < |lane| ==> lane[j] in cards
  {
    if 0 <= i < |lane| then Some(cards[lane[i]].position) else None
  }

  lemma BetweenNeighboursFits(cards: map<Id, Card>, lane: seq<Id>, i: nat, p: Position)
    requires Ascends(cards, lane) && i <= |lane|
    requires Between(PositionAt(cards, lane, i - 1), p, PositionAt(cards, lane, i))
    ensures FitsAt(cards, lane, i, p)
  {
    forall j | 0 <= j < i
      ensures Less(cards[lane[j]].position, p)
    {
      if j < i - 1 {
        LessIsTransitive(cards[lane[j]].position, cards[lane[i - 1]].position, p);
      }
    }
    forall j | i <= j < |lane|
      ensures Less(p, cards[lane[j]].position)
    {
      if i < j {
        LessIsTransitive(p, cards[lane[i]].position, cards[lane[j]].position);
      }
    }
  }

  /** A position between the neighbours at an index lies between all cards above and below. */
  lemma GeneratedFits(cards: map<Id, Card>, lane: seq<Id>, i: nat)
    requires Ascends(cards, lane) && i <= |lane|
    requires forall j :: 0 <= j < |lane| ==> WellPlaced(cards[lane[j]].position)
    ensures var r := GeneratePosition(PositionAt(cards, lane, i - 1), PositionAt(cards, lane, i));
            && (r.Ok? ==> WellPlaced(r.value) && FitsAt(cards, lane, i, r.value))
            && (r.Err? ==> r.error == Collision)
  {
    var prev, next := PositionAt(cards, lane, i - 1), PositionAt(cards, lane, i);
    GenerateBetween(prev, next);
    var r := GeneratePosition(prev, next);
    if r.Ok? {
      BetweenNeighboursFits(cards, lane, i, r.value);
    }
  }

  /** A position that fits into the lane is not taken by any other card of the list. */
  lemma FittingIsFree(cards: map<Id, Card>, listId: Id, lane: seq<Id>, i: nat, id: Id, p: Position)
    requires Ascends(cards, lane) && i <= |lane| && FitsAt(cards, lane, i, p)
    requires forall x :: x in lane <==> x in cards && x != id && LiveIn(cards[x], listId)
    ensures !PositionTaken(cards, listId, p, id)
  {
    forall x | x in cards && x != id && LiveIn(cards[x], listId)
      ensures cards[x].position != p
    {
      var j :| 0 <= j < |lane| && lane[j] == x;
      if j < i {
        LessIsAsymmetric(cards[x].position, p);
      } else {
        LessIsAsymmetric(p, cards[x].position);
      }
    }
  }

  /** The service finds the neighbours that the command names. */
  lemma NeighbourFound(db: Db, listId: Id, lane: seq<Id>, i: int, tenantId: Id)
    requires Settled(db) && listId in db.lists && TenantMatches(db.lists[listId].tenantId, tenantId)
    requires forall j :: 0 <= j < |lane| ==> lane[j] in db.cards && LiveIn(db.cards[lane[j]], listId)
    ensures NeighbourPosition(db.cards, At(lane, i), tenantId) == PositionAt(db.cards, lane, i)
  {
  }

  /** The last row of the list is the end of its lane. */
  lemma LastIsEndOfLane(db: Db, listId: Id, lane: seq<Id>)
    requires Settled(db) && listId in db.lists && IsLane(db.cards, listId, lane)
    ensures LastPosition(db.cards, listId, db.lists[listId].tenantId) == PositionAt(db.cards, lane, |lane| - 1)
  {
    var tenantId := db.lists[listId].tenantId;
    if lane != [] {
      var last := lane[|lane| - 1];
      forall other | other in db.cards && other != last && LiveIn(db.cards[other], listId)
        ensures Less(db.cards[other].position, db.cards[last].position)
      {
        var j :| 0 <= j < |lane| && lane[j] == other;
      }
      assert last in lane;
      assert IsLast(db.cards, listId, tenantId, last);
      forall id | IsLast(db.cards, listId, tenantId, id)
        ensures id == last
      {
        if id != last {
          LessIsAsymmetric(db.cards[id].position, db.cards[last].position);
        }
      }
    } else {
      assert forall id :: id in db.cards && LiveIn(db.cards[id], listId) ==> id in lane;
    }
  }

  // ---------------------------------------------------------------------------
  // Refinement
  // ---------------------------------------------------------------------------

  /** The target lane without the card, as the move finds it. */
  lemma TargetLane(db: Db, lanes: Lanes, c: Command, i: nat)
    requires Refines(db, lanes) && Aligned(lanes, c, i) && c.MoveCard?
    requires FindList(db.lists, c.targetListId, c.tenantId).Some?
    ensures var others := Without(Lane(lanes, c.targetListId), c.cardId);
            && (forall x :: x in others <==> x in db.cards && x != c.cardId && LiveIn(db.cards[x], c.targetListId))
            && Ascends(db.cards, others)
            && (forall j :: 0 <= j < |others| ==> WellPlaced(db.cards[others[j]].position))
            && NeighbourPosition(db.cards, c.prevId, c.tenantId) == PositionAt(db.cards, others, i - 1)
            && NeighbourPosition(db.cards, c.nextId, c.tenantId) == PositionAt(db.cards, others, i)
  {
    var lane := Lane(lanes, c.targetListId);
    var others := Without(lane, c.cardId);
    assert IsLane(db.cards, c.targetListId, lane);
    WithoutMembers(lane, c.cardId);
    WithoutAscends(db.cards, lane, c.cardId);
    assert forall j :: 0 <= j < |others| ==> others[j] in others;
    NeighbourFound(db, c.targetListId, others, i - 1, c.tenantId);
    NeighbourFound(db, c.targetListId, others, i, c.tenantId);
  }

  lemma MoveDecision(db: Db, lanes: Lanes, c: Command, i: nat)
    requires Refines(db, lanes) && Aligned(lanes, c, i) && c.MoveCard?
    requires Decide(db, c).Write?
    ensures var others := Without(Lane(lanes, c.targetListId), c.cardId);
            var row := Decide(db, c).row;
            && (forall x :: x in others <==> x in db.cards && x != c.cardId && LiveIn(db.cards[x], c.targetListId))
            && Ascends(db.cards, others) && FitsAt(db.cards, others, i, row.position)
            && WellPlaced(row.position) && LiveIn(row, c.targetListId)
  {
    var others := Without(Lane(lanes, c.targetListId), c.cardId);
    DecisionReads(db, c);
    TargetLane(db, lanes, c, i);
    GeneratedFits(db.cards, others, i);
  }

  /** An aligned move never fails on the unique index, nor with an invalid payload. */
  lemma MoveRefines(db: Db, lanes: Lanes, c: Command, i: nat)
    requires Refines(db, lanes) && Aligned(lanes, c, i) && c.MoveCard?
    requires Decide(db, c).Write?
    ensures var d := Decide(db, c);
            && !PositionTaken(db.cards, d.row.listId, d.row.position, c.cardId)
            && forall l :: IsLane(db.cards[c.cardId := d.row], l, Lane(AfterEvent(lanes, d.payload, i), l))
  {
    var d := Decide(db, c);
    var others := Without(Lane(lanes, c.targetListId), c.cardId);
    MoveDecision(db, lanes, c, i);
    DecisionReads(db, c);
    FittingIsFree(db.cards, c.targetListId, others, i, c.cardId, d.row.position);
    forall l
      ensures IsLane(db.cards[c.cardId := d.row], l, Lane(AfterEvent(lanes, d.payload, i), l))
    {
      if l == c.targetListId {
        RowPutAt(db.cards, l, others, i, c.cardId, d.row);
      } else {
        var lane := Lane(lanes, l);
        assert IsLane(db.cards, l, lane);
        WithoutMembers(lane, c.cardId);
        RowElsewhere(db.cards, l, lane, c.cardId, d.row);
      }
    }
  }

  /** The new card's position lies above every card of its lane. */
  lemma CreateDecision(db: Db, lanes: Lanes, c: Command)
    requires Refines(db, lanes) && c.CreateCard? && Decide(db, c).Write?
    ensures var lane := Lane(lanes, c.listId);
            var row := Decide(db, c).row;
            && (forall x :: x in lane <==> x in db.cards && x != c.newId && LiveIn(db.cards[x], c.listId))
            && Ascends(db.cards, lane) && FitsAt(db.cards, lane, |lane|, row.position)
            && WellPlaced(row.position) && LiveIn(row, c.listId)
  {
    var lane := Lane(lanes, c.listId);
    DecisionReads(db, c);
    assert IsLane(db.cards, c.listId, lane);
    assert forall j :: 0 <= j < |lane| ==> lane[j] in lane;
    LastIsEndOfLane(db, c.listId, lane);
    GeneratedFits(db.cards, lane, |lane|);
  }

  lemma LaneAfterCreate(db: Db, lanes: Lanes, c: Command, l: Id)
    requires Refines(db, lanes) && c.CreateCard? && Decide(db, c).Write?
    ensures var d := Decide(db, c);
            IsLane(db.cards[c.newId := d.row], l, Lane(AfterEvent(lanes, d.payload, 0), l))
  {
    var d := Decide(db, c);
    var lane := Lane(lanes, l);
    CreateDecision(db, lanes, c);
    if l == c.listId {
      RowPutAt(db.cards, l, lane, |lane|, c.newId, d.row);
      assert PutAt(lane, |lane|, c.newId) == lane + [c.newId];
    } else {
      DecisionReads(db, c);
      assert IsLane(db.cards, l, lane);
      WithoutMembers(lane, c.newId);
      RowElsewhere(db.cards, l, lane, c.newId, d.row);
    }
  }

  lemma CreateRefines(db: Db, lanes: Lanes, c: Command)
    requires Refines(db, lanes) && c.CreateCard? && Decide(db, c).Write?
    ensures var d := Decide(db, c);
            && !PositionTaken(db.cards, d.row.listId, d.row.position, c.newId)
            && WellPlaced(d.row.position)
            && forall l :: IsLane(db.cards[c.newId := d.row], l, Lane(AfterEvent(lanes, d.payload, 0), l))
  {
    var lane := Lane(lanes, c.listId);
    CreateDecision(db, lanes, c);
    FittingIsFree(db.cards, c.listId, lane, |lane|, c.newId, Decide(db, c).row.position);
    forall l
      ensures IsLane(db.cards[c.newId := Decide(db, c).row], l, Lane(AfterEvent(lanes, Decide(db, c).payload, 0), l))
    {
      LaneAfterCreate(db, lanes, c, l);
    }
  }

  lemma UpdateOrDeleteRefines(db: Db, lanes: Lanes, c: Command)
    requires Refines(db, lanes) && (c.UpdateCard? || c.DeleteCard?) && Decide(db, c).Write?
    ensures var d := Decide(db, c);
            && (!d.row.deleted ==>
                  !PositionTaken(db.cards, d.row.listId, d.row.position, c.cardId) && WellPlaced(d.row.position))
            && forall l :: IsLane(db.cards[c.cardId := d.row], l, Lane(AfterEvent(lanes, d.payload, 0), l))
  {
    var d := Decide(db, c);
    DecisionReads(db, c);
    forall l
      ensures IsLane(db.cards[c.cardId := d.row], l, Lane(AfterEvent(lanes, d.payload, 0), l))
    {
      var lane := Lane(lanes, l);
      assert IsLane(db.cards, l, lane);
      if c.UpdateCard? {
        RowInPlace(db.cards, l, lane, c.cardId, d.row);
      } else {
        WithoutMembers(lane, c.cardId);
        RowElsewhere(db.cards, l, lane, c.cardId, d.row);
      }
    }
    if c.UpdateCard? {
      OwnPositionIsFree(db, lanes, c.cardId);
    }
  }

  /** In a lane no two cards share a position. */
  lemma OwnPositionIsFree(db: Db, lanes: Lanes, id: Id)
    requires Refines(db, lanes) && id in db.cards && !db.cards[id].deleted
    ensures !PositionTaken(db.cards, db.cards[id].listId, db.cards[id].position, id)
  {
    var l := db.cards[id].listId;
    var lane := Lane(lanes, l);
    assert IsLane(db.cards, l, lane) && id in lane;
    var i :| 0 <= i < |lane| && lane[i] == id;
    forall x | x in db.cards && x != id && LiveIn(db.cards[x], l)
      ensures db.cards[x].position != db.cards[id].position
    {
      assert x in lane;
      var j :| 0 <= j < |lane| && lane[j] == x;
      if j < i {
        LessIsAsymmetric(db.cards[x].position, db.cards[id].position);
      } else {
        LessIsAsymmetric(db.cards[id].position, db.cards[x].position);
      }
    }
  }

  lemma WriteRefines(db: Db, lanes: Lanes, c: Command, i: nat)
    requires Refines(db, lanes) && Aligned(lanes, c, i) && Decide(db, c).Write?
    ensures var d := Decide(db, c);
            && (!d.row.deleted ==>
                  !PositionTaken(db.cards, d.row.listId, d.row.position, Subject(c)) && WellPlaced(d.row.position))
            && forall l :: IsLane(db.cards[Subject(c) := d.row], l, Lane(AfterEvent(lanes, d.payload, i), l))
  {
    DecisionReads(db, c);
    if c.MoveCard? {
      MoveDecision(db, lanes, c, i);
      MoveRefines(db, lanes, c, i);
    } else {
      assert AfterEvent(lanes, Decide(db, c).payload, i) == AfterEvent(lanes, Decide(db, c).payload, 0);
      if c.CreateCard? {
        CreateRefines(db, lanes, c);
      } else {
        UpdateOrDeleteRefines(db, lanes, c);
      }
    }
  }

  /** A row that a command writes has the tenant of its list. */
  lemma WriteSettles(db: Db, c: Command)
    requires Settled(db) && Decide(db, c).Write? && c.tenantId != "" && (c.CreateCard? ==> c.newId != "")
    ensures var row := Decide(db, c).row;
            !row.deleted ==> row.listId in db.lists && db.lists[row.listId].tenantId == row.tenantId
    ensures Subject(c) != ""
  {
    DecisionReads(db, c);
  }

  /** Lists keep their tenants, so a settled row keeps the database settled. */
  lemma SettledAfterWrite(db: Db, db': Db, id: Id, row: Card)
    requires Settled(db) && id != "" && db'.cards == db.cards[id := row]
    requires db'.lists.Keys == db.lists.Keys
    requires forall l :: l in db.lists ==> db'.lists[l].tenantId == db.lists[l].tenantId
    requires !row.deleted ==>
               WellPlaced(row.position) && row.listId in db.lists && db.lists[row.listId].tenantId == row.tenantId
    ensures Settled(db')
  {
  }

  lemma SuccessRefines(db: Db, lanes: Lanes, c: Command, i: nat)
    requires Refines(db, lanes) && Aligned(lanes, c, i) && Succeeds(db, c)
    ensures Decide(db, c).Write?
    ensures Refines(Exec(db, c).0, AfterEvent(lanes, Decide(db, c).payload, i))
  {
    FirstSuccessFrame(db, c);
    WriteRefines(db, lanes, c, i);
    WriteSettles(db, c);
    SettledAfterWrite(db, Exec(db, c).0, Subject(c), Decide(db, c).row);
  }

  /**
   One aligned command: if it succeeds, the database refines the lanes after the event; if
   not, nothing changed. It never fails because a position is taken.
   */
  lemma ExecRefines(db: Db, lanes: Lanes, c: Command, i: nat)
    requires Refines(db, lanes) && Aligned(lanes, c, i)
    ensures Succeeds(db, c) ==>
              Decide(db, c).Write? && Refines(Exec(db, c).0, AfterEvent(lanes, Decide(db, c).payload, i))
    ensures !Succeeds(db, c) ==> Exec(db, c).0 == db
    ensures Exec(db, c).1 != Threw(DuplicatePosition)
  {
    OnlyFirstSuccessWrites(db, c);
    if Succeeds(db, c) {
      SuccessRefines(db, lanes, c, i);
    }
    NeverTaken(db, lanes, c, i);
  }

  lemma NeverTaken(db: Db, lanes: Lanes, c: Command, i: nat)
    requires Refines(db, lanes) && Aligned(lanes, c, i)
    ensures Exec(db, c).1 != Threw(DuplicatePosition)
  {
    if Decide(db, c).Write? {
      WriteRefines(db, lanes, c, i);
    }
  }

  /** Between two neighbours of a lane no room is left within 32 digits. */
  ghost predicate FullAt(cards: map<Id, Card>, lane: seq<Id>, i: nat)
    requires forall j :: 0 <= j < |lane| ==> lane[j] in cards
  {
    var prev, next := PositionAt(cards, lane, i - 1), PositionAt(cards, lane, i);
    && (prev.Some? || next.Some?)
    && AllDigits(LowerEnd(prev)) && AllDigits(UpperEnd(next))
    && Crowded(LowerEnd(prev), UpperEnd(next), POSITION_MAX_MIDPOINT_DEPTH)
  }

  /** A move that passes every guard, with expectations that hold, and whose source list is live. */
  ghost predicate PassesGuards(db: Db, c: Command)
    requires c.MoveCard?
  {
    && ReachesRevisionCheck(db, c)
    && Reads(db.lists, c.expectedListRevisions, c.tenantId)
    && HasLiveList(db.lists, db.cards[c.cardId].listId)
  }

  lemma FullMeansCollision(cards: map<Id, Card>, lane: seq<Id>, i: nat)
    requires Ascends(cards, lane) && i <= |lane|
    requires forall j :: 0 <= j < |lane| ==> WellPlaced(cards[lane[j]].position)
    ensures var r := GeneratePosition(PositionAt(cards, lane, i - 1), PositionAt(cards, lane, i));
            if FullAt(cards, lane, i) then r == Err(Collision) else r.Ok?
  {
    GenerateBetween(PositionAt(cards, lane, i - 1), PositionAt(cards, lane, i));
  }

  /** An aligned move that passes the guards succeeds unless its place is full. */
  lemma MoveSucceedsUnlessFull(db: Db, lanes: Lanes, c: Command, i: nat)
    requires Refines(db, lanes) && Aligned(lanes, c, i) && c.MoveCard? && PassesGuards(db, c)
    ensures var others := Without(Lane(lanes, c.targetListId), c.cardId);
            && (forall j :: 0 <= j < |others| ==> others[j] in db.cards)
            && (if FullAt(db.cards, others, i) then Exec(db, c).1 == Refused(CorruptedChain) else Succeeds(db, c))
  {
    var others := Without(Lane(lanes, c.targetListId), c.cardId);
    TargetLane(db, lanes, c, i);
    FullMeansCollision(db.cards, others, i);
    RevisionCheckIff(db.lists, c.expectedListRevisions, c.tenantId);
    if !FullAt(db.cards, others, i) {
      assert Decide(db, c).Write?;
      DecisionReads(db, c);
      MoveRefines(db, lanes, c, i);
    }
  }

  /** The appends left after a last position: all 192 in an empty list. */
  function Capacity(last: Option<Position>): nat
    requires last.Some? ==> AllDigits(last.value)
  {
    if last.None? then HALVINGS_PER_DEPTH * POSITION_MAX_MIDPOINT_DEPTH else AppendsLeft(last.value, 0)
  }

  lemma AppendUsesCapacity(last: Option<Position>)
    requires WellPlacedOption(last)
    ensures var r := GeneratePosition(last, None);
            if Capacity(last) == 0 then r == Err(Collision)
            else r.Ok? && WellPlaced(r.value) && Capacity(Some(r.value)) == Capacity(last) - 1
  {
    GenerateBetween(last, None);
    if last.Some? {
      AppendUsesOne(last.value);
    } else {
      FirstPositionCapacity();
    }
  }

  lemma LastIsWellPlaced(db: Db, lanes: Lanes, listId: Id)
    requires Refines(db, lanes) && listId in db.lists
    ensures WellPlacedOption(LastPosition(db.cards, listId, db.lists[listId].tenantId))
  {
    var lane := Lane(lanes, listId);
    assert IsLane(db.cards, listId, lane);
    LastIsEndOfLane(db, listId, lane);
    assert lane != [] ==> lane[|lane| - 1] in lane;
  }

  /** The row that creating a card in a live list of the tenant writes, if there is a position. */
  lemma CreateIsDecided(db: Db, c: Command, last: Option<Position>)
    requires c.CreateCard? && FirstTime(db, c) && c.newId !in db.cards
    requires HasLiveList(db.lists, c.listId) && db.lists[c.listId].tenantId == c.tenantId
    requires LastPosition(db.cards, c.listId, c.tenantId) == last
    ensures var r := GeneratePosition(last, None);
            if r.Ok? then Decide(db, c).Write? && Decide(db, c).row.position == r.value
            else Decide(db, c) == Answer(Threw(PositionFault(r.error)))
  {
  }

  lemma NewLaneIsRead(db: Db, lanes: Lanes, c: Command)
    requires Refines(db, lanes) && Aligned(lanes, c, 0) && c.CreateCard? && Succeeds(db, c)
    ensures Settled(Exec(db, c).0)
    ensures IsLane(Exec(db, c).0.cards, c.listId, Lane(lanes, c.listId) + [c.newId])
  {
    FirstSuccessFrame(db, c);
    DecisionReads(db, c);
    SuccessRefines(db, lanes, c, 0);
    assert Lane(AfterEvent(lanes, Decide(db, c).payload, 0), c.listId) == Lane(lanes, c.listId) + [c.newId];
  }

  lemma CreateSucceeds(db: Db, lanes: Lanes, c: Command)
    requires Refines(db, lanes) && c.CreateCard? && Decide(db, c).Write?
    ensures Succeeds(db, c)
  {
    CreateRefines(db, lanes, c);
    DecisionReads(db, c);
  }

  /** A created card is the last of its list. */
  lemma CreateBecomesLast(db: Db, lanes: Lanes, c: Command)
    requires Refines(db, lanes) && Aligned(lanes, c, 0) && c.CreateCard? && Succeeds(db, c)
    ensures Decide(db, c).Write?
    ensures LastPosition(Exec(db, c).0.cards, c.listId, c.tenantId) == Some(Decide(db, c).row.position)
  {
    FirstSuccessFrame(db, c);
    DecisionReads(db, c);
    NewLaneIsRead(db, lanes, c);
    LastIsEndOfLane(Exec(db, c).0, c.listId, Lane(lanes, c.listId) + [c.newId]);
  }

  /**
   Creating a card in a live list of the tenant succeeds exactly while the list has capacity,
   and uses up one; without capacity the position generator throws.
   */
  lemma CreateSucceedsWhileCapacity(db: Db, lanes: Lanes, c: Command)
    requires Refines(db, lanes) && Aligned(lanes, c, 0) && c.CreateCard? && FirstTime(db, c) && c.newId !in db.cards
    requires HasLiveList(db.lists, c.listId) && db.lists[c.listId].tenantId == c.tenantId
    ensures var last := LastPosition(db.cards, c.listId, c.tenantId);
            && WellPlacedOption(last)
            && (if Capacity(last) == 0 then Exec(db, c).1 == Threw(PositionFault(Collision)) else Succeeds(db, c))
    ensures Succeeds(db, c) ==>
              var last := LastPosition(db.cards, c.listId, c.tenantId);
              var last' := LastPosition(Exec(db, c).0.cards, c.listId, c.tenantId);
              WellPlacedOption(last) && WellPlacedOption(last') && Capacity(last') == Capacity(last) - 1
  {
    var last := LastPosition(db.cards, c.listId, c.tenantId);
    LastIsWellPlaced(db, lanes, c.listId);
    AppendUsesCapacity(last);
    CreateIsDecided(db, c, last);
    if Decide(db, c).Write? {
      CreateSucceeds(db, lanes, c);
      CreateBecomesLast(db, lanes, c);
    }
  }

  ghost function AfterCommand(db: Db, lanes: Lanes, c: Command, i: nat): Lanes {
    if Succeeds(db, c) then AfterEvent(lanes, Decide(db, c).payload, i) else lanes
  }

  ghost function RunLanes(db: Db, lanes: Lanes, steps: seq<(Command, nat)>): Lanes
    decreases |steps|
  {
    if steps == [] then lanes
    else
      var (c, i) := steps[0];
      RunLanes(Exec(db, c).0, AfterCommand(db, lanes, c, i), steps[1..])
  }

  ghost predicate AlignedRun(db: Db, lanes: Lanes, steps: seq<(Command, nat)>)
    decreases |steps|
  {
    steps == [] ||
    var (c, i) := steps[0];
    && Aligned(lanes, c, i)
    && AlignedRun(Exec(db, c).0, AfterCommand(db, lanes, c, i), steps[1..])
  }

  function CommandsOf(steps: seq<(Command, nat)>): seq<Command> {
    seq(|steps|, k requires 0 <= k < |steps| => steps[k].0)
  }

  /**
   Over every run of aligned commands the list reads are the lanes: created cards are last,
   moved cards lie where they were dropped, all others keep their order.
   */
  lemma {:induction false} RunRefines(db: Db, lanes: Lanes, steps: seq<(Command, nat)>)
    requires Refines(db, lanes) && AlignedRun(db, lanes, steps)
    ensures Refines(Run(db, CommandsOf(steps)), RunLanes(db, lanes, steps))
    decreases |steps|
  {
    if steps != [] {
      var (c, i) := steps[0];
      ExecRefines(db, lanes, c, i);
      RunRefines(Exec(db, c).0, AfterCommand(db, lanes, c, i), steps[1..]);
      assert CommandsOf(steps)[1..] == CommandsOf(steps[1..]);
    }
  }

  /** From a board without cards every such run leaves no position for the rebalance scan. */
  lemma ScanNeverFires(db: Db, steps: seq<(Command, nat)>, id: Id)
    requires db.cards == map[] && AlignedRun(db, map[], steps)
    requires id in Run(db, CommandsOf(steps)).cards && !Run(db, CommandsOf(steps)).cards[id].deleted
    ensures |Run(db, CommandsOf(steps)).cards[id].position| <= REBALANCE_LENGTH
    ensures ShouldRebalancePosition(Run(db, CommandsOf(steps)).cards[id].position) == Ok(false)
  {
    assert Refines(db, map[]);
    RunRefines(db, map[], steps);
  }
}
