/** The rebalance worker: it rewrites the positions of one list in its reading order. */
module RebalanceWorkers {
  import opened Wrappers
  import opened Positions
  import opened Rebalance
  import opened BoardModel
  import opened BoardOrder

  datatype Rebalanced = Rebalanced(boardId: Id, sequence: int, listId: Id, cardCount: nat)

  /** The rows `ORDER BY position, id` returns for the live cards of a list. */
  ghost predicate IsReading(cards: map<Id, Card>, listId: Id, rows: seq<Id>) {
    && HoldsLiveCards(cards, listId, rows)
    && forall i, j :: 0 <= i < j < |rows| ==>
         && rows[i] != rows[j] && rows[i] in cards && rows[j] in cards
         && (Less(cards[rows[i]].position, cards[rows[j]].position)
             || (cards[rows[i]].position == cards[rows[j]].position && Less(rows[i], rows[j])))
  }

  /** The scan picks a list that has a live card with a position over the threshold. */
  predicate ScanMatches(cards: map<Id, Card>, listId: Id) {
    exists id :: id in cards && LiveIn(cards[id], listId) && |cards[id].position| > REBALANCE_LENGTH
  }

  /** Exactly lists with a live position of at least 49 digits are scanned. */
  lemma ScanMatchesIff(cards: map<Id, Card>, listId: Id)
    ensures !ScanMatches(cards, listId) <==>
            forall id :: id in cards && !cards[id].deleted && cards[id].listId == listId ==> |cards[id].position| < 49
  {
  }

  /** The first `n` rows updated, one after the other. */
  function Repositioned(cards: map<Id, Card>, rows: seq<Id>, positions: seq<Position>, n: nat): map<Id, Card>
    requires n <= |rows| == |positions|
  {
    if n == 0 then cards
    else
      var before := Repositioned(cards, rows, positions, n - 1);
      var id := rows[n - 1];
      if id in before then before[id := before[id].(position := positions[n - 1])] else before
  }

  lemma {:induction false} RepositionedKeys(cards: map<Id, Card>, rows: seq<Id>, positions: seq<Position>, n: nat)
    requires n <= |rows| == |positions|
    ensures Repositioned(cards, rows, positions, n).Keys == cards.Keys
    decreases n
  {
    if n > 0 {
      RepositionedKeys(cards, rows, positions, n - 1);
    }
  }

  lemma {:induction false} UntouchedRow(cards: map<Id, Card>, rows: seq<Id>, positions: seq<Position>, n: nat, id: Id)
    requires n <= |rows| == |positions| && id in cards
    requires forall i :: 0 <= i < n ==> rows[i] != id
    ensures id in Repositioned(cards, rows, positions, n) && Repositioned(cards, rows, positions, n)[id] == cards[id]
    decreases n
  {
    if n > 0 {
      UntouchedRow(cards, rows, positions, n - 1, id);
    }
  }

  lemma {:induction false} RewrittenRow(cards: map<Id, Card>, rows: seq<Id>, positions: seq<Position>, n: nat, i: nat)
    requires i < n <= |rows| == |positions| && rows[i] in cards
    requires forall j :: 0 <= j < |rows| && j != i ==> rows[j] != rows[i]
    ensures rows[i] in Repositioned(cards, rows, positions, n)
    ensures Repositioned(cards, rows, positions, n)[rows[i]] == cards[rows[i]].(position := positions[i])
    decreases n
  {
    if i == n - 1 {
      UntouchedRow(cards, rows, positions, n - 1, rows[i]);
    } else {
      RewrittenRow(cards, rows, positions, n - 1, i);
    }
  }

  /** Which row a rebalance leaves for each card: the new position, and nothing else changed. */
  lemma RebalancedRows(cards: map<Id, Card>, listId: Id, rows: seq<Id>, positions: seq<Position>)
    requires IsReading(cards, listId, rows) && |rows| == |positions|
    ensures var after := Repositioned(cards, rows, positions, |rows|);
            && after.Keys == cards.Keys
            && (forall i :: 0 <= i < |rows| ==>
                  rows[i] in cards && after[rows[i]] == cards[rows[i]].(position := positions[i]))
            && (forall id :: id in cards && !LiveIn(cards[id], listId) ==> after[id] == cards[id])
  {
    var after := Repositioned(cards, rows, positions, |rows|);
    RepositionedKeys(cards, rows, positions, |rows|);
    forall i | 0 <= i < |rows|
      ensures rows[i] in cards && after[rows[i]] == cards[rows[i]].(position := positions[i])
    {
      assert rows[i] in rows;
      RewrittenRow(cards, rows, positions, |rows|, i);
    }
    forall id | id in cards && !LiveIn(cards[id], listId)
      ensures after[id] == cards[id]
    {
      assert id !in rows;
      UntouchedRow(cards, rows, positions, |rows|, id);
    }
  }

  lemma SameHolders(cards: map<Id, Card>, after: map<Id, Card>, listId: Id, rows: seq<Id>)
    requires HoldsLiveCards(cards, listId, rows) && after.Keys == cards.Keys
    requires forall id :: id in cards ==> LiveIn(after[id], listId) == LiveIn(cards[id], listId)
    ensures HoldsLiveCards(after, listId, rows)
  {
  }

  /** The updated rows keep their order by position exactly for lists of at most 3660 cards. */
  lemma RepositionedReading(cards: map<Id, Card>, listId: Id, rows: seq<Id>)
    requires IsReading(cards, listId, rows)
    ensures |WorkerBalancedPositions(|rows|)| == |rows|
    ensures var after := Repositioned(cards, rows, WorkerBalancedPositions(|rows|), |rows|);
            && (IsLane(after, listId, rows) <==> |rows| <= WORKER_CAPACITY)
            && !ScanMatches(after, listId)
            && forall id :: id in cards && !LiveIn(cards[id], listId) ==> id in after && after[id] == cards[id]
  {
    var positions := WorkerBalancedPositions(|rows|);
    WorkerRebalance(|rows|);
    RebalancedRows(cards, listId, rows, positions);
    var after := Repositioned(cards, rows, positions, |rows|);
    forall id | id in cards
      ensures LiveIn(after[id], listId) == LiveIn(cards[id], listId)
      ensures LiveIn(cards[id], listId) ==> |after[id].position| <= 2
    {
      if LiveIn(cards[id], listId) {
        assert id in rows;
        var i :| 0 <= i < |rows| && rows[i] == id;
      }
    }
    SameHolders(cards, after, listId, rows);
    AscendsByPositions(after, rows, positions);
  }

  lemma AscendsByPositions(cards: map<Id, Card>, rows: seq<Id>, positions: seq<Position>)
    requires |rows| == |positions|
    requires forall i :: 0 <= i < |rows| ==> rows[i] in cards && cards[rows[i]].position == positions[i]
    ensures Ascends(cards, rows) <==> StrictlyAscending(positions)
  {
    if Ascends(cards, rows) {
      forall i, j | 0 <= i < j < |positions|
        ensures Less(positions[i], positions[j])
      {
        assert Less(cards[rows[i]].position, cards[rows[j]].position);
      }
    }
  }

  // ---------------------------------------------------------------------------
  // The unique index
  // ---------------------------------------------------------------------------

  /** The position row `j` has when row `i` is updated. */
  function PositionThen(cards: map<Id, Card>, rows: seq<Id>, positions: seq<Position>, i: nat, j: nat): Position
    requires j < |rows| == |positions| && rows[j] in cards
  {
    if j < i then positions[j] else cards[rows[j]].position
  }

  /** Updating the first `n` rows in turn never gives a row the position of another one. */
  ghost predicate UpdatesFreely(cards: map<Id, Card>, rows: seq<Id>, positions: seq<Position>, n: nat) {
    && n <= |rows| == |positions|
    && (forall i :: 0 <= i < |rows| ==> rows[i] in cards)
    && forall i, j :: 0 <= i < n && 0 <= j < |rows| && j != i ==>
         positions[i] != PositionThen(cards, rows, positions, i, j)
  }

  lemma RowBefore(cards: map<Id, Card>, listId: Id, rows: seq<Id>, positions: seq<Position>, n: nat, j: nat)
    requires IsReading(cards, listId, rows) && n <= |rows| == |positions| && j < |rows|
    ensures rows[j] in cards && rows[j] in Repositioned(cards, rows, positions, n)
    ensures Repositioned(cards, rows, positions, n)[rows[j]] ==
            cards[rows[j]].(position := PositionThen(cards, rows, positions, n, j))
  {
    assert rows[j] in rows;
    if j < n {
      RewrittenRow(cards, rows, positions, n, j);
    } else {
      UntouchedRow(cards, rows, positions, n, rows[j]);
    }
  }

  /** Live rows of the list are read rows, before and after updates. */
  lemma LiveRowsAreRead(cards: map<Id, Card>, listId: Id, rows: seq<Id>, positions: seq<Position>, n: nat, id: Id)
    requires IsReading(cards, listId, rows) && n <= |rows| == |positions|
    requires id in Repositioned(cards, rows, positions, n)
             && LiveIn(Repositioned(cards, rows, positions, n)[id], listId)
    ensures id in rows
  {
    RepositionedKeys(cards, rows, positions, n);
    if id !in rows {
      UntouchedRow(cards, rows, positions, n, id);
    }
  }

  /** The index refuses an update exactly if another row of the list has the position then. */
  lemma TakenIff(cards: map<Id, Card>, listId: Id, rows: seq<Id>, positions: seq<Position>, n: nat)
    requires IsReading(cards, listId, rows) && n < |rows| == |positions|
    requires forall j :: 0 <= j < |rows| ==> rows[j] in cards
    ensures PositionTaken(Repositioned(cards, rows, positions, n), listId, positions[n], rows[n]) <==>
            exists j :: 0 <= j < |rows| && j != n && positions[n] == PositionThen(cards, rows, positions, n, j)
  {
    var now := Repositioned(cards, rows, positions, n);
    if PositionTaken(now, listId, positions[n], rows[n]) {
      var id :| id in now && id != rows[n] && LiveIn(now[id], listId) && now[id].position == positions[n];
      LiveRowsAreRead(cards, listId, rows, positions, n, id);
      var j :| 0 <= j < |rows| && rows[j] == id;
      RowBefore(cards, listId, rows, positions, n, j);
      assert positions[n] == PositionThen(cards, rows, positions, n, j);
    }
    forall j | 0 <= j < |rows| && j != n && positions[n] == PositionThen(cards, rows, positions, n, j)
      ensures PositionTaken(now, listId, positions[n], rows[n])
    {
      RowBefore(cards, listId, rows, positions, n, j);
      assert rows[j] in rows;
      assert rows[j] != rows[n];
    }
  }

  /** What can be checked before a rebalance: at most 3660 cards, and no row ahead in the way. */
  ghost predicate Fits(cards: map<Id, Card>, rows: seq<Id>) {
    && |rows| <= WORKER_CAPACITY
    && var positions := WorkerBalancedPositions(|rows|);
       forall i, j :: 0 <= i < j < |rows| && j < |positions| && rows[j] in cards ==>
           positions[i] != cards[rows[j]].position
  }

  lemma FitsIff(cards: map<Id, Card>, listId: Id, rows: seq<Id>)
    requires IsReading(cards, listId, rows)
    ensures Fits(cards, rows) <==> UpdatesFreely(cards, rows, WorkerBalancedPositions(|rows|), |rows|)
  {
    var positions := WorkerBalancedPositions(|rows|);
    WorkerRebalance(|rows|);
    forall i | 0 <= i < |rows|
      ensures rows[i] in cards
    {
      assert rows[i] in rows;
    }
    if UpdatesFreely(cards, rows, positions, |rows|) {
      forall i, j | 0 <= i < j < |rows|
        ensures positions[i] != positions[j] && positions[i] != cards[rows[j]].position
      {
        assert positions[j] != PositionThen(cards, rows, positions, j, i);
        assert positions[i] != PositionThen(cards, rows, positions, i, j);
      }
      if |rows| > WORKER_CAPACITY {
        RepeatsBeyondCapacity(|rows|);
      }
    }
    if Fits(cards, rows) {
      forall i, j | 0 <= i < |rows| && 0 <= j < |rows| && j != i
        ensures positions[i] != PositionThen(cards, rows, positions, i, j)
      {
        if j < i {
          LessIsAsymmetric(positions[j], positions[i]);
        }
      }
    }
  }

  /** Beyond 3660 cards two new positions are the same. */
  lemma RepeatsBeyondCapacity(count: nat)
    requires count > WORKER_CAPACITY
    ensures |WorkerBalancedPositions(count)| == count
    ensures WorkerBalancedPositions(count)[WORKER_CAPACITY - SUFFIXES] ==
            WorkerBalancedPositions(count)[WORKER_CAPACITY]
  {
    StepOfLongList(count);
    TwoDigitsRepeat();
  }

  /** The table after the transaction: all positions rewritten, or rolled back. */
  ghost function AfterRebalance(cards: map<Id, Card>, rows: seq<Id>, hasBoard: bool): map<Id, Card> {
    var positions := WorkerBalancedPositions(|rows|);
    if Fits(cards, rows) && hasBoard && |rows| == |positions| then Repositioned(cards, rows, positions, |rows|)
        else cards
  }

  /**
   A rebalance always keeps the reading order. The scanned list leaves the scan if and only if
   the rebalance commits: its board row is there, it has at most 3660 cards, and no new position
   is that of a later card. Cards of other lists are never changed.
   */
  lemma RebalanceKeepsReading(cards: map<Id, Card>, listId: Id, rows: seq<Id>, hasBoard: bool)
    requires IsReading(cards, listId, rows)
    ensures var after := AfterRebalance(cards, rows, hasBoard);
            && IsReading(after, listId, rows)
            && (Fits(cards, rows) && hasBoard ==> IsLane(after, listId, rows))
            && (forall id :: id in cards && !LiveIn(cards[id], listId) ==> id in after && after[id] == cards[id])
    ensures ScanMatches(cards, listId) ==>
              (ScanMatches(AfterRebalance(cards, rows, hasBoard), listId) <==> !(Fits(cards, rows) && hasBoard))
  {
    RepositionedReading(cards, listId, rows);
    if Fits(cards, rows) && hasBoard {
      LaneIsReading(AfterRebalance(cards, rows, hasBoard), listId, rows);
    }
  }

  lemma LaneIsReading(cards: map<Id, Card>, listId: Id, rows: seq<Id>)
    requires IsLane(cards, listId, rows)
    ensures IsReading(cards, listId, rows)
  {
    forall i, j | 0 <= i < j < |rows|
      ensures rows[i] != rows[j]
    {
      LessIsAsymmetric(cards[rows[i]].position, cards[rows[j]].position);
    }
  }

  /**
   A list over the scan's threshold that is never rebalanced: the new position of its first
   card is the position of its second.
   */
  lemma BlockedRebalance(cards: map<Id, Card>, listId: Id, hasBoard: bool)
    requires cards.Keys == {"a", "b"} && LiveIn(cards["a"], listId) && LiveIn(cards["b"], listId)
    requires cards["a"].position == seq(49, _ => '1') && cards["b"].position == "K"
    ensures IsReading(cards, listId, ["a", "b"]) && ScanMatches(cards, listId)
    ensures AfterRebalance(cards, ["a", "b"], hasBoard) == cards
  {
    var rows := ["a", "b"];
    assert LessAt(cards["a"].position, cards["b"].position, 0);
    assert rows[0] == "a" && rows[1] == "b";
    assert WorkerBalancedPositions(2) == SpacedDigits(2, 20);
    assert SpacedDigits(2, 20)[0] == "K";
  }

  class RebalanceWorker {
    var cards: map<Id, Card>
    var currentSequences: map<Id, int>
    var outbox: seq<Rebalanced>

    /** Updates the positions row by row, until the unique index refuses one. */
    method RewritePositions(listId: Id, rows: seq<Id>, newPositions: seq<Position>) returns (refused: bool)
      requires IsReading(cards, listId, rows) && |newPositions| == |rows|
      modifies this`cards
      ensures refused <==> !UpdatesFreely(old(cards), rows, newPositions, |rows|)
      ensures !refused ==> cards == Repositioned(old(cards), rows, newPositions, |rows|)
    {
      ghost var before := cards;
      forall i | 0 <= i < |rows|
        ensures rows[i] in before
      {
        assert rows[i] in rows;
      }
      for i := 0 to |rows|
        invariant cards == Repositioned(before, rows, newPositions, i)
        invariant UpdatesFreely(before, rows, newPositions, i)
      {
        TakenIff(before, listId, rows, newPositions, i);
        RowBefore(before, listId, rows, newPositions, i, i);
        if PositionTaken(cards, listId, newPositions[i], rows[i]) {
          assert !UpdatesFreely(before, rows, newPositions, i + 1);
          return true;
        }
        cards := cards[rows[i] := cards[rows[i]].(position := newPositions[i])];
      }
      return false;
    }

    /** Gives the read rows their new positions, if the index lets it. */
    method UpdateCards(listId: Id, rows: seq<Id>) returns (refused: bool)
      requires IsReading(cards, listId, rows)
      modifies this`cards
      ensures refused <==> !Fits(old(cards), rows)
      ensures !refused ==> cards == AfterRebalance(old(cards), rows, true)
    {
      WorkerRebalance(|rows|);
      FitsIff(cards, listId, rows);
      var newPositions := ComputeWorkerPositions(|rows|);
      refused := RewritePositions(listId, rows, newPositions);
    }

    /**
     `rows` is the answer of the query. The event takes its number from the board row, not
     from the counter of the card commands. A position that is taken, or a missing board row,
     throws and rolls the transaction back.
     */
    method RebalanceList(listId: Id, boardId: Id, rows: seq<Id>) returns (count: Option<nat>)
      requires IsReading(cards, listId, rows)
      modifies this
      ensures cards == AfterRebalance(old(cards), rows, boardId in old(currentSequences))
      ensures count == if rows == [] then Some(0)
                       else if Fits(old(cards), rows) && boardId in old(currentSequences) then Some(|rows|)
                       else None
      ensures count.Some? && rows != [] ==>
                && boardId in old(currentSequences)
                && currentSequences == old(currentSequences)[boardId := old(currentSequences)[boardId] + 1]
                && outbox == old(outbox) + [Rebalanced(boardId, currentSequences[boardId], listId, |rows|)]
      ensures count.None? || rows == [] ==> currentSequences == old(currentSequences) && outbox == old(outbox)
    {
      if |rows| == 0 {
        return Some(0);
      }
      var checkpoint := cards;
      var refused := UpdateCards(listId, rows);
      if refused || boardId !in currentSequences {
        cards := checkpoint;
        return None;
      }
      currentSequences := currentSequences[boardId := currentSequences[boardId] + 1];
      outbox := outbox + [Rebalanced(boardId, currentSequences[boardId], listId, |rows|)];
      return Some(|rows|);
    }
  }
}
