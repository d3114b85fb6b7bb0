/**
 Whole runs of one list: inserts at any index, removals and rebalances, as a client of the
 ordering engine performs them.
 */
module OrderingRuns {
  import opened Wrappers
  import opened Positions
  import opened Midpoints
  import opened Generator
  import opened Rebalance

  datatype Operation = Insert(index: nat) | Remove(index: nat) | RebalanceAll

  function Neighbour(list: seq<Position>, index: int): Option<Position> {
    if 0 <= index < |list| then Some(list[index]) else None
  }

  /** One operation; an index outside the list and an error of the engine change nothing. */
  function Step(list: seq<Position>, op: Operation): seq<Position> {
    match op
    case Insert(i) =>
      if i > |list| then list
      else
        var generated := GeneratePosition(Neighbour(list, i - 1), Neighbour(list, i));
        if generated.Ok? then list[..i] + [generated.value] + list[i..] else list
    case Remove(i) =>
      if i < |list| then list[..i] + list[i + 1..] else list
    case RebalanceAll =>
      var balanced := GenerateBalancedPositions(|list|);
      if balanced.Ok? then balanced.value else list
  }

  function Run(list: seq<Position>, ops: seq<Operation>): seq<Position>
    decreases |ops|
  {
    if ops == [] then list else Run(Step(list, ops[0]), ops[1..])
  }

  lemma StepKeepsOrder(list: seq<Position>, op: Operation)
    requires WellOrdered(list)
    ensures WellOrdered(Step(list, op))
  {
    match op
    case Insert(i) =>
      if i <= |list| {
        InsertKeepsOrder(list, i);
      }
    case Remove(i) =>
    case RebalanceAll =>
      DomainRebalance(|list|);
  }

  lemma InsertedBetween(list: seq<Position>, i: nat, m: Position)
    requires WellOrdered(list) && i <= |list| && WellPlaced(m)
    requires forall j :: 0 <= j < i ==> Less(list[j], m)
    requires forall j :: i <= j < |list| ==> Less(m, list[j])
    ensures WellOrdered(list[..i] + [m] + list[i..])
  {
    var s := list[..i] + [m] + list[i..];
    assert s[i] == m;
    assert forall j :: 0 <= j < i ==> s[j] == list[j];
    assert forall j :: i < j < |s| ==> s[j] == list[j - 1];
  }

  lemma InsertKeepsOrder(list: seq<Position>, i: nat)
    requires WellOrdered(list) && i <= |list|
    ensures WellOrdered(Step(list, Insert(i)))
  {
    var prev, next := Neighbour(list, i - 1), Neighbour(list, i);
    NeighboursAscend(list, i);
    GenerateBetween(prev, next);
    var generated := GeneratePosition(prev, next);
    if generated.Ok? {
      AboveAllBefore(list, i, generated.value);
      BelowAllAfter(list, i, generated.value);
      InsertedBetween(list, i, generated.value);
    }
  }

  lemma AboveAllBefore(list: seq<Position>, i: nat, m: Position)
    requires WellOrdered(list) && i <= |list| && (i > 0 ==> Less(list[i - 1], m))
    ensures forall j :: 0 <= j < i ==> Less(list[j], m)
  {
    forall j | 0 <= j < i - 1
      ensures Less(list[j], m)
    {
      LessIsTransitive(list[j], list[i - 1], m);
    }
  }

  lemma BelowAllAfter(list: seq<Position>, i: nat, m: Position)
    requires WellOrdered(list) && i <= |list| && (i < |list| ==> Less(m, list[i]))
    ensures forall j :: i <= j < |list| ==> Less(m, list[j])
  {
    forall j | i < j < |list|
      ensures Less(m, list[j])
    {
      LessIsTransitive(m, list[i], list[j]);
    }
  }

  /** An insert puts one new position at its index and moves nothing else; a removal takes one out. */
  lemma StepChangesOne(list: seq<Position>, i: nat)
    requires WellOrdered(list)
    ensures i <= |list| && Step(list, Insert(i)) != list ==>
              && |Step(list, Insert(i))| == |list| + 1
              && Step(list, Insert(i))[..i] == list[..i] && Step(list, Insert(i))[i + 1..] == list[i..]
    ensures i < |list| ==> Step(list, Remove(i)) == list[..i] + list[i + 1..]
  {
  }

  lemma {:induction false} RunKeepsOrder(list: seq<Position>, ops: seq<Operation>)
    requires WellOrdered(list)
    ensures WellOrdered(Run(list, ops))
    decreases |ops|
  {
    if ops != [] {
      StepKeepsOrder(list, ops[0]);
      RunKeepsOrder(Step(list, ops[0]), ops[1..]);
    }
  }

  /**
   From an empty list no run of inserts, removals and rebalances leaves the invariant. So no
   position ever asks for a rebalance, and none consists of maximum digits only.
   */
  lemma EveryRunIsOrdered(ops: seq<Operation>)
    ensures WellOrdered(Run([], ops))
    ensures forall i :: 0 <= i < |Run([], ops)| ==>
              ShouldRebalancePosition(Run([], ops)[i]) == Ok(false) && !AllMax(Run([], ops)[i])
  {
    RunKeepsOrder([], ops);
  }

  lemma NeighboursAscend(list: seq<Position>, i: nat)
    requires WellOrdered(list) && i <= |list|
    ensures WellPlacedOption(Neighbour(list, i - 1)) && WellPlacedOption(Neighbour(list, i))
    ensures Ascending(Neighbour(list, i - 1), Neighbour(list, i))
  {
  }

  lemma InsertIsGenerated(list: seq<Position>, i: nat)
    requires i <= |list|
    ensures Step(list, Insert(i)) == list <==> GeneratePosition(Neighbour(list, i - 1), Neighbour(list, i)).Err?
  {
    if GeneratePosition(Neighbour(list, i - 1), Neighbour(list, i)).Ok? {
      assert |Step(list, Insert(i))| == |list| + 1;
    }
  }

  /** At every point of a run an insert fails exactly when its two neighbours are crowded. */
  lemma InsertFailsWhenCrowded(ops: seq<Operation>, i: nat)
    requires i <= |Run([], ops)|
    ensures var list := Run([], ops);
            var prev, next := Neighbour(list, i - 1), Neighbour(list, i);
            && AllDigits(LowerEnd(prev)) && AllDigits(UpperEnd(next))
            && (Step(list, Insert(i)) == list <==>
                (prev.Some? || next.Some?)
                && Crowded(LowerEnd(prev), UpperEnd(next), POSITION_MAX_MIDPOINT_DEPTH))
  {
    var list := Run([], ops);
    RunKeepsOrder([], ops);
    NeighboursAscend(list, i);
    GenerateBetween(Neighbour(list, i - 1), Neighbour(list, i));
    InsertIsGenerated(list, i);
  }
}
