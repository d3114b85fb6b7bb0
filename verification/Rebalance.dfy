/**
 Evenly spaced positions: the domain's single-digit generator and the rebalance worker's
 generator, which falls back to two digits for longer lists.
 */
module Rebalance {
  import opened Wrappers
  import opened Positions
  import opened Generator

  const MAX_SAFE_INTEGER: int := 9007199254740991
  const REBALANCE_LENGTH: nat := 48

  function Min(a: int, b: int): int {
    if a <= b then a else b
  }

  /** True from three quarters of the maximum length on. */
  function ShouldRebalancePosition(position: Position): Result<bool, PositionError> {
    if IsValidPosition(position) then Ok(|position| >= REBALANCE_LENGTH) else Err(InvalidPosition)
  }

  /** `count` single digits, `step` apart. */
  function SpacedDigits(count: nat, step: nat): seq<Position> {
    seq(count, i requires 0 <= i => [Digit(Min((i + 1) * step, POSITION_BASE - 1))])
  }

  /** The domain generator. */
  function GenerateBalancedPositions(count: int): Result<seq<Position>, PositionError> {
    if count > MAX_SAFE_INTEGER || count < 0 then Err(InvalidTopology)
    else if count == 0 then Ok([])
    else
      var step := POSITION_BASE / (count + 1);
      if step <= 1 then Err(InvalidTopology) else Ok(SpacedDigits(count, step))
  }

  const SUFFIXES: nat := POSITION_BASE - 2

  /** The worker's two-digit position of item `i`: segment, then item in the segment. */
  function TwoDigitPosition(i: nat): Position {
    [Digit(Min(i / SUFFIXES + 1, POSITION_BASE - 1)), Digit(Min(i % SUFFIXES + 1, POSITION_BASE - 1))]
  }

  function TwoDigitPositions(count: nat): seq<Position> {
    seq(count, i requires 0 <= i => TwoDigitPosition(i))
  }

  /** The worker's generator. */
  function WorkerBalancedPositions(count: nat): seq<Position> {
    if count == 0 then []
    else
      var step := POSITION_BASE / (count + 1);
      if step <= 1 then TwoDigitPositions(count) else SpacedDigits(count, step)
  }

  /** The worker pushes the two-digit positions one by one. */
  method ComputeWorkerPositions(count: nat) returns (positions: seq<Position>)
    ensures positions == WorkerBalancedPositions(count)
  {
    if count == 0 {
      return [];
    }
    var step := POSITION_BASE / (count + 1);
    if step > 1 {
      return SpacedDigits(count, step);
    }
    positions := [];
    for i := 0 to count
      invariant positions == TwoDigitPositions(i)
    {
      var prefix := Digit(Min(i / SUFFIXES + 1, POSITION_BASE - 1));
      var suffix := Digit(Min(i % SUFFIXES + 1, POSITION_BASE - 1));
      positions := positions + [[prefix, suffix]];
    }
  }

  // ---------------------------------------------------------------------------
  // Order of the generated positions
  // ---------------------------------------------------------------------------

  ghost predicate StrictlyAscending(positions: seq<Position>) {
    forall i, j :: 0 <= i < j < |positions| ==> Less(positions[i], positions[j])
  }

  /** A list as the engine keeps it: strictly sorted, every position well placed. */
  ghost predicate WellOrdered(positions: seq<Position>) {
    StrictlyAscending(positions) && forall i :: 0 <= i < |positions| ==> WellPlaced(positions[i])
  }

  lemma StepFits(count: nat, step: nat, i: nat)
    requires 2 <= step && step * (count + 1) <= POSITION_BASE && i < count
    ensures step <= (i + 1) * step <= POSITION_BASE - 2
    ensures i * step < (i + 1) * step
  {
    assert (i + 1) * step <= count * step == step * (count + 1) - step;
  }

  lemma FirstDigitDecides(p: Position, q: Position)
    requires AllDigits(p) && AllDigits(q) && |p| > 0 && |q| > 0
    requires Index(p[0]) < Index(q[0])
    ensures Less(p, q)
  {
    IndexIsMonotone(p[0], q[0]);
    assert LessAt(p, q, 0);
  }

  lemma SecondDigitDecides(p: Position, q: Position)
    requires AllDigits(p) && AllDigits(q) && |p| == 2 && |q| == 2
    requires Index(p[0]) == Index(q[0]) && Index(p[1]) < Index(q[1])
    ensures Less(p, q)
  {
    IndexIsMonotone(p[0], q[0]);
    IndexIsMonotone(p[1], q[1]);
    assert LessAt(p, q, 1);
  }

  lemma SpacedDigitAt(count: nat, step: nat, i: nat)
    requires 2 <= step && step * (count + 1) <= POSITION_BASE && i < count
    ensures (i + 1) * step < POSITION_BASE
    ensures WellPlaced(SpacedDigits(count, step)[i]) && |SpacedDigits(count, step)[i]| == 1
    ensures Index(SpacedDigits(count, step)[i][0]) == (i + 1) * step
  {
    StepFits(count, step, i);
    IndexOfDigit((i + 1) * step);
  }

  lemma SpacedDigitsInOrder(count: nat, step: nat, i: nat, j: nat)
    requires 2 <= step && step * (count + 1) <= POSITION_BASE && i < j < count
    ensures Less(SpacedDigits(count, step)[i], SpacedDigits(count, step)[j])
  {
    SpacedDigitAt(count, step, i);
    SpacedDigitAt(count, step, j);
    LaterStep(step, i, j);
    FirstDigitDecides(SpacedDigits(count, step)[i], SpacedDigits(count, step)[j]);
  }

  lemma LaterStep(step: nat, i: nat, j: nat)
    requires 1 <= step && i < j
    ensures (i + 1) * step < (j + 1) * step
  {
    assert (j + 1) * step == (i + 1) * step + (j - i) * step;
  }

  lemma SpacedDigitsAscend(count: nat, step: nat)
    requires 2 <= step && step * (count + 1) <= POSITION_BASE
    ensures WellOrdered(SpacedDigits(count, step))
  {
    var s := SpacedDigits(count, step);
    forall i | 0 <= i < count
      ensures WellPlaced(s[i])
    {
      SpacedDigitAt(count, step, i);
    }
    forall i, j | 0 <= i < j < count
      ensures Less(s[i], s[j])
    {
      SpacedDigitsInOrder(count, step, i, j);
    }
  }

  /** The domain generator succeeds for at most 30 items, and then keeps the invariant. */
  lemma DomainRebalance(count: int)
    ensures GenerateBalancedPositions(count).Ok? <==> 0 <= count <= 30
    ensures 0 <= count <= 30 ==>
              && |GenerateBalancedPositions(count).value| == count
              && WellOrdered(GenerateBalancedPositions(count).value)
    ensures 0 <= count <= 30 ==> WorkerBalancedPositions(count) == GenerateBalancedPositions(count).value
  {
    if 0 < count <= 30 {
      var step := POSITION_BASE / (count + 1);
      StepOfShortList(count);
      SpacedDigitsAscend(count, step);
    } else if 30 < count {
      StepOfLongList(count);
    }
  }

  /** The first digit is as far from the minimum as any two neighbours are from each other. */
  predicate EvenlySpaced(positions: seq<Position>, step: nat) {
    forall i :: 0 <= i < |positions| ==>
      && |positions[i]| == 1 && IsDigit(positions[i][0])
      && Index(positions[i][0]) == step + if i == 0 then 0 else PreviousIndex(positions, i)
  }

  function PreviousIndex(positions: seq<Position>, i: nat): nat
    requires 0 < i <= |positions|
  {
    if |positions[i - 1]| == 1 && IsDigit(positions[i - 1][0]) then Index(positions[i - 1][0]) else 0
  }

  /** The domain's positions are evenly spaced, as widely as 62 digits allow. */
  lemma DomainSpacing(count: int)
    requires 1 <= count <= 30
    ensures GenerateBalancedPositions(count).Ok?
    ensures exists step: nat :: EvenlySpaced(GenerateBalancedPositions(count).value, step)
                                && step * (count + 1) <= 62 < (step + 1) * (count + 1)
  {
    var step := POSITION_BASE / (count + 1);
    StepOfShortList(count);
    var s := SpacedDigits(count, step);
    forall i | 0 <= i < count
      ensures |s[i]| == 1 && IsDigit(s[i][0]) && Index(s[i][0]) == step + if i == 0 then 0 else PreviousIndex(s, i)
    {
      SpacedDigitAt(count, step, i);
      if i > 0 {
        SpacedDigitAt(count, step, i - 1);
        assert (i + 1) * step == i * step + step;
      }
    }
    assert EvenlySpaced(s, step);
    WidestStep(count, step);
  }

  lemma WidestStep(count: nat, step: nat)
    requires step == POSITION_BASE / (count + 1)
    ensures step * (count + 1) <= POSITION_BASE < (step + 1) * (count + 1)
  {
    assert (step + 1) * (count + 1) == step * (count + 1) + (count + 1);
  }

  /** The worker's two digits count the cards of a long list, 60 for each first digit. */
  lemma TwoDigitsCount(count: nat, i: nat)
    requires 30 < count && i < count && i < WORKER_CAPACITY
    ensures |WorkerBalancedPositions(count)| == count
    ensures var p := WorkerBalancedPositions(count)[i];
            && |p| == 2 && AllDigits(p) && 1 <= Index(p[1]) <= 60
            && (Index(p[0]) - 1) * 60 + (Index(p[1]) - 1) == i
  {
    StepOfLongList(count);
    TwoDigitIndices(i);
  }

  /** A rebalance is asked for from three quarters of the maximum length on. */
  lemma ShouldRebalanceIff(p: Position)
    ensures IsValidPosition(p) ==> (ShouldRebalancePosition(p) == Ok(true) <==> 4 * |p| >= 3 * POSITION_MAX_LENGTH)
    ensures IsValidPosition(p) ==> ShouldRebalancePosition(p).Ok?
    ensures !IsValidPosition(p) ==> ShouldRebalancePosition(p) == Err(InvalidPosition)
  {
  }

  lemma StepOfShortList(count: int)
    requires 0 < count <= 30
    ensures 2 <= POSITION_BASE / (count + 1) && POSITION_BASE / (count + 1) * (count + 1) <= POSITION_BASE
  {
  }

  lemma StepOfLongList(count: int)
    requires 30 < count
    ensures POSITION_BASE / (count + 1) <= 1
  {
  }

  const WORKER_CAPACITY: nat := 3660

  lemma TwoDigitIndices(i: nat)
    requires i < WORKER_CAPACITY
    ensures var p := TwoDigitPosition(i);
            && |p| == 2 && AllDigits(p)
            && Index(p[0]) == i / SUFFIXES + 1
            && Index(p[1]) == i % SUFFIXES + 1
  {
    IndexOfDigit(i / SUFFIXES + 1);
    IndexOfDigit(i % SUFFIXES + 1);
  }

  lemma TwoDigitOrder(i: nat, j: nat)
    requires i < j < WORKER_CAPACITY
    ensures Less(TwoDigitPosition(i), TwoDigitPosition(j))
  {
    var p, q := TwoDigitPosition(i), TwoDigitPosition(j);
    TwoDigitIndices(i);
    TwoDigitIndices(j);
    SegmentOrder(i, j);
    if Index(p[0]) < Index(q[0]) {
      FirstDigitDecides(p, q);
    } else {
      SecondDigitDecides(p, q);
    }
  }

  lemma SegmentOrder(i: nat, j: nat)
    requires i < j
    ensures i / SUFFIXES < j / SUFFIXES || (i / SUFFIXES == j / SUFFIXES && i % SUFFIXES < j % SUFFIXES)
  {
  }

  lemma TwoDigitsRepeat()
    ensures TwoDigitPosition(WORKER_CAPACITY - SUFFIXES) == TwoDigitPosition(WORKER_CAPACITY)
  {
  }

  /**
   The worker's positions are strictly ascending exactly for lists of at most 3660 cards. They
   are always valid, at most two digits long and never end in the minimum digit.
   */
  lemma WorkerRebalance(count: nat)
    ensures |WorkerBalancedPositions(count)| == count
    ensures forall i :: 0 <= i < count ==>
              var p := WorkerBalancedPositions(count)[i];
              IsValidPosition(p) && |p| <= 2 && p[|p| - 1] != POSITION_MIN_CHAR
    ensures StrictlyAscending(WorkerBalancedPositions(count)) <==> count <= WORKER_CAPACITY
  {
    var s := WorkerBalancedPositions(count);
    if count <= 30 {
      DomainRebalance(count);
    } else {
      StepOfLongList(count);
      assert s == TwoDigitPositions(count);
      forall i | 0 <= i < count
        ensures s[i][1] != POSITION_MIN_CHAR
      {
        IndexOfDigit(i % SUFFIXES + 1);
      }
      if count <= WORKER_CAPACITY {
        forall i, j | 0 <= i < j < count
          ensures Less(s[i], s[j])
        {
          TwoDigitOrder(i, j);
        }
      } else {
        TwoDigitsRepeat();
        assert s[WORKER_CAPACITY - SUFFIXES] == s[WORKER_CAPACITY];
        if Less(s[WORKER_CAPACITY], s[WORKER_CAPACITY]) {
          LessIsAsymmetric(s[WORKER_CAPACITY], s[WORKER_CAPACITY]);
        }
      }
    }
  }

  lemma SegmentBelowMax(i: nat)
    ensures i / SUFFIXES + 1 < POSITION_BASE - 1 <==> i < WORKER_CAPACITY - SUFFIXES
  {
  }

  lemma TwoDigitWellPlaced(i: nat)
    requires i < WORKER_CAPACITY
    ensures WellPlaced(TwoDigitPosition(i)) <==> i < WORKER_CAPACITY - SUFFIXES
  {
    var p := TwoDigitPosition(i);
    TwoDigitIndices(i);
    SegmentBelowMax(i);
    assert Index(p[1]) >= 1;
    assert Index(POSITION_MAX_CHAR) == POSITION_BASE - 1 && Index(POSITION_MIN_CHAR) == 0;
  }

  /** Below 3601 cards the worker also keeps the first digit under the maximum. */
  lemma WorkerWellPlaced(count: nat)
    ensures WellOrdered(WorkerBalancedPositions(count)) <==> count <= WORKER_CAPACITY - SUFFIXES
  {
    if count <= 30 {
      DomainRebalance(count);
    } else {
      WorkerRebalance(count);
      StepOfLongList(count);
      var s := TwoDigitPositions(count);
      forall i | 0 <= i < count && i < WORKER_CAPACITY
        ensures WellPlaced(s[i]) <==> i < WORKER_CAPACITY - SUFFIXES
      {
        TwoDigitWellPlaced(i);
      }
      assert count > WORKER_CAPACITY - SUFFIXES ==> !WellPlaced(s[WORKER_CAPACITY - SUFFIXES]);
    }
  }
}
