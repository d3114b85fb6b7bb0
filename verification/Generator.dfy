/**
 Generation of a position between two optional neighbours, and how many times a card can be
 appended to a list before the engine gives up.
 */
module Generator {
  import opened Wrappers
  import opened Positions
  import opened Midpoints

  /** The right end when a card is put at the bottom. */
  const TOP: Position := [POSITION_MAX_CHAR]

  predicate AllMax(p: Position) {
    forall i :: 0 <= i < |p| ==> p[i] == POSITION_MAX_CHAR
  }

  function GeneratePosition(prev: Option<Position>, next: Option<Position>): Result<Position, PositionError> {
    if prev.Some? && !IsValidPosition(prev.value) then Err(InvalidPosition)
    else if next.Some? && !IsValidPosition(next.value) then Err(InvalidPosition)
    else if prev.Some? && next.Some? && Compare(prev.value, next.value).value >= 0 then Err(Collision)
    else match (prev, next)
      case (None, None) => Ok([POSITION_DEFAULT_MID_CHAR])
      case (None, Some(n)) =>
        if n == [POSITION_MIN_CHAR] then Err(Collision) else Midpoint([POSITION_MIN_CHAR], n)
      case (Some(p), None) =>
        if AllMax(p) then Ok(p + [POSITION_DEFAULT_MID_CHAR]) else Midpoint(p, TOP)
      case (Some(p), Some(n)) => Midpoint(p, n)
  }

  // ---------------------------------------------------------------------------
  // What every generated position satisfies
  // ---------------------------------------------------------------------------

  /** The unstated invariant of the engine: what it produces, and what it needs back. */
  predicate WellPlaced(p: Position) {
    && IsValidPosition(p)
    && |p| <= POSITION_MAX_MIDPOINT_DEPTH
    && p[|p| - 1] != POSITION_MIN_CHAR
    && p[0] != POSITION_MAX_CHAR
  }

  predicate WellPlacedOption(p: Option<Position>) {
    p.Some? ==> WellPlaced(p.value)
  }

  ghost predicate Ascending(prev: Option<Position>, next: Option<Position>) {
    prev.Some? && next.Some? ==> Less(prev.value, next.value)
  }

  /** `m` lies strictly between the neighbours that are given. */
  ghost predicate Between(prev: Option<Position>, m: Position, next: Option<Position>) {
    && (prev.Some? ==> Less(prev.value, m))
    && (next.Some? ==> Less(m, next.value))
  }

  /** The two positions the midpoint is taken of. */
  function LowerEnd(prev: Option<Position>): Position {
    if prev.Some? then prev.value else [POSITION_MIN_CHAR]
  }

  function UpperEnd(next: Option<Position>): Position {
    if next.Some? then next.value else TOP
  }

  lemma FirstDigitBelow(a: string, b: string)
    requires Less(a, b) && |a| > 0
    ensures |b| > 0 && a[0] <= b[0]
  {
    var k: nat :| LessAt(a, b, k);
    if k > 0 {
      assert a[0] == a[..k][0] && b[0] == b[..k][0];
    }
  }

  lemma EndsAscend(prev: Option<Position>, next: Option<Position>)
    requires WellPlacedOption(prev) && WellPlacedOption(next) && Ascending(prev, next)
    ensures Less(LowerEnd(prev), UpperEnd(next))
    ensures IsValidPosition(LowerEnd(prev)) && IsValidPosition(UpperEnd(next))
    ensures UpperEnd(next)[|UpperEnd(next)| - 1] != POSITION_MIN_CHAR
  {
    var lower, upper := LowerEnd(prev), UpperEnd(next);
    if prev.None? || next.None? {
      assert LessAt(lower, upper, if lower[0] == upper[0] then 1 else 0);
    }
  }

  /** The generator takes the midpoint of the two ends whenever a neighbour is given. */
  lemma GeneratesMidpoint(prev: Option<Position>, next: Option<Position>)
    requires WellPlacedOption(prev) && WellPlacedOption(next) && Ascending(prev, next)
    requires prev.Some? || next.Some?
    ensures GeneratePosition(prev, next) == Midpoint(LowerEnd(prev), UpperEnd(next))
  {
    if prev.Some? && next.Some? {
      CompareIsByteOrder(prev.value, next.value);
    }
  }

  lemma MidpointWellPlaced(lower: Position, upper: Position, m: Position)
    requires IsValidPosition(lower) && IsValidPosition(upper) && Less(lower, upper)
    requires upper[|upper| - 1] != POSITION_MIN_CHAR && (upper[0] != POSITION_MAX_CHAR || upper == TOP)
    requires Midpoint(lower, upper) == Ok(m)
    ensures WellPlaced(m) && Less(lower, m) && Less(m, upper)
  {
    MidpointBetween(lower, upper, m);
    FirstDigitBelow(m, upper);
    if upper == TOP {
      assert forall k: nat :: LessAt(m, TOP, k) ==> k == 0;
    }
  }

  /**
   Between well-placed ascending neighbours the generator returns a well-placed position
   strictly between them, or fails with a collision exactly when all 32 depths are crowded.
   The branch for a position of maximum digits only is never taken.
   */
  lemma GenerateBetween(prev: Option<Position>, next: Option<Position>)
    requires WellPlacedOption(prev) && WellPlacedOption(next) && Ascending(prev, next)
    ensures AllDigits(LowerEnd(prev)) && AllDigits(UpperEnd(next))
    ensures prev.Some? ==> !AllMax(prev.value)
    ensures var r := GeneratePosition(prev, next);
            && (r.Ok? ==> WellPlaced(r.value) && Between(prev, r.value, next))
            && (r.Err? ==> r.error == Collision)
            && (r.Err? <==> (prev.Some? || next.Some?)
                            && Crowded(LowerEnd(prev), UpperEnd(next), POSITION_MAX_MIDPOINT_DEPTH))
  {
    if prev.Some? || next.Some? {
      var lower, upper := LowerEnd(prev), UpperEnd(next);
      EndsAscend(prev, next);
      GeneratesMidpoint(prev, next);
      MidpointShape(lower, upper, 0, "");
      if Midpoint(lower, upper).Ok? {
        MidpointWellPlaced(lower, upper, Midpoint(lower, upper).value);
      }
    }
  }

  /** Without any assumption on the arguments: which calls are refused before the midpoint. */
  lemma GenerateGuards(prev: Option<Position>, next: Option<Position>)
    ensures GeneratePosition(prev, next) == Err(InvalidPosition) <==>
            (prev.Some? && !IsValidPosition(prev.value)) || (next.Some? && !IsValidPosition(next.value))
    ensures prev.Some? && next.Some? && IsValidPosition(prev.value) && IsValidPosition(next.value) ==>
              (!Less(prev.value, next.value) ==> GeneratePosition(prev, next) == Err(Collision))
  {
    if (prev.Some? ==> IsValidPosition(prev.value)) && (next.Some? ==> IsValidPosition(next.value)) {
      if prev.Some? && next.Some? {
        CompareIsByteOrder(prev.value, next.value);
      }
      MidpointShape(LowerEnd(prev), UpperEnd(next), 0, "");
    }
  }

  /**
   On all valid neighbours, the invariant kept or not: what is generated is always above `prev`,
   and below `next` exactly if `next` is not the lower end followed by minimum digits.
   */
  lemma GenerateBetweenIff(prev: Option<Position>, next: Option<Position>, m: Position)
    requires (prev.Some? ==> IsValidPosition(prev.value)) && (next.Some? ==> IsValidPosition(next.value))
    requires GeneratePosition(prev, next) == Ok(m)
    ensures prev.Some? ==> Less(prev.value, m)
    ensures next.Some? ==> (Less(m, next.value) <==> !ZeroExtension(LowerEnd(prev), next.value))
  {
    if prev.Some? && next.Some? {
      CompareIsByteOrder(prev.value, next.value);
      MidpointBetweenIff(prev.value, next.value, m);
      MidpointAbove(prev.value, next.value, m);
    } else if prev.Some? {
      if AllMax(prev.value) {
        assert LessAt(prev.value, m, |prev.value|);
      } else {
        MidpointAbove(prev.value, TOP, m);
      }
    } else if next.Some? {
      MinimumIsBelow(next.value);
      MidpointBetweenIff([POSITION_MIN_CHAR], next.value, m);
      MidpointAbove([POSITION_MIN_CHAR], next.value, m);
    }
  }

  lemma MinimumIsBelow(p: Position)
    requires IsValidPosition(p) && p != [POSITION_MIN_CHAR]
    ensures Less([POSITION_MIN_CHAR], p)
  {
    assert LessAt([POSITION_MIN_CHAR], p, if p[0] == POSITION_MIN_CHAR then 1 else 0);
  }

  /**
   The results that no midpoint gives: "V" in an empty list, a collision above the lowest
   position, and "V" after a position of maximum digits, which is valid unless it grows over 64.
   */
  lemma GenerateAtEnds(p: Position)
    requires IsValidPosition(p)
    ensures GeneratePosition(None, None) == Ok("V")
    ensures GeneratePosition(None, Some("0")) == Err(Collision)
    ensures (forall i :: 0 <= i < |p| ==> p[i] == 'z') ==>
              GeneratePosition(Some(p), None) == Ok(p + "V") && (IsValidPosition(p + "V") <==> |p| < 64)
  {
    assert IsValidPosition("0");
  }

  // ---------------------------------------------------------------------------
  // Append capacity
  // ---------------------------------------------------------------------------

  /** How often a gap can be replaced by its upper half before it closes. */
  function Halvings(gap: int): nat {
    if gap <= 1 then 0 else 1 + Halvings((gap + 1) / 2)
  }

  const HALVINGS_PER_DEPTH: nat := 6

  lemma HalvingsOfFullDigit()
    ensures Halvings(POSITION_BASE) == HALVINGS_PER_DEPTH
  {
    assert Halvings(8) == 3;
    assert Halvings(31) == 5;
  }

  lemma {:induction false} HalvingsMonotone(a: int, b: int)
    requires a <= b
    ensures Halvings(a) <= Halvings(b)
    decreases b
  {
    if a > 1 {
      HalvingsMonotone((a + 1) / 2, (b + 1) / 2);
    }
  }

  /**
   How many appends are left after `p`, found at the first depth below which `p` leaves no
   room: the halvings of the gap there, and six for every depth still unused.
   */
  function AppendsLeft(p: Position, depth: nat): nat
    requires AllDigits(p)
    decreases POSITION_MAX_MIDPOINT_DEPTH - depth
  {
    if depth >= POSITION_MAX_MIDPOINT_DEPTH then 0
    else if Gap(p, TOP, depth) > 1 then
      Halvings(Gap(p, TOP, depth)) + HALVINGS_PER_DEPTH * (POSITION_MAX_MIDPOINT_DEPTH - 1 - depth)
    else AppendsLeft(p, depth + 1)
  }

  lemma {:induction false} SkipCrowded(p: Position, depth: nat, end: nat)
    requires AllDigits(p) && depth <= end <= POSITION_MAX_MIDPOINT_DEPTH
    requires Crowded(p, TOP, end)
    ensures AppendsLeft(p, depth) == AppendsLeft(p, end)
    decreases end - depth
  {
    if depth < end {
      SkipCrowded(p, depth + 1, end);
    }
  }

  lemma {:induction false} AppendsLeftBound(p: Position, depth: nat)
    requires AllDigits(p)
    ensures AppendsLeft(p, depth) <= HALVINGS_PER_DEPTH * POSITION_MAX_MIDPOINT_DEPTH
    decreases POSITION_MAX_MIDPOINT_DEPTH - depth
  {
    if depth < POSITION_MAX_MIDPOINT_DEPTH {
      HalvingsOfFullDigit();
      HalvingsMonotone(Gap(p, TOP, depth), POSITION_BASE);
      AppendsLeftBound(p, depth + 1);
    }
  }

  /**
   One append after a position not starting with the maximum digit: it succeeds exactly when
   appends are left, lands above, and uses up exactly one of them.
   */
  lemma AppendUsesOne(p: Position)
    requires IsValidPosition(p) && p[0] != POSITION_MAX_CHAR
    ensures var r := GeneratePosition(Some(p), None);
            && (r.Ok? <==> AppendsLeft(p, 0) > 0)
            && (r.Ok? ==> IsValidPosition(r.value) && r.value[0] != POSITION_MAX_CHAR && Less(p, r.value))
            && (r.Ok? ==> AppendsLeft(r.value, 0) == AppendsLeft(p, 0) - 1)
            && (r.Err? ==> r.error == Collision)
  {
    assert !AllMax(p);
    assert LessAt(p, TOP, 0);
    MidpointShape(p, TOP, 0, "");
    if Midpoint(p, TOP).Err? {
      SkipCrowded(p, 0, POSITION_MAX_MIDPOINT_DEPTH);
    } else {
      var m := Midpoint(p, TOP).value;
      MidpointBetween(p, TOP, m);
      FirstDigitBelow(m, TOP);
      assert m[0] != POSITION_MAX_CHAR by {
        assert forall k: nat :: LessAt(m, TOP, k) ==> k == 0;
      }
      AppendedRoom(p, m);
    }
  }

  /** The middle digit halves the gap at its depth and changes none before it. */
  lemma AppendedGaps(p: Position, m: Position)
    requires AllDigits(p) && AllDigits(m) && Midpoint(p, TOP) == Ok(m)
    ensures 1 <= |m| <= POSITION_MAX_MIDPOINT_DEPTH
    ensures Crowded(p, TOP, |m| - 1) && Crowded(m, TOP, |m| - 1)
    ensures Gap(p, TOP, |m| - 1) > 1
    ensures Gap(m, TOP, |m| - 1) == (Gap(p, TOP, |m| - 1) + 1) / 2
    ensures Gap(m, TOP, |m|) == POSITION_BASE
  {
    MidpointShape(p, TOP, 0, "");
    var d := |m| - 1;
    forall j: nat | j < d
      ensures Gap(m, TOP, j) <= 1
    {
      assert m[j] == m[..d][j] == LeftChar(p, j);
      assert Gap(p, TOP, j) <= 1;
    }
  }

  lemma AppendedRoom(p: Position, m: Position)
    requires AllDigits(p) && AllDigits(m) && Midpoint(p, TOP) == Ok(m)
    ensures AppendsLeft(m, 0) == AppendsLeft(p, 0) - 1
  {
    AppendedGaps(p, m);
    HalvedRoom(p, m, |m| - 1);
    SkipCrowded(p, 0, |m| - 1);
    SkipCrowded(m, 0, |m| - 1);
  }

  /** Halving the gap at a depth, with the whole next depth free, takes one append away. */
  lemma HalvedRoom(p: Position, m: Position, d: nat)
    requires AllDigits(p) && AllDigits(m) && d < POSITION_MAX_MIDPOINT_DEPTH
    requires Gap(p, TOP, d) > 1 && Gap(m, TOP, d) == (Gap(p, TOP, d) + 1) / 2 && Gap(m, TOP, d + 1) == POSITION_BASE
    ensures AppendsLeft(m, d) == AppendsLeft(p, d) - 1
  {
    var half := Gap(m, TOP, d);
    assert Halvings(Gap(p, TOP, d)) == 1 + Halvings(half);
    if half <= 1 {
      HalvingsOfFullDigit();
    }
  }

  /** `n` cards appended one after the other, starting from the list's last position. */
  function AppendRun(last: Option<Position>, n: nat): Result<Option<Position>, PositionError>
    decreases n
  {
    if n == 0 then Ok(last)
    else match GeneratePosition(last, None)
      case Err(e) => Err(e)
      case Ok(m) => AppendRun(Some(m), n - 1)
  }

  /** Exactly `AppendsLeft` appends succeed after a position, never more than 192. */
  lemma {:induction false} AppendCapacity(p: Position, n: nat)
    requires IsValidPosition(p) && p[0] != POSITION_MAX_CHAR
    ensures AppendRun(Some(p), n).Ok? <==> n <= AppendsLeft(p, 0)
    ensures AppendRun(Some(p), n).Err? ==> AppendRun(Some(p), n).error == Collision
    ensures AppendsLeft(p, 0) <= 192
    decreases n
  {
    AppendsLeftBound(p, 0);
    AppendUsesOne(p);
    if n > 0 && GeneratePosition(Some(p), None).Ok? {
      AppendCapacity(GeneratePosition(Some(p), None).value, n - 1);
    }
  }

  lemma FirstPositionCapacity()
    ensures AppendsLeft([POSITION_DEFAULT_MID_CHAR], 0) == HALVINGS_PER_DEPTH * POSITION_MAX_MIDPOINT_DEPTH - 1
  {
    assert Gap([POSITION_DEFAULT_MID_CHAR], TOP, 0) == 30;
    assert Halvings(8) == 3;
    assert Halvings(30) == 5;
  }

  /** An empty list takes exactly 192 appended cards; the next append collides. */
  lemma EmptyListCapacity(n: nat)
    ensures AppendRun(None, n).Ok? <==> n <= 192
  {
    if n > 0 {
      AppendCapacity([POSITION_DEFAULT_MID_CHAR], n - 1);
      FirstPositionCapacity();
    }
  }
}
