/**
 The midpoint of two positions: walk both digit by digit until two digits leave room for a
 third one between them, borrowing from the end of the alphabet once `right` has ended.
 */
module Midpoints {
  import opened Wrappers
  import opened Positions

  /** The digit of `left` at a depth, the minimum digit past its end. */
  function LeftChar(left: string, depth: nat): char {
    if depth < |left| then left[depth] else POSITION_MIN_CHAR
  }

  /** The index of `right` at a depth, one past the alphabet after its end. */
  function RightIndex(right: string, depth: nat): nat
    requires depth < |right| ==> IsDigit(right[depth])
  {
    if depth < |right| then Index(right[depth]) else POSITION_BASE
  }

  predicate ReadableAt(left: string, right: string, depth: nat) {
    IsDigit(LeftChar(left, depth)) && (depth < |right| ==> IsDigit(right[depth]))
  }

  /** The room between the two digits at a depth. */
  function Gap(left: string, right: string, depth: nat): int
    requires ReadableAt(left, right, depth)
  {
    RightIndex(right, depth) - Index(LeftChar(left, depth))
  }

  /** The result of the midpoint loop when it reaches `depth` with the prefix `result`. */
  function MidpointFrom(left: string, right: string, depth: nat, result: string): Result<Position, PositionError>
    decreases POSITION_MAX_MIDPOINT_DEPTH - depth
  {
    if depth >= POSITION_MAX_MIDPOINT_DEPTH then
      Err(Collision)
    else if !ReadableAt(left, right, depth) then
      Err(InvalidCharacter)
    else if Gap(left, right, depth) > 1 then
      Ok(result + [Digit((Index(LeftChar(left, depth)) + RightIndex(right, depth)) / 2)])
    else
      MidpointFrom(left, right, depth + 1, result + [LeftChar(left, depth)])
  }

  function Midpoint(left: Position, right: Position): Result<Position, PositionError> {
    MidpointFrom(left, right, 0, "")
  }

  /** The digit loop computes `Midpoint` on any two strings. */
  method ComputeMidpoint(left: Position, right: Position) returns (r: Result<Position, PositionError>)
    ensures r == Midpoint(left, right)
  {
    var depth: nat := 0;
    var result := "";
    while depth < POSITION_MAX_MIDPOINT_DEPTH
      invariant depth <= POSITION_MAX_MIDPOINT_DEPTH
      invariant Midpoint(left, right) == MidpointFrom(left, right, depth, result)
    {
      var leftChar := if depth < |left| then left[depth] else POSITION_MIN_CHAR;
      if !IsDigit(leftChar) {
        return Err(InvalidCharacter);
      }
      var leftIndex := Index(leftChar);
      var rightIndex: nat := POSITION_BASE;
      if depth < |right| {
        if !IsDigit(right[depth]) {
          return Err(InvalidCharacter);
        }
        rightIndex := Index(right[depth]);
      }
      if rightIndex - leftIndex > 1 {
        var middleIndex := (leftIndex + rightIndex) / 2;
        // The source also rejects a candidate over 64 characters; at depth 31 it has 32.
        return Ok(result + [Digit(middleIndex)]);
      }
      result := result + [leftChar];
      depth := depth + 1;
    }
    return Err(Collision);
  }

  // ---------------------------------------------------------------------------
  // Shape of the result
  // ---------------------------------------------------------------------------

  /** The first `n` digits of `m` are those of `left`, filled up with minimum digits. */
  predicate CopiesLeft(left: string, m: string, n: nat) {
    n <= |m| && forall i :: 0 <= i < n ==> m[i] == LeftChar(left, i)
  }

  ghost predicate Crowded(left: string, right: string, depth: nat)
    requires AllDigits(left) && AllDigits(right)
  {
    forall j: nat :: j < depth ==> Gap(left, right, j) <= 1
  }

  /** `m` copies `left` down to its last digit, which lies in the middle of the first gap. */
  ghost predicate FillsFirstGap(left: string, right: string, m: string)
    requires AllDigits(left) && AllDigits(right) && |m| > 0
  {
    var d := |m| - 1;
    && CopiesLeft(left, m, d) && Crowded(left, right, d) && Gap(left, right, d) > 1
    && IsDigit(m[d])
    && Index(m[d]) == (Index(LeftChar(left, d)) + RightIndex(right, d)) / 2
    && Index(LeftChar(left, d)) < Index(m[d]) < RightIndex(right, d)
  }

  /**
   On digit strings the loop fails exactly when none of its 32 depths has room; otherwise
   the result copies `left` up to the first depth with room and puts the middle digit there.
   */
  lemma {:induction false} MidpointShape(left: string, right: string, depth: nat, result: string)
    requires AllDigits(left) && AllDigits(right)
    requires depth <= POSITION_MAX_MIDPOINT_DEPTH
    requires |result| == depth && CopiesLeft(left, result, depth) && Crowded(left, right, depth)
    ensures var r := MidpointFrom(left, right, depth, result);
            && (r.Ok? ==> 0 < |r.value| <= POSITION_MAX_MIDPOINT_DEPTH && FillsFirstGap(left, right, r.value))
            && (r.Err? ==> r.error == Collision && Crowded(left, right, POSITION_MAX_MIDPOINT_DEPTH))
    decreases POSITION_MAX_MIDPOINT_DEPTH - depth
  {
    if depth < POSITION_MAX_MIDPOINT_DEPTH {
      if Gap(left, right, depth) > 1 {
        var middle := (Index(LeftChar(left, depth)) + RightIndex(right, depth)) / 2;
        IndexOfDigit(middle);
        assert (result + [Digit(middle)])[depth] == Digit(middle);
      } else {
        MidpointShape(left, right, depth + 1, result + [LeftChar(left, depth)]);
      }
    }
  }

  /** The loop comes to a depth: everything before could be read and left no room. */
  ghost predicate ComesTo(left: string, right: string, depth: nat) {
    forall j: nat :: j < depth ==> ReadableAt(left, right, j) && Gap(left, right, j) <= 1
  }

  /** On any strings a bad character is reported exactly if the loop comes to one within 32 depths. */
  lemma {:induction false} BadCharacterIff(left: string, right: string, depth: nat, result: string)
    requires depth <= POSITION_MAX_MIDPOINT_DEPTH && ComesTo(left, right, depth)
    ensures MidpointFrom(left, right, depth, result) == Err(InvalidCharacter) <==>
            exists d: nat :: depth <= d < POSITION_MAX_MIDPOINT_DEPTH
                             && ComesTo(left, right, d) && !ReadableAt(left, right, d)
    decreases POSITION_MAX_MIDPOINT_DEPTH - depth
  {
    if depth < POSITION_MAX_MIDPOINT_DEPTH {
      if ReadableAt(left, right, depth) && Gap(left, right, depth) <= 1 {
        assert ComesTo(left, right, depth + 1);
        BadCharacterIff(left, right, depth + 1, result + [LeftChar(left, depth)]);
      } else {
        assert forall d: nat :: d > depth ==> !ComesTo(left, right, d) by {
          StopsAt(left, right, depth);
        }
      }
    }
  }

  lemma StopsAt(left: string, right: string, depth: nat)
    requires !(ReadableAt(left, right, depth) && Gap(left, right, depth) <= 1)
    ensures forall d: nat :: d > depth ==> !ComesTo(left, right, d)
  {
  }

  // ---------------------------------------------------------------------------
  // Betweenness
  // ---------------------------------------------------------------------------

  /** `right` is `left` followed by minimum digits only, so no position fits between them. */
  predicate ZeroExtension(left: string, right: string) {
    left <= right && forall i :: |left| <= i < |right| ==> right[i] == POSITION_MIN_CHAR
  }

  /** The padded `left` agrees with `right` before depth `k` and is below it there. */
  predicate DiffersAt(left: string, right: string, k: nat) {
    k < |right| && CopiesLeft(left, right, k) && LeftChar(left, k) < right[k]
  }

  lemma {:induction false} FirstNonMin(right: string, from: nat) returns (k: nat)
    requires from <= |right|
    requires exists i :: from <= i < |right| && right[i] != POSITION_MIN_CHAR
    ensures from <= k < |right| && right[k] != POSITION_MIN_CHAR
    ensures forall i :: from <= i < k ==> right[i] == POSITION_MIN_CHAR
    decreases |right| - from
  {
    if right[from] != POSITION_MIN_CHAR {
      k := from;
    } else {
      k := FirstNonMin(right, from + 1);
    }
  }

  lemma FirstDifference(left: Position, right: Position) returns (k: nat)
    requires AllDigits(left) && AllDigits(right)
    requires Less(left, right) && !ZeroExtension(left, right)
    ensures DiffersAt(left, right, k)
  {
    k :| LessAt(left, right, k);
    if k == |left| {
      assert left <= right;
      k := FirstNonMin(right, k);
    }
  }

  /** Any string that copies the padded `left` and then exceeds it lies above `left`. */
  lemma AboveLeft(left: string, m: string, depth: nat)
    requires |m| == depth + 1 && CopiesLeft(left, m, depth)
    requires LeftChar(left, depth) < m[depth]
    ensures Less(left, m)
  {
    assert LessAt(left, m, if depth < |left| then depth else |left|);
  }

  /** A result of `Midpoint` is a valid position that does not end in the minimum digit. */
  lemma {:induction false} MidpointIsValid(left: Position, right: Position, depth: nat, result: string)
    requires AllDigits(left) && AllDigits(right) && AllDigits(result)
             && |result| == depth <= POSITION_MAX_MIDPOINT_DEPTH
    ensures var r := MidpointFrom(left, right, depth, result);
            r.Ok? ==> IsValidPosition(r.value) && |r.value| <= POSITION_MAX_MIDPOINT_DEPTH
                      && r.value[|r.value| - 1] != POSITION_MIN_CHAR
    decreases POSITION_MAX_MIDPOINT_DEPTH - depth
  {
    if depth < POSITION_MAX_MIDPOINT_DEPTH {
      if Gap(left, right, depth) > 1 {
        IndexOfDigit((Index(LeftChar(left, depth)) + RightIndex(right, depth)) / 2);
      } else {
        MidpointIsValid(left, right, depth + 1, result + [LeftChar(left, depth)]);
      }
    }
  }

  lemma MidpointAbove(left: Position, right: Position, m: Position)
    requires AllDigits(left) && AllDigits(right)
    requires Midpoint(left, right) == Ok(m)
    ensures Less(left, m)
  {
    MidpointShape(left, right, 0, "");
    var d := |m| - 1;
    IndexIsMonotone(LeftChar(left, d), m[d]);
    AboveLeft(left, m, d);
  }

  lemma NoRoomBefore(left: string, right: string, k: nat)
    requires AllDigits(left) && AllDigits(right)
    requires k <= |right| && CopiesLeft(left, right, k)
    ensures forall j: nat :: j < k ==> Gap(left, right, j) == 0
  {
  }

  lemma FilledBelow(left: string, right: string, m: string, k: nat)
    requires AllDigits(left) && AllDigits(right) && |m| > 0
    requires FillsFirstGap(left, right, m) && DiffersAt(left, right, k)
    ensures Less(m, right)
  {
    var d := |m| - 1;
    NoRoomBefore(left, right, k);
    if d == k {
      IndexIsMonotone(m[d], right[d]);
    }
    assert LessAt(m, right, k);
  }

  lemma MidpointBelow(left: Position, right: Position, m: Position)
    requires AllDigits(left) && AllDigits(right)
    requires Midpoint(left, right) == Ok(m)
    requires Less(left, right) && !ZeroExtension(left, right)
    ensures Less(m, right)
  {
    MidpointShape(left, right, 0, "");
    var k := FirstDifference(left, right);
    FilledBelow(left, right, m, k);
  }

  /** When `right` is `left` with minimum digits appended, the result overshoots both. */
  lemma OvershootsZeroExtension(left: Position, right: Position, m: Position)
    requires AllDigits(left) && AllDigits(right)
    requires Midpoint(left, right) == Ok(m)
    requires ZeroExtension(left, right)
    ensures Less(right, m)
  {
    MidpointShape(left, right, 0, "");
    NoRoomBefore(left, right, |right|);
    assert LessAt(right, m, |right|);
  }

  /**
   Exactly when a midpoint is a midpoint: for valid `left` below `right`, whatever the loop
   returns lies strictly between them if and only if `right` is not `left` followed by
   minimum digits.
   */
  lemma MidpointBetweenIff(left: Position, right: Position, m: Position)
    requires IsValidPosition(left) && IsValidPosition(right) && Less(left, right)
    requires Midpoint(left, right) == Ok(m)
    ensures Less(left, m) && Less(m, right) <==> !ZeroExtension(left, right)
  {
    MidpointAbove(left, right, m);
    if ZeroExtension(left, right) {
      OvershootsZeroExtension(left, right, m);
      LessIsAsymmetric(right, m);
    } else {
      MidpointBelow(left, right, m);
    }
  }

  lemma NoZeroExtension(left: Position, right: Position)
    requires Less(left, right) && |right| > 0 && right[|right| - 1] != POSITION_MIN_CHAR
    ensures !ZeroExtension(left, right)
  {
    assert left <= right && |left| == |right| ==> left == right;
    LessIsAsymmetric(left, right);
  }

  /** A right end that does not end in the minimum digit is always safe. */
  lemma MidpointBetween(left: Position, right: Position, m: Position)
    requires IsValidPosition(left) && IsValidPosition(right) && Less(left, right)
    requires right[|right| - 1] != POSITION_MIN_CHAR
    requires Midpoint(left, right) == Ok(m)
    ensures Less(left, m) && Less(m, right)
    ensures IsValidPosition(m) && |m| <= POSITION_MAX_MIDPOINT_DEPTH && m[|m| - 1] != POSITION_MIN_CHAR
  {
    MidpointIsValid(left, right, 0, "");
    NoZeroExtension(left, right);
    MidpointBetweenIff(left, right, m);
  }

  /** Without that guard the comment in the comparator, "U" below "U0", is enough to overshoot. */
  lemma MidpointOvershoots()
    ensures Less("U", "U0")
    ensures Midpoint("U", "U0") == Ok("U0V")
    ensures Less("U0", "U0V")
  {
    assert LessAt("U", "U0", 1);
    assert LessAt("U0", "U0V", 2);
    OvershootFirstDepth();
    OvershootSecondDepth();
    OvershootThirdDepth();
  }

  lemma OvershootFirstDepth()
    ensures MidpointFrom("U", "U0", 0, "") == MidpointFrom("U", "U0", 1, "U")
  {
    assert Gap("U", "U0", 0) == 0;
    assert "" + [LeftChar("U", 0)] == "U";
  }

  lemma OvershootSecondDepth()
    ensures MidpointFrom("U", "U0", 1, "U") == MidpointFrom("U", "U0", 2, "U0")
  {
    assert Gap("U", "U0", 1) == 0;
    assert "U" + [LeftChar("U", 1)] == "U0";
  }

  lemma OvershootThirdDepth()
    ensures MidpointFrom("U", "U0", 2, "U0") == Ok("U0V")
  {
    assert Gap("U", "U0", 2) == 62;
    assert "U0" + [Digit(31)] == "U0V";
  }
}
