/**
 The alphabet of ordering positions, their validation and their comparison.

 A position is a string over 62 digits whose character order is also their byte order.
 */
module Positions {
  import opened Wrappers

  type Position = string

  const POSITION_ALPHABET: string :=
    "0123456789" + "ABCDEFGHIJKLMNOPQRSTUVWXYZ" + "abcdefghijklmnopqrstuvwxyz"
  const POSITION_BASE: nat := 62
  const POSITION_MIN_CHAR: char := '0'
  const POSITION_MAX_CHAR: char := 'z'
  const POSITION_DEFAULT_MID_CHAR: char := 'V'
  const POSITION_MAX_LENGTH: nat := 64
  const POSITION_MAX_MIDPOINT_DEPTH: nat := 32

  /** The errors the ordering engine throws. */
  datatype PositionError = InvalidPosition | Collision | InvalidCharacter | InvalidTopology

  predicate IsDigit(c: char) {
    '0' <= c <= '9' || 'A' <= c <= 'Z' || 'a' <= c <= 'z'
  }

  /** The index of a digit in the alphabet. */
  function Index(c: char): (i: nat)
    requires IsDigit(c)
    ensures i < POSITION_BASE && Digit(i) == c
  {
    if c <= '9' then c as int - '0' as int
    else if c <= 'Z' then c as int - 'A' as int + 10
    else c as int - 'a' as int + 36
  }

  /** The digit at an index of the alphabet. */
  function Digit(i: nat): (c: char)
    requires i < POSITION_BASE
    ensures IsDigit(c)
  {
    if i < 10 then ('0' as int + i) as char
    else if i < 36 then ('A' as int + i - 10) as char
    else ('a' as int + i - 36) as char
  }

  lemma IndexOfDigit(i: nat)
    requires i < POSITION_BASE
    ensures Index(Digit(i)) == i
  {
  }

  /** Comparing two digits as characters is comparing their indices. */
  lemma IndexIsMonotone(c: char, d: char)
    requires IsDigit(c) && IsDigit(d)
    ensures c < d <==> Index(c) < Index(d)
    ensures c == d <==> Index(c) == Index(d)
  {
  }

  lemma AlphabetIsDigits(i: nat)
    requires i < POSITION_BASE
    ensures |POSITION_ALPHABET| == POSITION_BASE && POSITION_ALPHABET[i] == Digit(i)
  {
  }

  /** Fills the lookup table from character to index, one alphabet character at a time. */
  method BuildCharToIndex() returns (table: map<char, nat>)
    ensures forall c :: c in table <==> IsDigit(c)
    ensures forall c :: c in table ==> table[c] == Index(c)
  {
    table := map[];
    for index := 0 to |POSITION_ALPHABET|
      invariant forall c :: c in table <==> IsDigit(c) && Index(c) < index
      invariant forall c :: c in table ==> table[c] == Index(c)
    {
      AlphabetIsDigits(index);
      IndexOfDigit(index);
      forall c | IsDigit(c) && Index(c) == index
        ensures c == Digit(index)
      {
      }
      table := table[POSITION_ALPHABET[index] := index];
    }
  }

  lemma DigitIff(c: char)
    ensures c in POSITION_ALPHABET <==> IsDigit(c)
  {
    if IsDigit(c) {
      AlphabetIsDigits(Index(c));
    } else {
      forall i | 0 <= i < |POSITION_ALPHABET|
        ensures POSITION_ALPHABET[i] != c
      {
        AlphabetIsDigits(i);
      }
    }
  }

  /** Valid are the strings of 1 to 64 characters of the alphabet; all others are rejected. */
  lemma ValidIff(value: string)
    ensures IsValidPosition(value) <==>
            1 <= |value| <= 64 && forall i :: 0 <= i < |value| ==> value[i] in POSITION_ALPHABET
  {
    forall i | 0 <= i < |value|
      ensures value[i] in POSITION_ALPHABET <==> IsDigit(value[i])
    {
      DigitIff(value[i]);
    }
  }

  predicate AllDigits(s: string) {
    forall i :: 0 <= i < |s| ==> IsDigit(s[i])
  }

  predicate IsValidPosition(value: string) {
    0 < |value| <= POSITION_MAX_LENGTH && AllDigits(value)
  }

  // ---------------------------------------------------------------------------
  // Byte order of strings
  // ---------------------------------------------------------------------------

  predicate AgreeBelow(a: string, b: string, k: nat) {
    k <= |a| && k <= |b| && forall i :: 0 <= i < k ==> a[i] == b[i]
  }

  /** `a` comes before `b` because of what they hold at `k`, after a common prefix. */
  predicate LessAt(a: string, b: string, k: nat) {
    AgreeBelow(a, b, k) && k < |b| && (k == |a| || a[k] < b[k])
  }

  /** Prefix-first lexicographic order, the order in which the database sorts positions. */
  ghost predicate Less(a: string, b: string) {
    exists k: nat :: LessAt(a, b, k)
  }

  lemma LessIsTransitive(a: string, b: string, c: string)
    requires Less(a, b) && Less(b, c)
    ensures Less(a, c)
  {
    var j: nat :| LessAt(a, b, j);
    var k: nat :| LessAt(b, c, k);
    assert LessAt(a, c, if j < k then j else k);
  }

  lemma LessIsAsymmetric(a: string, b: string)
    requires Less(a, b)
    ensures !Less(b, a) && a != b
  {
    if Less(b, a) {
      LessIsTransitive(a, b, a);
    }
    assert forall k: nat :: !LessAt(a, a, k);
  }

  // ---------------------------------------------------------------------------
  // Comparator
  // ---------------------------------------------------------------------------

  /** The index at `i`, reading past the end as the minimum digit. */
  function PaddedIndex(p: string, i: nat): nat
    requires AllDigits(p)
  {
    if i < |p| then Index(p[i]) else 0
  }

  /** What the comparison loop returns when it reaches `index`. */
  function CompareFrom(left: string, right: string, index: nat): int
    requires AllDigits(left) && AllDigits(right)
    decreases |left| + |right| - index
  {
    if index >= |left| && index >= |right| then
      |left| - |right|
    else
      var diff := PaddedIndex(left, index) - PaddedIndex(right, index);
      if diff != 0 then diff else CompareFrom(left, right, index + 1)
  }

  function Compare(left: Position, right: Position): (r: Result<int, PositionError>)
  {
    if IsValidPosition(left) && IsValidPosition(right) then Ok(CompareFrom(left, right, 0)) else Err(InvalidPosition)
  }

  /** The comparator's loop computes `Compare`. */
  method ComparePositions(left: Position, right: Position) returns (r: Result<int, PositionError>)
    ensures r == Compare(left, right)
  {
    if !IsValidPosition(left) || !IsValidPosition(right) {
      return Err(InvalidPosition);
    }
    var maxLength := if |left| > |right| then |left| else |right|;
    for index := 0 to maxLength
      invariant CompareFrom(left, right, 0) == CompareFrom(left, right, index)
    {
      var leftChar := if index < |left| then left[index] else POSITION_MIN_CHAR;
      var rightChar := if index < |right| then right[index] else POSITION_MIN_CHAR;
      var diff := Index(leftChar) - Index(rightChar);
      if diff != 0 {
        return Ok(diff);
      }
    }
    return Ok(|left| - |right|);
  }

  /** From a common prefix on, the sign of the comparison is the byte order. */
  lemma {:induction false} CompareFromSign(left: string, right: string, index: nat)
    requires AllDigits(left) && AllDigits(right)
    requires AgreeBelow(left, right, index)
    ensures CompareFrom(left, right, index) < 0 <==> Less(left, right)
    ensures CompareFrom(left, right, index) > 0 <==> Less(right, left)
    decreases |left| - index
  {
    if index < |left| && index < |right| {
      IndexIsMonotone(left[index], right[index]);
      if left[index] == right[index] {
        CompareFromSign(left, right, index + 1);
      } else if left[index] < right[index] {
        assert LessAt(left, right, index);
        LessIsAsymmetric(left, right);
      } else {
        assert LessAt(right, left, index);
        LessIsAsymmetric(right, left);
      }
    } else if index < |right| {
      assert LessAt(left, right, index);
      LessIsAsymmetric(left, right);
      PaddedCompare(left, right, index);
    } else if index < |left| {
      assert LessAt(right, left, index);
      LessIsAsymmetric(right, left);
      PaddedCompare(right, left, index);
    } else {
      assert left == right;
      if Less(left, right) {
        LessIsAsymmetric(left, right);
      }
    }
  }

  /** A proper prefix compares below its extension, even one by minimum digits. */
  lemma {:induction false} PaddedCompare(short: string, long: string, index: nat)
    requires AllDigits(short) && AllDigits(long)
    requires |short| < |long| && |short| <= index <= |long|
    ensures CompareFrom(short, long, index) < 0 < CompareFrom(long, short, index)
    decreases |long| - index
  {
    if index < |long| {
      PaddedCompare(short, long, index + 1);
    }
  }

  /**
   The comparator is the plain byte order on every pair of valid positions. So it is a
   strict total order, and it is zero only on equal strings.
   */
  lemma CompareIsByteOrder(left: Position, right: Position)
    requires IsValidPosition(left) && IsValidPosition(right)
    ensures Compare(left, right).Ok?
    ensures Compare(left, right).value < 0 <==> Less(left, right)
    ensures Compare(left, right).value > 0 <==> Less(right, left)
    ensures Compare(left, right).value == 0 <==> left == right
  {
    CompareFromSign(left, right, 0);
    if left == right {
      if Less(left, right) {
        LessIsAsymmetric(left, right);
      }
    } else {
      LessIsTotal(left, right, 0);
    }
  }

  lemma {:induction false} LessIsTotal(left: string, right: string, index: nat)
    requires left != right
    requires AgreeBelow(left, right, index)
    ensures Less(left, right) || Less(right, left)
    decreases |left| - index
  {
    if index < |left| && index < |right| && left[index] == right[index] {
      LessIsTotal(left, right, index + 1);
    } else if index == |left| || (index < |right| && left[index] < right[index]) {
      assert LessAt(left, right, index);
    } else {
      assert LessAt(right, left, index);
    }
  }
}
