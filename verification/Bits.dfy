/** Words of 32 bits, the least significant bit first. */
module Bits {

  const BITS := 32

  type Word = w: seq<bool> | |w| == BITS witness seq(BITS, _ => false)

  function And(a: Word, b: Word): (r: Word) {
    seq(BITS, i requires 0 <= i < BITS => a[i] && b[i])
  }

  function Or(a: Word, b: Word): (r: Word) {
    seq(BITS, i requires 0 <= i < BITS => a[i] || b[i])
  }

  function Not(a: Word): (r: Word) {
    seq(BITS, i requires 0 <= i < BITS => !a[i])
  }

  /** Shifts by up to 32 bits; shifting by 32 leaves zero. */
  function Shr(a: Word, k: int): (r: Word)
    requires 0 <= k <= BITS
  {
    seq(BITS, i requires 0 <= i < BITS => i + k < BITS && a[i + k])
  }

  function Shl(a: Word, k: int): (r: Word)
    requires 0 <= k <= BITS
  {
    seq(BITS, i requires 0 <= i < BITS => i >= k && a[i - k])
  }

  function Decrement(s: seq<bool>): (r: seq<bool>)
    ensures |r| == |s|
  {
    if s == [] then [] else if s[0] then [false] + s[1..] else [true] + Decrement(s[1..])
  }

  function Increment(s: seq<bool>): (r: seq<bool>)
    ensures |r| == |s|
  {
    if s == [] then [] else if s[0] then [false] + Increment(s[1..]) else [true] + s[1..]
  }

  function Value(s: seq<bool>): (v: nat) {
    if s == [] then 0 else (if s[0] then 1 else 0) + 2 * Value(s[1..])
  }

  /** The number of values that n bits can have. */
  function Power(n: nat): (p: nat)
    ensures p > 0
  {
    if n == 0 then 1 else 2 * Power(n - 1)
  }

  /** Decrement subtracts one; from zero it wraps to all ones. */
  lemma {:induction false} DecrementValue(s: seq<bool>)
    ensures Value(Decrement(s)) == if Value(s) > 0 then Value(s) - 1 else Power(|s|) - 1
  {
    if s != [] {
      DecrementValue(s[1..]);
      assert Decrement(s)[1..] == if s[0] then s[1..] else Decrement(s[1..]);
    }
  }

  /** Increment adds one; from all ones it wraps to zero. */
  lemma {:induction false} IncrementValue(s: seq<bool>)
    ensures Value(s) < Power(|s|)
    ensures Value(Increment(s)) == if Value(s) + 1 < Power(|s|) then Value(s) + 1 else 0
  {
    if s != [] {
      IncrementValue(s[1..]);
      assert Increment(s)[1..] == if s[0] then Increment(s[1..]) else s[1..];
    }
  }

  /** n one bits at the least significant end. */
  function Mask(n: int): (r: Word) {
    seq(BITS, i => i < n)
  }

  function TrailingZeros(x: Word): (r: Word) {
    And(Decrement(x), Not(x))
  }

  function TrailingOnes(x: Word): (r: Word) {
    And(x, Not(Increment(x)))
  }

  predicate IsZero(x: Word) {
    forall i | 0 <= i < BITS :: !x[i]
  }

  /** The number of bits up to the highest one bit. */
  function Count(s: seq<bool>): (n: int)
    ensures 0 <= n <= |s|
  {
    if s == [] then 0 else if s[|s|-1] then |s| else Count(s[..|s|-1])
  }

  predicate AtLeast(a: Word, b: Word) {
    Value(a) >= Value(b)
  }

  // ----- what they compute -----

  /** n is the number of bits equal to b at the least significant end. */
  ghost predicate Run(s: seq<bool>, b: bool, n: int) {
    0 <= n <= |s| && (forall i | 0 <= i < n :: s[i] == b) && (n < |s| ==> s[n] != b)
  }

  lemma {:induction false} RunExists(s: seq<bool>, b: bool) returns (n: int)
    ensures Run(s, b, n)
  {
    if s == [] || s[0] != b {
      n := 0;
    } else {
      n := RunExists(s[1..], b);
      n := n + 1;
      assert forall i | 0 < i < |s| :: s[i] == s[1..][i - 1];
    }
  }

  lemma {:induction false} DecrementBits(s: seq<bool>, z: int)
    requires Run(s, false, z)
    ensures forall i | 0 <= i < |s| :: Decrement(s)[i] == if i < z then true else if i == z then false else s[i]
  {
    if s != [] && !s[0] {
      assert forall i | 0 < i < |s| :: s[i] == s[1..][i - 1];
      DecrementBits(s[1..], z - 1);
    }
  }

  lemma {:induction false} IncrementBits(s: seq<bool>, z: int)
    requires Run(s, true, z)
    ensures forall i | 0 <= i < |s| :: Increment(s)[i] == if i < z then false else if i == z then true else s[i]
  {
    if s != [] && s[0] {
      assert forall i | 0 < i < |s| :: s[i] == s[1..][i - 1];
      IncrementBits(s[1..], z - 1);
    }
  }

  lemma TrailingZerosIs(x: Word, z: int)
    requires Run(x, false, z)
    ensures TrailingZeros(x) == Mask(z)
  {
    DecrementBits(x, z);
  }

  lemma TrailingOnesIs(x: Word, z: int)
    requires Run(x, true, z)
    ensures TrailingOnes(x) == Mask(z)
  {
    IncrementBits(x, z);
  }

  lemma {:induction false} CountIs(s: seq<bool>, n: int)
    requires 0 <= n <= |s| && forall i | 0 <= i < |s| :: s[i] == (i < n)
    ensures Count(s) == n
  {
    if s != [] && !s[|s|-1] {
      CountIs(s[..|s|-1], n);
    }
  }

  lemma MaskCount(n: int)
    requires 0 <= n <= BITS
    ensures Count(Mask(n)) == n
  {
    CountIs(Mask(n), n);
  }

  lemma {:induction false} ZeroValue(s: seq<bool>)
    requires forall i | 0 <= i < |s| :: !s[i]
    ensures Value(s) == 0
  {
    if s != [] {
      ZeroValue(s[1..]);
    }
  }

  lemma {:induction false} OnesOrder(a: seq<bool>, b: seq<bool>, m: int, n: int)
    requires |a| == |b| && 0 <= m <= |a| && 0 <= n <= |a|
    requires (forall i | 0 <= i < |a| :: a[i] == (i < m)) && (forall i | 0 <= i < |b| :: b[i] == (i < n))
    ensures Value(a) >= Value(b) <==> m >= n
  {
    if a != [] {
      OnesOrder(a[1..], b[1..], if m > 0 then m - 1 else 0, if n > 0 then n - 1 else 0);
      if m == 0 {
        ZeroValue(a);
      }
    }
  }

  /** Masks are ordered by their lengths. */
  lemma MaskOrder(m: int, n: int)
    requires 0 <= m <= BITS && 0 <= n <= BITS
    ensures AtLeast(Mask(m), Mask(n)) <==> m >= n
  {
    OnesOrder(Mask(m), Mask(n), m, n);
  }
}
