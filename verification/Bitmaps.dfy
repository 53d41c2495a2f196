/**
 Searching a bitmap for a sequence of clear bits, a word at a time. A run of zeros left at the end
 of a word is carried into the next word, which is shifted up by as much.
 */
module Bitmaps {
  import opened Bits

  const NOT_FOUND := -1
  const MAX_SEQ := 7

  /** A bitmap of n words, as bits from the first word on. */
  ghost predicate IsBitmap(bits: seq<bool>, n: int) {
    n >= 0 && |bits| == BITS * n
  }

  function WordAt(bits: seq<bool>, n: int, index: int): (w: Word)
    requires IsBitmap(bits, n) && 0 <= index < n
  {
    bits[BITS * index..BITS * index + BITS]
  }

  ghost predicate ClearRun(bits: seq<bool>, p: int, len: int) {
    0 <= p && p + len <= |bits| && forall j | p <= j < p + len :: !bits[j]
  }

  ghost predicate AllSet(bits: seq<bool>, lo: int, hi: int) {
    0 <= lo <= hi <= |bits| && forall j | lo <= j < hi :: bits[j]
  }

  /** No sequence of len clear bits starts before pos. */
  ghost predicate NoneBefore(bits: seq<bool>, pos: int, len: int) {
    forall p {:trigger ClearRun(bits, p, len)} | p < pos :: !ClearRun(bits, p, len)
  }

  /** The state at the head of the loop: word holds the bits from position BITS * index + bit on; if
      bit is negative, that position is in the word before, and next is the current word. */
  ghost predicate Window(bits: seq<bool>, n: int, index: int, bit: int, word: Word, next: Word) {
    && IsBitmap(bits, n) && 0 <= index < n && -BITS < bit < BITS && BITS * index + bit >= 0
    && (bit >= 0 ==> word == Shr(WordAt(bits, n, index), bit) && (bit > 0 ==> !IsZero(word)))
    && (bit < 0 ==>
          next == WordAt(bits, n, index) && word == Shl(next, -bit) && ClearRun(bits, BITS * index + bit, -bit))
  }

  /** Bits of the window are bits of the map, as far as the word reaches. */
  lemma WindowBit(bits: seq<bool>, n: int, index: int, bit: int, word: Word, next: Word, j: int)
    requires Window(bits, n, index, bit, word, next) && 0 <= j < BITS
    ensures bit + j < BITS ==> BITS * index + bit + j < |bits| && word[j] == bits[BITS * index + bit + j]
    ensures bit + j >= BITS ==> !word[j]
  {
    if bit < 0 && j < -bit {
      assert ClearRun(bits, BITS * index + bit, -bit);
    }
  }

  lemma WindowZero(bits: seq<bool>, n: int, index: int, bit: int, word: Word, next: Word)
    requires Window(bits, n, index, bit, word, next) && IsZero(word)
    ensures ClearRun(bits, BITS * index + bit, BITS)
  {
    forall k | BITS * index + bit <= k < BITS * index + bit + BITS ensures k < |bits| && !bits[k] {
      WindowBit(bits, n, index, bit, word, next, k - (BITS * index + bit));
    }
  }

  /** The zeros at the least significant end are a run that a one bit ends. */
  lemma WindowRun(bits: seq<bool>, n: int, index: int, bit: int, word: Word, next: Word, z: int)
    requires Window(bits, n, index, bit, word, next) && !IsZero(word) && Run(word, false, z)
    ensures 0 <= z < BITS && bit + z < BITS && ClearRun(bits, BITS * index + bit, z)
    ensures BITS * index + bit + z < |bits| && bits[BITS * index + bit + z]
  {
    assert z < BITS;
    WindowBit(bits, n, index, bit, word, next, z);
    forall k | BITS * index + bit <= k < BITS * index + bit + z ensures k < |bits| && !bits[k] {
      WindowBit(bits, n, index, bit, word, next, k - (BITS * index + bit));
    }
  }

  /** The zeros and the ones that follow: bits of the map, all ones from z on. */
  lemma WindowOnes(bits: seq<bool>, n: int, index: int, bit: int, word: Word, next: Word, z: int, ones: int)
    requires Window(bits, n, index, bit, word, next) && !IsZero(word) && Run(word, false, z)
    requires Run(Or(word, Mask(z)), true, ones)
    ensures z < ones <= BITS && bit + ones <= BITS && (bit < 0 ==> ones > -bit)
    ensures AllSet(bits, BITS * index + bit + z, BITS * index + bit + ones)
  {
    WindowRun(bits, n, index, bit, word, next, z);
    assert Or(word, Mask(z))[z];
    if bit > 0 {
      WindowBit(bits, n, index, bit, word, next, BITS - bit);
      assert !Or(word, Mask(z))[BITS - bit];
    }
    forall k | BITS * index + bit + z <= k < BITS * index + bit + ones ensures 0 <= k < |bits| && bits[k] {
      WindowBit(bits, n, index, bit, word, next, k - (BITS * index + bit));
      assert Or(word, Mask(z))[k - (BITS * index + bit)];
    }
  }

  /** No run of len clear bits starts in the zeros and ones of the window when there are fewer zeros. */
  lemma NoneInRun(bits: seq<bool>, pos: int, z: int, ones: int, len: int)
    requires NoneBefore(bits, pos, len) && 0 <= z < len && z < ones
    requires AllSet(bits, pos + z, pos + ones)
    ensures NoneBefore(bits, pos + ones, len)
  {
    forall p | p < pos + ones ensures !ClearRun(bits, p, len) {
      if p >= pos {
        var k := if p < pos + z then pos + z else p;
        assert bits[k];
      }
    }
  }

  /** The position in the current word after the zeros and ones, and what is left of the word. */
  ghost predicate Rest(bits: seq<bool>, n: int, index: int, bit: int, word: Word) {
    IsBitmap(bits, n) && 0 <= index < n && 0 < bit <= BITS && word == Shr(WordAt(bits, n, index), bit)
  }

  lemma RestZero(bits: seq<bool>, n: int, index: int, bit: int, word: Word)
    requires Rest(bits, n, index, bit, word) && IsZero(word)
    ensures ClearRun(bits, BITS * index + bit, BITS - bit)
  {
    forall k | BITS * index + bit <= k < BITS * index + BITS ensures !bits[k] {
      assert word[k - BITS * index - bit] == WordAt(bits, n, index)[k - BITS * index];
    }
  }

  /** ~run >> bit is the mask of what is left of the word. */
  lemma LeftOver(shift: int, bit: int)
    requires 0 <= shift <= bit <= BITS
    ensures Shr(Not(Mask(shift)), bit) == Mask(BITS - bit)
  {}

  /** Skips the zeros and ones at the least significant end of the window. */
  method Skip(bits: seq<bool>, n: int, index: int, bit0: int, word0: Word, next: Word, zeros: Word, ghost z: int)
    returns (bit: int, word: Word, run: Word)
    requires Window(bits, n, index, bit0, word0, next) && !IsZero(word0) && Run(word0, false, z) && zeros == Mask(z)
    ensures Rest(bits, n, index, bit, word) && bit > bit0
    ensures AllSet(bits, BITS * index + bit0 + z, BITS * index + bit) && bit > bit0 + z
    ensures Shr(Not(run), bit) == Mask(BITS - bit)
  {
    bit, word := bit0, word0;
    var all := Or(word, zeros);
    ghost var ones := RunExists(all, true);
    WindowOnes(bits, n, index, bit, word, next, z, ones);
    TrailingOnesIs(all, ones);
    run := TrailingOnes(all);
    if bit < 0 {
      ShrMask(ones, -bit);
      run := Shr(run, -bit);
      word := next;
      bit := 0;
    }
    ghost var length := if bit0 < 0 then ones + bit0 else ones;
    MaskCount(length);
    var shift := Count(run);
    ghost var before := word;
    word := Shr(word, shift);
    ShrTwice(bits, n, index, bit, shift);
    bit := bit + shift;
    LeftOver(shift, bit);
    assert bit == bit0 + ones;
  }

  lemma ShrMask(k: int, s: int)
    requires 0 <= s <= k <= BITS
    ensures Shr(Mask(k), s) == Mask(k - s)
  {}

  lemma ShrTwice(bits: seq<bool>, n: int, index: int, bit: int, shift: int)
    requires IsBitmap(bits, n) && 0 <= index < n && 0 <= bit && 0 <= shift && bit + shift <= BITS
    ensures Shr(Shr(WordAt(bits, n, index), bit), shift) == Shr(WordAt(bits, n, index), bit + shift)
    ensures Shr(WordAt(bits, n, index), 0) == WordAt(bits, n, index)
  {}

  /** Nothing is left of the bitmap but a run that is too short. */
  lemma NoneLeft(bits: seq<bool>, pos: int, len: int)
    requires NoneBefore(bits, pos, len) && |bits| - pos < len
    ensures forall p :: !ClearRun(bits, p, len)
  {
    forall p ensures !ClearRun(bits, p, len) {}
  }

  lemma AllOnes(bits: seq<bool>, n: int, index: int)
    requires IsBitmap(bits, n) && 0 <= index < n && IsZero(Not(WordAt(bits, n, index)))
    ensures AllSet(bits, BITS * index, BITS * index + BITS)
  {
    forall j | BITS * index <= j < BITS * index + BITS ensures bits[j] {
      assert !Not(WordAt(bits, n, index))[j - BITS * index];
    }
  }

  lemma ShlZero(bits: seq<bool>, n: int, index: int)
    requires IsBitmap(bits, n) && 0 <= index < n
    ensures Shl(WordAt(bits, n, index), 0) == Shr(WordAt(bits, n, index), 0) == WordAt(bits, n, index)
  {}

  lemma ShorterRun(bits: seq<bool>, p: int, long: int, short: int)
    requires ClearRun(bits, p, long) && short <= long
    ensures ClearRun(bits, p, short)
  {}

  /** What is left of a word, fewer than len zeros, is carried on to the next word with a zero in it. */
  method NextWord(bits: seq<bool>, n: int, index0: int, bit0: int, len: int)
    returns (more: bool, index: int, bit: int, word: Word, next: Word)
    requires IsBitmap(bits, n) && 0 <= index0 < n && 0 < bit0 <= BITS && BITS - bit0 < len
    requires NoneBefore(bits, BITS * index0 + bit0, len) && ClearRun(bits, BITS * index0 + bit0, BITS - bit0)
    ensures !more ==> forall p :: !ClearRun(bits, p, len)
    ensures more ==> Window(bits, n, index, bit, word, next) && bit <= 0 && NoneBefore(bits, BITS * index + bit, len)
    ensures more ==> BITS * index + bit >= BITS * index0 + bit0 && 0 <= index < n
  {
    hide NoneBefore, ClearRun, AllSet;
    index, bit, word, next := index0, bit0, seq(BITS, _ => false), seq(BITS, _ => false);
    while true
      invariant index0 <= index < n && 0 < bit <= BITS && BITS - bit < len && BITS * index + bit >= BITS * index0 + bit0
      invariant NoneBefore(bits, BITS * index + bit, len) && ClearRun(bits, BITS * index + bit, BITS - bit)
      decreases n - index
    {
      ghost var pos := BITS * index + bit;
      index := index + 1;
      if index >= n {
        NoneLeft(bits, pos, len);
        more := false;
        return;
      }
      next := WordAt(bits, n, index);
      if !IsZero(Not(next)) {
        break;
      }
      AllOnes(bits, n, index);
      NoneInRun(bits, pos, BITS - bit, BITS - bit + BITS, len);
      bit := BITS;
      NoRun(bits, BITS * index + BITS);
    }
    bit := if bit < BITS then bit - BITS else 0;
    word := Shl(next, -bit);
    ShlZero(bits, n, index);
    more := true;
  }

  lemma WindowStarts(bits: seq<bool>, n: int, next: Word)
    requires IsBitmap(bits, n) && n > 0
    ensures Window(bits, n, 0, 0, WordAt(bits, n, 0), next)
  {
    ShlZero(bits, n, 0);
  }

  lemma RestIsWindow(bits: seq<bool>, n: int, index: int, bit: int, word: Word, next: Word)
    requires Rest(bits, n, index, bit, word)
    ensures !IsZero(word) ==> Window(bits, n, index, bit, word, next)
    ensures 0 <= index < n && 0 < bit <= BITS && BITS * index + bit <= |bits|
  {}

  lemma NoRun(bits: seq<bool>, p: int)
    requires 0 <= p <= |bits|
    ensures ClearRun(bits, p, 0)
  {}

  /** The zeros at the least significant end of the window. */
  method ZerosOf(bits: seq<bool>, n: int, index: int, bit: int, word: Word, next: Word)
    returns (run: Word, ghost z: int)
    requires Window(bits, n, index, bit, word, next) && !IsZero(word)
    ensures Run(word, false, z) && run == Mask(z) && 0 <= z < BITS && ClearRun(bits, BITS * index + bit, z)
  {
    hide Window, IsZero, ClearRun, TrailingZeros, Mask, Run;
    z := RunExists(word, false);
    TrailingZerosIs(word, z);
    run := TrailingZeros(word);
    WindowRun(bits, n, index, bit, word, next, z);
  }

  /** Skips a run that is too short, and the ones that end it. */
  method PastRun(bits: seq<bool>, n: int, index: int, bit0: int, word0: Word, next: Word, zeros: Word, len: int,
                 ghost z: int)
    returns (bit: int, word: Word, run: Word)
    requires Window(bits, n, index, bit0, word0, next) && !IsZero(word0) && Run(word0, false, z) && zeros == Mask(z)
    requires NoneBefore(bits, BITS * index + bit0, len) && 0 <= z < len
    ensures NoneBefore(bits, BITS * index + bit, len) && bit > bit0
    ensures !IsZero(word) ==> Window(bits, n, index, bit, word, next)
    ensures IsZero(word) ==> ClearRun(bits, BITS * index + bit, BITS - bit)
    ensures 0 <= index < n && 0 < bit <= BITS && BITS * index + bit <= |bits|
    ensures Shr(Not(run), bit) == Mask(BITS - bit)
  {
    hide Window, Rest, IsZero, NoneBefore, AllSet, ClearRun, Mask, Run;
    bit, word, run := Skip(bits, n, index, bit0, word0, next, zeros, z);
    NoneInRun(bits, BITS * index + bit0, z, bit - bit0, len);
    RestIsWindow(bits, n, index, bit, word, next);
    if IsZero(word) {
      RestZero(bits, n, index, bit, word);
    }
  }

  /** The least position of len clear bits, if there is one, wherever the words meet. */
  method FindClearSequence(bits: seq<bool>, n: int, len: int) returns (r: int)
    requires IsBitmap(bits, n) && 1 <= len < BITS
    ensures r == NOT_FOUND ==> forall p :: !ClearRun(bits, p, len)
    ensures r != NOT_FOUND ==> ClearRun(bits, r, len) && NoneBefore(bits, r, len)
  {
    if n == 0 {
      return NOT_FOUND;
    }
    var mask := Mask(len);
    var index, bit, word := 0, 0, WordAt(bits, n, 0);
    var next: Word := seq(BITS, _ => false);
    WindowStarts(bits, n, next);
    hide NoneBefore, ClearRun, AllSet, Mask, AtLeast, TrailingZeros, Window, Rest, IsZero, Run, WordAt;
    NoneYet(bits, len);
    while true
      invariant Window(bits, n, index, bit, word, next) && NoneBefore(bits, BITS * index + bit, len)
      invariant BITS * index + bit >= 0
      decreases |bits| - (BITS * index + bit)
    {
      if IsZero(word) {
        WindowZero(bits, n, index, bit, word, next);
        ShorterRun(bits, BITS * index + bit, BITS, len);
        return BITS * index + bit;
      }
      var run, z := ZerosOf(bits, n, index, bit, word, next);
      MaskOrder(z, len);
      if AtLeast(run, mask) {
        ShorterRun(bits, BITS * index + bit, z, len);
        return BITS * index + bit;
      }
      bit, word, run := PastRun(bits, n, index, bit, word, next, run, len, z);
      if IsZero(word) {
        run := Shr(Not(run), bit);
        MaskOrder(BITS - bit, len);
        if AtLeast(run, mask) {
          ShorterRun(bits, BITS * index + bit, BITS - bit, len);
          return BITS * index + bit;
        }
        var more;
        more, index, bit, word, next := NextWord(bits, n, index, bit, len);
        if !more {
          return NOT_FOUND;
        }
      }
    }
  }

  lemma NoneYet(bits: seq<bool>, len: int)
    ensures NoneBefore(bits, 0, len)
  {
    forall p | p < 0 ensures !ClearRun(bits, p, len) {}
  }

  ghost predicate HasRun(bits: seq<bool>, len: int) {
    exists p :: ClearRun(bits, p, len)
  }

  /** m is the length of the longest run of clear bits, or MAX_SEQ if that is less. */
  ghost predicate IsMaxSeq(bits: seq<bool>, m: int) {
    0 <= m <= MAX_SEQ && HasRun(bits, m) && (m < MAX_SEQ ==> !HasRun(bits, m + 1))
  }

  /** Takes a run of k zeros at pos into account. */
  method Longest(bits: seq<bool>, run: Word, m0: int, mask: Word, ghost k: int, ghost pos: int)
    returns (enough: bool, m: int)
    requires 0 <= k <= BITS && run == Mask(k) && mask == Mask(MAX_SEQ) && 0 <= m0 < MAX_SEQ
    requires ClearRun(bits, pos, k) && NoneBefore(bits, pos, m0 + 1) && HasRun(bits, m0)
    ensures enough ==> HasRun(bits, MAX_SEQ)
    ensures !enough ==> m0 <= m < MAX_SEQ && k <= m && HasRun(bits, m) && NoneBefore(bits, pos, m + 1)
  {
    hide NoneBefore, ClearRun, AtLeast, Count;
    m := m0;
    ZeroMask(k);
    MaskOrder(k, MAX_SEQ);
    MaskCount(k);
    if !IsZero(run) {
      if AtLeast(run, mask) {
        ShorterRun(bits, pos, k, MAX_SEQ);
        return true, m;
      }
      var lng := Count(run);
      m := if lng > m then lng else m;
      Longer(bits, pos, m0 + 1, m + 1);
    }
    enough := false;
  }

  /** The longest run of clear bits, counted up to MAX_SEQ. */
  method MaxSeq(bits: seq<bool>, n: int) returns (m: int)
    requires IsBitmap(bits, n)
    ensures IsMaxSeq(bits, m)
  {
    m := 0;
    NoRun(bits, 0);
    if n == 0 {
      return;
    }
    var mask := Mask(MAX_SEQ);
    var index, bit, word := 0, 0, WordAt(bits, n, 0);
    var next: Word := seq(BITS, _ => false);
    WindowStarts(bits, n, next);
    NoneYet(bits, 1);
    hide NoneBefore, ClearRun, AllSet, Mask, AtLeast, TrailingZeros, Count, Window, Rest, IsZero, Run, WordAt;
    while true
      invariant Window(bits, n, index, bit, word, next) && 0 <= m < MAX_SEQ
      invariant NoneBefore(bits, BITS * index + bit, m + 1) && HasRun(bits, m)
      decreases |bits| - (BITS * index + bit)
    {
      if IsZero(word) {
        WindowZero(bits, n, index, bit, word, next);
        ShorterRun(bits, BITS * index + bit, BITS, MAX_SEQ);
        return MAX_SEQ;
      }
      var run, z := ZerosOf(bits, n, index, bit, word, next);
      var enough;
      enough, m := Longest(bits, run, m, mask, z, BITS * index + bit);
      if enough {
        return MAX_SEQ;
      }
      bit, word, run := PastRun(bits, n, index, bit, word, next, run, m + 1, z);
      if IsZero(word) {
        run := Shr(Not(run), bit);
        enough, m := Longest(bits, run, m, mask, BITS - bit, BITS * index + bit);
        if enough {
          return MAX_SEQ;
        }
        var more;
        more, index, bit, word, next := NextWord(bits, n, index, bit, m + 1);
        if !more {
          return m;
        }
      }
    }
  }

  lemma ZeroMask(k: int)
    requires 0 <= k <= BITS
    ensures IsZero(Mask(k)) ==> k == 0
  {
    if k > 0 {
      assert Mask(k)[0];
    }
  }

  lemma Longer(bits: seq<bool>, pos: int, short: int, long: int)
    requires NoneBefore(bits, pos, short) && short <= long
    ensures NoneBefore(bits, pos, long)
  {
    forall p | p < pos ensures !ClearRun(bits, p, long) {
      assert !ClearRun(bits, p, short);
    }
  }

  /** A sequence is found exactly when the longest run is long enough. */
  lemma FoundIffMax(bits: seq<bool>, m: int, len: int)
    requires IsMaxSeq(bits, m) && 1 <= len <= MAX_SEQ
    ensures HasRun(bits, len) <==> m >= len
  {
    if m >= len {
      var p :| ClearRun(bits, p, m);
      ShorterRun(bits, p, m, len);
    } else if p :| ClearRun(bits, p, len) {
      ShorterRun(bits, p, len, m + 1);
    }
  }

  /** The search and the maximum of the same bitmap: a sequence is found exactly when the maximum is at
      least its length. */
  method FindAndMax(bits: seq<bool>, n: int, len: int) returns (r: int, m: int)
    requires IsBitmap(bits, n) && 1 <= len <= MAX_SEQ
    ensures r != NOT_FOUND <==> m >= len
    ensures r != NOT_FOUND ==> ClearRun(bits, r, len) && NoneBefore(bits, r, len)
    ensures IsMaxSeq(bits, m)
  {
    r := FindClearSequence(bits, n, len);
    m := MaxSeq(bits, n);
    FoundIffMax(bits, m, len);
  }
}
