/**
 The combinations of a Ruby array: an iterative enumeration with a stack of indices, as many times
 as there are combinations.
 */
module Combinations {
  import opened Tuples

  // ----- the number of combinations -----

  function Binomial(n: nat, k: int): (b: nat)
    decreases n
  {
    if k < 0 || k > n then 0
    else if k == 0 then 1
    else if n == 0 then 0
    else Binomial(n - 1, k - 1) + Binomial(n - 1, k)
  }

  lemma {:induction false} BinomialAll(n: nat)
    ensures Binomial(n, n) == 1
  {
    if n > 0 {
      BinomialAll(n - 1);
    }
  }

  lemma {:induction false} Symmetric(n: nat, k: int)
    requires 0 <= k <= n
    ensures Binomial(n, k) == Binomial(n, n - k)
    decreases n
  {
    if k == 0 || k == n {
      BinomialAll(n);
    } else {
      Symmetric(n - 1, k - 1);
      Symmetric(n - 1, k);
    }
  }

  /** The quotient of neighbouring binomials; it makes every division of CombiLen exact. */
  lemma {:induction false} Absorption(n: nat, i: int)
    requires 1 <= i <= n
    ensures i * Binomial(n, i) == (n - i + 1) * Binomial(n, i - 1)
    decreases n
  {
    if i == n {
      BinomialAll(n);
      LastButOne(n);
    } else {
      Absorption(n - 1, i);
      if i > 1 {
        Absorption(n - 1, i - 1);
        Neighbours(n, i, Binomial(n - 1, i - 2), Binomial(n - 1, i - 1), Binomial(n - 1, i));
      } else {
        Neighbours(n, 1, 0, Binomial(n - 1, 0), Binomial(n - 1, 1));
      }
    }
  }

  lemma Distribute(x: int, y: int, z: int)
    ensures x * (y + z) == x * y + x * z && (y + z) * x == y * x + z * x
  {}

  lemma Neighbours(n: int, i: int, c: int, a: int, b: int)
    requires i * b == (n - i) * a && (i - 1) * a == (n - i + 1) * c
    ensures i * (a + b) == (n - i + 1) * (c + a)
  {
    Distribute(i, a, b);
    Distribute(a, i, n - i);
    Distribute(n - i + 1, c, a);
    Distribute(a, i - 1, n - i + 1);
  }

  lemma {:induction false} LastButOne(n: nat)
    requires n >= 1
    ensures Binomial(n, n - 1) == n
  {
    if n > 1 {
      LastButOne(n - 1);
      BinomialAll(n - 1);
    }
  }

  /** Division as in C. */
  function Div(a: int, b: int): (q: int)
    requires b != 0
  {
    if a >= 0 then a / b else -((-a) / b)
  }

  lemma ExactDivision(q: nat, i: int, product: int)
    requires i >= 1 && product == i * q
    ensures Div(product, i) == q
  {
    var d, r := product / i, product % i;
    assert product == i * d + r;
    Distribute(i, q - d, d);
    Multiple(i, q - d, r);
  }

  lemma Multiple(i: int, x: int, r: int)
    requires 0 <= r < i && i * x == r
    ensures x == 0
  {
    if x >= 1 {
      Distribute(i, x - 1, 1);
    } else if x <= -1 {
      Distribute(i, x + 1, -1);
    }
  }

  lemma CombiStep(n: nat, i: int)
    requires 1 <= i <= n
    ensures Div(Binomial(n, i - 1) * (n - i + 1), i) == Binomial(n, i)
  {
    Absorption(n, i);
    ExactDivision(Binomial(n, i), i, Binomial(n, i - 1) * (n - i + 1));
  }

  method CombiLen(n0: nat, k0: int) returns (val: int)
    ensures val == Binomial(n0, k0)
  {
    var n: int, k := n0, k0;
    hide Div;
    if k * 2 > n {
      if k <= n {
        Symmetric(n0, k);
      }
      k := n - k;
    }
    if k == 0 {
      return 1;
    }
    if k < 0 {
      return 0;
    }
    val := 1;
    var i := 1;
    while i <= k
      invariant 1 <= i <= k + 1 && n == n0 - i + 1 && val == Binomial(n0, i - 1)
    {
      CombiStep(n0, i);
      val := val * n;
      val := Div(val, i);
      i, n := i + 1, n - 1;
    }
  }

  // ----- the combinations -----

  /** The increasing n-tuples of indices from lo up to len, in order. */
  ghost function From(lo: int, len: int, n: nat): (l: seq<Tuple>)
    decreases len - lo + n
  {
    if n == 0 then [[]] else if lo + n > len then [] else Prefixed(lo, From(lo + 1, len, n - 1)) + From(lo + 1, len, n)
  }

  lemma {:induction false} FromCount(lo: int, len: int, n: nat)
    requires 0 <= lo <= len
    ensures |From(lo, len, n)| == Binomial(len - lo, n)
    decreases len - lo + n
  {
    if n > 0 && lo + n <= len {
      FromCount(lo + 1, len, n - 1);
      FromCount(lo + 1, len, n);
    }
  }

  ghost predicate Increasing(t: Tuple, lo: int, len: int) {
    && (forall j | 0 <= j < |t| :: lo <= t[j] < len)
    && (forall i, j | 0 <= i < j < |t| :: t[i] < t[j])
  }

  lemma {:induction false} IncreasingRoom(t: Tuple, lo: int, len: int)
    requires Increasing(t, lo, len) && t != []
    ensures lo + |t| <= len
    decreases |t|
  {
    if |t| > 1 {
      assert forall j | 0 <= j < |t[1..]| :: t[1..][j] == t[j + 1] && t[0] < t[j + 1];
      IncreasingRoom(t[1..], lo + 1, len);
    }
  }

  /** The tuples listed are exactly the increasing ones. */
  lemma {:induction false} FromIs(lo: int, len: int, n: nat, t: Tuple)
    ensures t in From(lo, len, n) <==> |t| == n && Increasing(t, lo, len)
    decreases len - lo + n
  {
    if n == 0 {
      assert |t| == 0 ==> t == [];
    } else if lo + n > len {
      if |t| == n && Increasing(t, lo, len) {
        IncreasingRoom(t, lo, len);
      }
    } else {
      var a, b := From(lo + 1, len, n - 1), From(lo + 1, len, n);
      assert From(lo, len, n) == Prefixed(lo, a) + b;
      FromIs(lo + 1, len, n, t);
      PrefixedHas(lo, a, t);
      if t != [] {
        FromIs(lo + 1, len, n - 1, t[1..]);
        IncreasingTail(t, lo, len);
      }
      hide From, Prefixed, Increasing;
    }
  }

  lemma IncreasingTail(t: Tuple, lo: int, len: int)
    requires t != []
    ensures t[0] == lo ==> (Increasing(t, lo, len) <==> Increasing(t[1..], lo + 1, len) && lo < len)
    ensures t[0] != lo ==> (Increasing(t, lo, len) <==> Increasing(t, lo + 1, len))
    ensures Increasing(t, lo + 1, len) ==> t[0] != lo
  {
    if t[0] == lo && Increasing(t[1..], lo + 1, len) && lo < len {
      assert forall j | 0 < j < |t| :: t[j] == t[1..][j - 1];
    }
    assert forall j | 0 <= j < |t[1..]| :: t[1..][j] == t[j + 1];
    assert Increasing(t, lo, len) ==> forall j | 0 < j < |t| :: t[0] < t[j];
  }

  lemma {:induction false} FromInOrder(lo: int, len: int, n: nat)
    ensures InOrder(From(lo, len, n))
    decreases len - lo + n
  {
    if n > 0 && lo + n <= len {
      var a, b := Prefixed(lo, From(lo + 1, len, n - 1)), From(lo + 1, len, n);
      assert From(lo, len, n) == a + b;
      hide From, Prefixed, Increasing, InOrder;
      FromInOrder(lo + 1, len, n - 1);
      FromInOrder(lo + 1, len, n);
      PrefixedInOrder(lo, From(lo + 1, len, n - 1));
      forall s, t | s in a && t in b ensures Before(s, t) {
        LowestFirst(lo, len, n, s, t);
      }
      JoinInOrder(a, b);
    }
  }

  /** The increasing tuples are as many as the binomial coefficient says. */
  lemma CombinationsCount(len: nat, n: nat, all: set<Tuple>)
    requires forall t :: t in all <==> |t| == n && Increasing(t, 0, len)
    ensures |all| == Binomial(len, n)
  {
    hide From, Increasing, InOrder;
    var l := From(0, len, n);
    FromInOrder(0, len, n);
    FromCount(0, len, n);
    OrderedCount(l);
    forall t ensures t in all <==> t in l {
      FromIs(0, len, n, t);
    }
    assert all == set t | t in l;
  }

  lemma LowestFirst(lo: int, len: int, n: nat, s: Tuple, t: Tuple)
    requires n > 0 && s in Prefixed(lo, From(lo + 1, len, n - 1)) && t in From(lo + 1, len, n)
    ensures Before(s, t)
  {
    hide Prefixed, From, Increasing;
    PrefixedHas(lo, From(lo + 1, len, n - 1), s);
    FromIs(lo + 1, len, n - 1, s[1..]);
    FromIs(lo + 1, len, n, t);
    LowestLater(lo, len, t);
    SmallerHead(s, t);
  }

  lemma LowestLater(lo: int, len: int, t: Tuple)
    requires Increasing(t, lo + 1, len) && t != []
    ensures lo < t[0]
  {}

  // ----- from one combination to the next -----

  function Ramp(x: int, n: nat): (t: Tuple)
    ensures |t| == n && forall j | 0 <= j < n :: t[j] == x + j
  {
    seq(n, j => x + j)
  }

  /** The combinations from c on. */
  ghost function Rest(c: Tuple, len: int): (l: seq<Tuple>) {
    if c == [] then [[]] else Prefixed(c[0], Rest(c[1..], len)) + From(c[0] + 1, len, |c|)
  }

  lemma RampTail(x: int, n: nat)
    requires n > 0
    ensures Ramp(x, n) != [] && Ramp(x, n)[0] == x && Ramp(x, n)[1..] == Ramp(x + 1, n - 1)
  {}

  lemma {:induction false} FirstIsRamp(lo: int, len: int, n: nat)
    requires lo + n <= len
    ensures From(lo, len, n) == Rest(Ramp(lo, n), len)
    decreases n
  {
    hide Ramp, Prefixed;
    if n > 0 {
      FirstIsRamp(lo + 1, len, n - 1);
      RampTail(lo, n);
    } else {
      assert Ramp(lo, 0) == [];
    }
  }

  /** Position j can still be counted up, and no position behind it can. */
  ghost predicate CountsAt(c: Tuple, len: int, j: int) {
    && 0 <= j < |c| && c[j] + 1 + |c| - j <= len
    && forall k | j < k < |c| :: c[k] + 1 + |c| - k > len
  }

  ghost predicate IsLast(c: Tuple, len: int) {
    forall k | 0 <= k < |c| :: c[k] + 1 + |c| - k > len
  }

  lemma {:induction false} RestOfLast(c: Tuple, len: int)
    requires IsLast(c, len)
    ensures Rest(c, len) == [c]
  {
    if c != [] {
      assert forall k | 0 <= k < |c[1..]| :: c[1..][k] == c[k + 1];
      RestOfLast(c[1..], len);
      assert [c[0]] + c[1..] == c;
    }
  }

  lemma {:induction false} RestCounts(c: Tuple, len: int, j: int)
    requires CountsAt(c, len, j)
    ensures Rest(c, len) == [c] + Rest(c[..j] + Ramp(c[j] + 1, |c| - j), len)
  {
    var d := c[1..];
    if j == 0 {
      NoneBehind(c, len);
      RestOfLast(d, len);
      HeadCounts(c, len);
    } else {
      BehindFirst(c, len, j);
      RestCounts(d, len, j - 1);
      CountedTail(c, j);
      hide CountsAt, Ramp, Rest;
      TailCounts(c, len, c[..j] + Ramp(c[j] + 1, |c| - j));
    }
  }

  lemma NoneBehind(c: Tuple, len: int)
    requires CountsAt(c, len, 0)
    ensures IsLast(c[1..], len)
  {
    assert forall k | 0 <= k < |c[1..]| :: c[1..][k] == c[k + 1];
  }

  lemma BehindFirst(c: Tuple, len: int, j: int)
    requires CountsAt(c, len, j) && j > 0
    ensures CountsAt(c[1..], len, j - 1)
  {
    assert forall k | 0 <= k < |c[1..]| :: c[1..][k] == c[k + 1];
  }

  lemma RestUnfolds(c: Tuple, len: int)
    requires c != []
    ensures Rest(c, len) == Prefixed(c[0], Rest(c[1..], len)) + From(c[0] + 1, len, |c|)
  {}

  lemma TailCounts(c: Tuple, len: int, f: Tuple)
    requires c != [] && |f| == |c| && f[0] == c[0] && Rest(c[1..], len) == [c[1..]] + Rest(f[1..], len)
    ensures Rest(c, len) == [c] + Rest(f, len)
  {
    hide Rest, From, Prefixed;
    var tail, more := Prefixed(c[0], Rest(f[1..], len)), From(c[0] + 1, len, |c|);
    RestUnfolds(c, len);
    RestUnfolds(f, len);
    PrefixedFirst(c[0], c[1..], Rest(f[1..], len));
    assert [c[0]] + c[1..] == c;
    FirstOff(c, tail, more);
  }

  lemma FirstOff(c: Tuple, a: seq<Tuple>, b: seq<Tuple>)
    ensures ([c] + a) + b == [c] + (a + b)
  {}

  lemma HeadCounts(c: Tuple, len: int)
    requires c != [] && c[0] + 1 + |c| <= len && Rest(c[1..], len) == [c[1..]]
    ensures Rest(c, len) == [c] + Rest(c[..0] + Ramp(c[0] + 1, |c|), len)
  {
    FirstIsRamp(c[0] + 1, len, |c|);
    assert c[..0] + Ramp(c[0] + 1, |c|) == Ramp(c[0] + 1, |c|);
    assert [c[0]] + c[1..] == c;
    assert Prefixed(c[0], [c[1..]]) == [c];
  }

  lemma CountedTail(c: Tuple, j: int)
    requires 0 < j < |c|
    ensures
      var d := c[1..];
      var f := c[..j] + Ramp(c[j] + 1, |c| - j);
      f[0] == c[0] && |f| == |c| && f[1..] == d[..j - 1] + Ramp(d[j - 1] + 1, |d| - (j - 1))
  {}

  lemma PrefixedFirst(x: int, d: Tuple, l: seq<Tuple>)
    ensures Prefixed(x, [d] + l) == [[x] + d] + Prefixed(x, l)
  {}

  // ----- the enumeration -----

  /** The tuple the stack stands for when the positions behind lev are still to be filled. */
  ghost function Current(c: Tuple, lev: int): (t: Tuple)
    requires 0 <= lev < |c|
  {
    c[..lev] + Ramp(c[lev], |c| - lev)
  }

  /** Yields the values of every combination of n elements. */
  method Combination<T>(ary: seq<T>, n: int) returns (yielded: seq<seq<T>>)
    ensures n < 0 ==> yielded == []
    ensures n >= 0 ==> Yields(ary, From(0, |ary|, n), yielded)
  {
    var len := |ary|;
    yielded := [];
    if n < 0 || len < n {
      return;
    } else if n == 0 {
      yielded := yielded + [[]];
    } else if n == 1 {
      Singles(0, len);
      var i := 0;
      while i < len
        invariant 0 <= i <= len && |yielded| == i
        invariant forall k | 0 <= k < i :: yielded[k] == [ary[k]]
      {
        yielded := yielded + [[ary[i]]];
        i := i + 1;
      }
      assert forall k | 0 <= k < len :: From(0, len, 1)[k] == [k] && yielded[k] == Select(ary, [k]);
    } else {
      yielded := Enumerate(ary, n);
    }
  }

  lemma {:induction false} Singles(lo: int, len: int)
    requires lo <= len
    ensures |From(lo, len, 1)| == len - lo && forall k | 0 <= k < len - lo :: From(lo, len, 1)[k] == [lo + k]
    decreases len - lo
  {
    if lo < len {
      Singles(lo + 1, len);
      assert From(lo + 1, len, 0) == [[]] && [lo] + [] == [lo];
    }
  }

  lemma RestFirst(c: Tuple, len: int)
    ensures Rest(c, len) != [] && Rest(c, len)[0] == c
  {
    if c != [] {
      RestFirst(c[1..], len);
      assert [c[0]] + c[1..] == c;
    }
  }

  /** An increasing tuple leaves room for the positions behind each one. */
  lemma {:induction false} RoomBehind(t: Tuple, len: int, k: int)
    requires Increasing(t, 0, len) && 0 <= k < |t|
    ensures t[k] + |t| - k <= len
    decreases |t| - k
  {
    if k + 1 < |t| {
      RoomBehind(t, len, k + 1);
    }
  }

  /** Stores at an index inside a Ruby array or just behind its end. */
  function Store<T>(cc: seq<T>, k: nat, x: T): (r: seq<T>)
    requires k <= |cc|
    ensures |r| == (if k < |cc| then |cc| else k + 1) && r[k] == x
    ensures forall j | 0 <= j < |cc| && j != k :: r[j] == cc[j]
  {
    if k < |cc| then cc[k := x] else cc + [x]
  }

  /** The stack holds the tuple; its first cell is not part of it. */
  ghost predicate OnStack(stack: array<int>, c: Tuple)
    reads stack
  {
    |c| + 1 == stack.Length && forall k | 0 <= k < |c| :: stack[k + 1] == c[k]
  }

  /** Fills the positions behind lev0, and cc with the values. No index is out of range. */
  method Fill<T>(ary: seq<T>, stack: array<int>, cc0: seq<T>, lev0: nat, n: nat, ghost c: Tuple, ghost t: Tuple)
    returns (cc: seq<T>)
    requires OnStack(stack, c) && |c| == |t| == n && lev0 < n && Indices(t, |ary|)
    requires forall k | 0 <= k <= lev0 :: t[k] == c[k]
    requires forall k | lev0 < k < n :: t[k] == t[lev0] + k - lev0
    requires lev0 <= |cc0| <= n && forall k | 0 <= k < lev0 :: cc0[k] == ary[t[k]]
    modifies stack
    ensures OnStack(stack, t) && cc == Select(ary, t)
  {
    hide Select, Store;
    var lev := lev0;
    assert stack[lev0 + 1] == c[lev0] == t[lev0];
    cc := Store(cc0, lev, ary[stack[lev + 1]]);
    lev := lev + 1;
    while lev < n
      invariant lev0 < lev <= n && lev <= |cc| <= n
      invariant forall k | 0 <= k < lev :: stack[k + 1] == t[k]
      invariant forall k | 0 <= k < lev :: cc[k] == ary[t[k]]
    {
      assert t[lev] == t[lev - 1] + 1 && stack[lev - 1 + 1] == t[lev - 1];
      stack[lev + 1] := stack[lev] + 1;
      assert stack[lev + 1] == t[lev];
      cc := Store(cc, lev, ary[stack[lev + 1]]);
      lev := lev + 1;
    }
    IsSelect(ary, t, cc);
  }

  lemma IsSelect<T>(ary: seq<T>, t: Tuple, cc: seq<T>)
    requires Indices(t, |ary|) && |cc| == |t| && forall k | 0 <= k < |t| :: cc[k] == ary[t[k]]
    ensures cc == Select(ary, t)
  {}

  /** Counts up the last position that has room; lev is that position. */
  method CountUp(stack: array<int>, n: nat, len: int, ghost t: Tuple) returns (lev: nat, ghost c: Tuple)
    requires n >= 1 && OnStack(stack, t) && |t| == n && Increasing(t, 0, len)
    modifies stack
    ensures OnStack(stack, c) && |c| == n && lev < n && (CountsAt(t, len, lev) || IsLast(t, len))
    ensures c[lev] == t[lev] + 1 && forall k | 0 <= k < lev :: c[k] == t[k]
  {
    forall k | 0 <= k < n ensures t[k] + n - k <= len {
      RoomBehind(t, len, k);
    }
    lev, c := n, t;
    c := c[lev - 1 := c[lev - 1] + 1];
    stack[lev], lev := stack[lev] + 1, lev - 1;
    while lev != 0 && stack[lev + 1] + n == len + lev + 1
      invariant 0 <= lev < n && OnStack(stack, c) && |c| == n && c[lev] == t[lev] + 1
      invariant forall k | 0 <= k < lev :: c[k] == t[k]
      invariant forall k | lev < k < n :: t[k] + 1 + n - k > len
    {
      c := c[lev - 1 := c[lev - 1] + 1];
      stack[lev], lev := stack[lev] + 1, lev - 1;
    }
  }

  /** The general case: each round completes the tuple on the stack, yields it and counts on. */
  method Enumerate<T>(ary: seq<T>, n: nat) returns (yielded: seq<seq<T>>)
    requires 2 <= n <= |ary|
    ensures Yields(ary, From(0, |ary|, n), yielded)
  {
    hide From, Rest, Current, Increasing, CountsAt, IsLast, Binomial, Ramp, Select;
    var len := |ary|;
    var nlen := CombiLen(len, n);
    FromCount(0, len, n);
    var stack := new int[n + 1];
    forall k | 0 <= k < n { stack[k] := 0; }
    stack[0] := -1;
    var cc: seq<T> := [];
    yielded := [];
    var lev, i := 0, 0;
    ghost var done: seq<Tuple>, all, c: Tuple := [], From(0, len, n), stack[1..];
    StartsAtRamp(c, len, n);
    while i < nlen
      invariant 0 <= i <= nlen && 0 <= lev < n && |done| == i && Yields(ary, done, yielded) && OnStack(stack, c)
      invariant |c| == n
      invariant i < nlen ==> all == done + Rest(Current(c, lev), len)
      invariant i == nlen ==> all == done
      invariant lev <= |cc| <= n && forall k | 0 <= k < lev :: 0 <= c[k] < len && cc[k] == ary[c[k]]
    {
      ghost var t := Current(c, lev);
      CurrentListed(all, done, t, len, n);
      CurrentStarts(c, lev);
      InRange(t, len);
      cc := Fill(ary, stack, cc, lev, n, c, t);
      yielded := yielded + [cc];
      lev, c := CountUp(stack, n, len, t);
      SelectIs(ary, t, cc);
      NextCurrent(t, len, lev, c);
      Advance(all, done, t, len, Current(c, lev));
      done := done + [t];
      i := i + 1;
    }
  }

  lemma StartsAtRamp(c: Tuple, len: int, n: nat)
    requires 1 <= n <= len && |c| == n && c[0] == 0
    ensures From(0, len, n) == [] + Rest(Current(c, 0), len)
  {
    FirstIsRamp(0, len, n);
    assert Current(c, 0) == Ramp(0, n);
  }

  lemma SelectIs<T>(ary: seq<T>, t: Tuple, cc: seq<T>)
    requires Indices(t, |ary|) && cc == Select(ary, t)
    ensures |cc| == |t| && forall k | 0 <= k < |t| :: 0 <= t[k] < |ary| && cc[k] == ary[t[k]]
  {}

  lemma CurrentListed(all: seq<Tuple>, done: seq<Tuple>, t: Tuple, len: int, n: nat)
    requires all == From(0, len, n) == done + Rest(t, len)
    ensures |t| == n && Increasing(t, 0, len)
  {
    RestFirst(t, len);
    assert all[|done|] == t;
    FromIs(0, len, n, t);
  }

  lemma CurrentStarts(c: Tuple, lev: int)
    requires 0 <= lev < |c|
    ensures |Current(c, lev)| == |c| && forall k | 0 <= k <= lev :: Current(c, lev)[k] == c[k]
    ensures forall k | lev < k < |c| :: Current(c, lev)[k] == Current(c, lev)[lev] + k - lev
  {}

  lemma InRange(t: Tuple, len: int)
    requires Increasing(t, 0, len)
    ensures Indices(t, len)
  {}

  lemma NextCurrent(t: Tuple, len: int, lev: int, c: Tuple)
    requires 0 <= lev < |t| == |c| && c[lev] == t[lev] + 1 && forall k | 0 <= k < lev :: c[k] == t[k]
    requires CountsAt(t, len, lev) || IsLast(t, len)
    ensures Rest(t, len) == [t] || Rest(t, len) == [t] + Rest(Current(c, lev), len)
  {
    hide Rest, CountsAt;
    if IsLast(t, len) {
      RestOfLast(t, len);
    } else {
      RestCounts(t, len, lev);
      assert t[..lev] == c[..lev];
    }
  }

  lemma Advance(all: seq<Tuple>, done: seq<Tuple>, t: Tuple, len: int, next: Tuple)
    requires all == done + Rest(t, len) && (Rest(t, len) == [t] || Rest(t, len) == [t] + Rest(next, len))
    ensures |done| + 1 < |all| ==> all == done + [t] + Rest(next, len)
    ensures |done| + 1 == |all| ==> all == done + [t]
    ensures |done| + 1 <= |all|
  {
    hide Rest;
    RestFirst(next, len);
    assert |all| == |done| + |Rest(t, len)|;
    assert Rest(t, len) != [t] ==> all == done + [t] + Rest(next, len);
  }
}
