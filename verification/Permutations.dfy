/**
 The permutations of a Ruby array: a recursive enumeration that fills a buffer of indices and keeps
 track of the indices in use.
 */
module Permutations {
  import opened Tuples

  /** The r-tuples of different indices below n that begin with p and go on with i or more, in order. */
  ghost function From(n: nat, r: nat, p: Tuple, i: nat): (l: seq<Tuple>)
    requires |p| < r
    decreases r - |p|, n - i
  {
    if i >= n then [] else With(n, r, p, i) + From(n, r, p, i + 1)
  }

  /** Those that go on with i. */
  ghost function With(n: nat, r: nat, p: Tuple, i: nat): (l: seq<Tuple>)
    requires |p| < r
    decreases r - |p|, n - i, 0
  {
    if i in p then [] else if |p| + 1 == r then [p + [i]] else From(n, r, p + [i], 0)
  }

  ghost predicate Permutation(t: Tuple, n: int) {
    Indices(t, n) && forall i, j | 0 <= i < j < |t| :: t[i] != t[j]
  }

  ghost predicate Continues(t: Tuple, n: int, r: int, p: Tuple, i: int) {
    |t| == r && Permutation(t, n) && |p| < r && t[..|p|] == p && t[|p|] >= i
  }

  lemma Extended(t: Tuple, n: int, r: int, p: Tuple, i: int)
    requires |p| < r && 0 <= i < n && Permutation(p, n)
    ensures |p| + 1 < r ==> (Continues(t, n, r, p + [i], 0) <==> Continues(t, n, r, p, i) && t[|p|] == i)
    ensures |p| + 1 == r && i !in p ==> (t == p + [i] <==> Continues(t, n, r, p, i) && t[|p|] == i)
    ensures Continues(t, n, r, p, i) && i in p ==> t[|p|] != i
    ensures Continues(t, n, r, p, i) && t[|p|] != i <==> Continues(t, n, r, p, i + 1)
    ensures i !in p ==> Permutation(p + [i], n)
  {
    if |t| == r && |p| + 1 <= r {
      assert t[..|p| + 1] == t[..|p|] + [t[|p|]];
      assert forall k | 0 <= k < |p| :: t[..|p|][k] == t[k];
    }
    if |t| == r == |p| + 1 {
      assert t[..|p| + 1] == t;
    }
  }

  /** The tuples listed are exactly the permutations that continue p. */
  lemma {:induction false} FromIs(n: nat, r: nat, p: Tuple, i: nat, t: Tuple)
    requires |p| < r && Permutation(p, n)
    ensures t in From(n, r, p, i) <==> Continues(t, n, r, p, i)
    decreases r - |p|, n - i
  {
    if i < n {
      FromIs(n, r, p, i + 1, t);
      Extended(t, n, r, p, i);
      if i !in p && |p| + 1 < r {
        FromIs(n, r, p + [i], 0, t);
      }
    }
  }

  lemma {:induction false} FromInOrder(n: nat, r: nat, p: Tuple, i: nat)
    requires |p| < r && Permutation(p, n)
    ensures InOrder(From(n, r, p, i))
    decreases r - |p|, n - i
  {
    if i < n {
      var a, b := With(n, r, p, i), From(n, r, p, i + 1);
      assert From(n, r, p, i) == a + b;
      FromInOrder(n, r, p, i + 1);
      assert InOrder(a) by {
        if i !in p && |p| + 1 < r {
          Extended([], n, r, p, i);
          FromInOrder(n, r, p + [i], 0);
        }
      }
      hide From, With, InOrder;
      forall s, t | s in a && t in b ensures Before(s, t) {
        FromIs(n, r, p, i + 1, t);
        WithIs(n, r, p, i, s);
        assert Differ(s, t, |p|);
      }
      JoinInOrder(a, b);
    } else {
      assert From(n, r, p, i) == [];
    }
  }

  lemma WithIs(n: nat, r: nat, p: Tuple, i: nat, s: Tuple)
    requires |p| < r && Permutation(p, n) && i < n && s in With(n, r, p, i)
    ensures |s| == r && s[..|p|] == p && s[|p|] == i
  {
    Extended(s, n, r, p, i);
    if |p| + 1 < r {
      FromIs(n, r, p + [i], 0, s);
    }
  }

  /** used marks the indices in the first index cells of p. */
  ghost predicate Marks(used: array<int>, p: Tuple)
    reads used
  {
    forall i | 0 <= i < used.Length :: used[i] == if i in p then 1 else 0
  }

  /** What the tuples select is appended. */
  ghost predicate Appended<T>(values: seq<T>, l: seq<Tuple>, before: seq<seq<T>>, after: seq<seq<T>>) {
    |before| <= |after| && after[..|before|] == before && Yields(values, l, after[|before|..])
  }

  lemma AppendedNothing<T>(values: seq<T>, y: seq<seq<T>>)
    ensures Appended(values, [], y, y)
  {}

  lemma AppendedOne<T>(values: seq<T>, t: Tuple, y: seq<seq<T>>)
    requires Indices(t, |values|)
    ensures Appended(values, [t], y, y + [Select(values, t)])
  {}

  lemma AppendedBoth<T>(values: seq<T>, l: seq<Tuple>, m: seq<Tuple>, x: seq<seq<T>>, y: seq<seq<T>>, z: seq<seq<T>>)
    requires Appended(values, l, x, y) && Appended(values, m, y, z)
    ensures Appended(values, l + m, x, z)
  {
    assert z[..|x|] == z[..|y|][..|x|];
    assert z[|x|..] == y[|x|..] + z[|y|..];
  }

  /** One more index has been tried. */
  lemma Tried(n: nat, r: nat, p: Tuple, i: nat, done: seq<Tuple>)
    requires |p| < r && i < n
    ensures done + From(n, r, p, i) == (done + With(n, r, p, i)) + From(n, r, p, i + 1)
  {}

  method Gather<T>(p: array<int>, r: nat, values: seq<T>) returns (result: seq<T>)
    requires r <= p.Length && Indices(p[..r], |values|)
    ensures result == Select(values, p[..r])
  {
    result := [];
    var j := 0;
    while j < r
      invariant 0 <= j <= r && |result| == j && forall k | 0 <= k < j :: result[k] == values[p[..r][k]]
    {
      result := result + [values[p[j]]];
      j := j + 1;
    }
  }

  /** Yields the permutations that begin with the first index cells of p; used is as before afterwards. */
  method Permute0<T>(n: nat, r: nat, p: array<int>, index: nat, used: array<int>, values: seq<T>, yielded0: seq<seq<T>>)
    returns (yielded: seq<seq<T>>)
    requires index < r <= n == |values| == used.Length && r <= p.Length && p != used
    requires Permutation(p[..index], n) && Marks(used, p[..index])
    modifies p, used
    ensures p[..index] == old(p[..index]) && used[..] == old(used[..])
    ensures Appended(values, From(n, r, p[..index], 0), yielded0, yielded)
    decreases r - index, 1
  {
    hide From, With, Appended, Permutation;
    yielded := yielded0;
    ghost var prefix, done: seq<Tuple> := p[..index], [];
    AppendedNothing(values, yielded0);
    var i := 0;
    while i < n
      invariant 0 <= i <= n && p[..index] == prefix && used[..] == old(used[..]) && Marks(used, prefix)
      invariant From(n, r, prefix, 0) == done + From(n, r, prefix, i) && Appended(values, done, yielded0, yielded)
    {
      ghost var before := yielded;
      Tried(n, r, prefix, i, done);
      if used[i] == 0 {
        yielded := TryIndex(n, r, p, index, used, values, yielded, i);
      } else {
        NothingWith(n, r, prefix, i, values, yielded);
      }
      AppendedBoth(values, done, With(n, r, prefix, i), yielded0, before, yielded);
      done := done + With(n, r, prefix, i);
      i := i + 1;
    }
    NothingMore(n, r, prefix, i, done);
  }

  lemma NothingWith<T>(n: nat, r: nat, p: Tuple, i: nat, values: seq<T>, y: seq<seq<T>>)
    requires |p| < r && i in p
    ensures Appended(values, With(n, r, p, i), y, y)
  {}

  lemma NothingMore(n: nat, r: nat, p: Tuple, i: nat, done: seq<Tuple>)
    requires |p| < r && i >= n
    ensures done + From(n, r, p, i) == done
  {}

  /** The permutations that go on with an unused index. */
  method TryIndex<T>(n: nat, r: nat, p: array<int>, index: nat, used: array<int>, values: seq<T>,
          yielded0: seq<seq<T>>, i: nat)
    returns (yielded: seq<seq<T>>)
    requires index < r <= n == |values| == used.Length && r <= p.Length && p != used
    requires Permutation(p[..index], n) && Marks(used, p[..index]) && i < n && used[i] == 0
    modifies p, used
    ensures p[..index] == old(p[..index]) && used[..] == old(used[..])
    ensures Appended(values, With(n, r, p[..index], i), yielded0, yielded)
    decreases r - index, 0
  {
    hide From, Appended, Permutation;
    ghost var prefix := p[..index];
    p[index] := i;
    assert p[..index] == prefix && p[..index + 1] == prefix + [i];
    Extended([], n, r, prefix, i);
    if index < r - 1 {
      used[i] := 1;
      assert Marks(used, prefix + [i]);
      yielded := Permute0(n, r, p, index + 1, used, values, yielded0);
      assert p[..index] == p[..index + 1][..index];
      used[i] := 0;
      assert used[..] == old(used[..]);
    } else {
      PermutationIndices(prefix + [i], n);
      var result := Gather(p, r, values);
      AppendedOne(values, prefix + [i], yielded0);
      yielded := yielded0 + [result];
    }
  }

  lemma PermutationIndices(t: Tuple, n: int)
    requires Permutation(t, n)
    ensures Indices(t, n)
  {}

  /** Yields the values of every permutation of r elements. */
  method PermutationsOf<T>(ary: seq<T>, r: int) returns (yielded: seq<seq<T>>)
    ensures r < 0 || |ary| < r ==> yielded == []
    ensures r == 0 ==> yielded == [[]]
    ensures 0 < r <= |ary| ==> Yields(ary, From(|ary|, r, [], 0), yielded)
  {
    var n := |ary|;
    yielded := [];
    if r < 0 || n < r {
      return;
    } else if r == 0 {
      yielded := yielded + [[]];
    } else if r == 1 {
      Singles(n, 0);
      var i := 0;
      while i < n
        invariant 0 <= i <= n && |yielded| == i && forall k | 0 <= k < i :: yielded[k] == [ary[k]]
      {
        yielded := yielded + [[ary[i]]];
        i := i + 1;
      }
      assert forall k | 0 <= k < n :: From(n, 1, [], 0)[k] == [k] && yielded[k] == Select(ary, [k]);
    } else {
      var p := new int[n];
      var used := new int[n];
      for i := 0 to n
        invariant forall k | 0 <= k < i :: used[k] == 0
      {
        used[i] := 0;
      }
      assert p[..0] == [];
      yielded := Permute0(n, r, p, 0, used, ary, []);
      assert p[..0] == [] && yielded[0..] == yielded;
    }
  }

  lemma {:induction false} Singles(n: nat, i: nat)
    requires i <= n
    ensures |From(n, 1, [], i)| == n - i && forall k | 0 <= k < n - i :: From(n, 1, [], i)[k] == [i + k]
    decreases n - i
  {
    if i < n {
      Singles(n, i + 1);
      assert [] + [i] == [i];
    }
  }
}
