/** Tuples of indices, their lexicographic order, and the values they select. */
module Tuples {

  type Tuple = seq<int>

  ghost predicate Differ(s: Tuple, t: Tuple, k: int) {
    0 <= k < |s| && |s| == |t| && s[..k] == t[..k] && s[k] < t[k]
  }

  ghost predicate Before(s: Tuple, t: Tuple) {
    exists k :: Differ(s, t, k)
  }

  /** In lexicographic order; in particular no tuple occurs twice. */
  ghost predicate InOrder(l: seq<Tuple>) {
    forall i, j | 0 <= i < j < |l| :: Before(l[i], l[j])
  }

  lemma OrderedHasNoDuplicates(l: seq<Tuple>, i: int, j: int)
    requires InOrder(l) && 0 <= i < j < |l|
    ensures l[i] != l[j]
  {
    assert Before(l[i], l[j]);
  }

  /** A list in order has as many members as it is long. */
  lemma {:induction false} OrderedCount(l: seq<Tuple>)
    requires InOrder(l)
    ensures |set t | t in l| == |l|
  {
    if l != [] {
      var front, last := l[..|l|-1], l[|l|-1];
      OrderedCount(front);
      forall i | 0 <= i < |front| ensures front[i] != last {
        OrderedHasNoDuplicates(l, i, |l| - 1);
      }
      assert l == front + [last];
      assert (set t | t in l) == (set t | t in front) + {last};
    } else {
      assert (set t | t in l) == {};
    }
  }

  lemma JoinInOrder(a: seq<Tuple>, b: seq<Tuple>)
    requires InOrder(a) && InOrder(b) && forall s, t | s in a && t in b :: Before(s, t)
    ensures InOrder(a + b)
  {}

  /** x in front of every tuple. */
  function Prefixed(x: int, l: seq<Tuple>): (r: seq<Tuple>)
    ensures |r| == |l| && forall i | 0 <= i < |l| :: r[i] == [x] + l[i]
  {
    seq(|l|, i requires 0 <= i < |l| => [x] + l[i])
  }

  lemma PrefixedHas(x: int, l: seq<Tuple>, t: Tuple)
    ensures t in Prefixed(x, l) <==> t != [] && t[0] == x && t[1..] in l
  {
    if t in Prefixed(x, l) {
      var k :| 0 <= k < |l| && Prefixed(x, l)[k] == t;
      assert t[1..] == l[k];
    }
    if t != [] && t[0] == x && t[1..] in l {
      var k :| 0 <= k < |l| && l[k] == t[1..];
      assert Prefixed(x, l)[k] == [t[0]] + t[1..] == t;
    }
  }

  lemma PrefixedInOrder(x: int, l: seq<Tuple>)
    requires InOrder(l)
    ensures InOrder(Prefixed(x, l))
  {
    forall i, j | 0 <= i < j < |l| ensures Before([x] + l[i], [x] + l[j]) {
      assert Before(l[i], l[j]);
      var k :| Differ(l[i], l[j], k);
      assert ([x] + l[i])[..k + 1] == [x] + l[i][..k] && ([x] + l[j])[..k + 1] == [x] + l[j][..k];
      assert Differ([x] + l[i], [x] + l[j], k + 1);
    }
  }

  lemma SmallerHead(s: Tuple, t: Tuple)
    requires |s| == |t| > 0 && s[0] < t[0]
    ensures Before(s, t)
  {
    assert Differ(s, t, 0);
  }

  ghost predicate Indices(t: Tuple, n: int) {
    forall j | 0 <= j < |t| :: 0 <= t[j] < n
  }

  /** The values at the indices of a tuple. */
  function Select<T>(values: seq<T>, t: Tuple): (r: seq<T>)
    requires Indices(t, |values|)
    ensures |r| == |t| && forall j | 0 <= j < |t| :: r[j] == values[t[j]]
  {
    seq(|t|, j requires 0 <= j < |t| => values[t[j]])
  }

  /** yielded are the values that the tuples select, in the same order. */
  ghost predicate Yields<T>(values: seq<T>, l: seq<Tuple>, yielded: seq<seq<T>>) {
    |yielded| == |l| && forall i | 0 <= i < |l| :: Indices(l[i], |values|) && yielded[i] == Select(values, l[i])
  }
}
