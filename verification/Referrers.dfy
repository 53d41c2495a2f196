/**
 The locations that weakly refer to one block: an open-addressed array that is searched as far as
 the greatest displacement recorded, so that removal may leave holes.
 */
module Referrers {
  import opened Probing

  /** A location and the callback block registered with it; location 0 is an empty slot. */
  datatype Ref = Ref(loc: nat, block: nat)

  datatype List = List(refs: seq<Ref>, num: int, maxDisplacement: nat)

  const EMPTY := List([], 0, 0)

  ghost function Locs(refs: seq<Ref>): (keys: seq<nat>)
    ensures |keys| == |refs| && forall i | 0 <= i < |refs| :: keys[i] == refs[i].loc
  {
    seq(|refs|, i requires 0 <= i < |refs| => refs[i].loc)
  }

  ghost predicate Near(l: List, hash: nat -> nat, i: int)
    requires 0 <= i < |l.refs|
  {
    l.refs[i].loc != 0 ==> Dist(Home(hash, l.refs[i].loc, |l.refs|), i, |l.refs|) <= l.maxDisplacement
  }

  ghost predicate Ok(l: List, hash: nat -> nat) {
    && l.num == |Filled(Locs(l.refs))|
    && (forall i, j | 0 <= i < j < |l.refs| && l.refs[i].loc != 0 :: l.refs[i].loc != l.refs[j].loc)
    && (forall i {:trigger Near(l, hash, i)} | 0 <= i < |l.refs| :: Near(l, hash, i))
  }

  ghost predicate Has(l: List, loc: nat) {
    exists i :: 0 <= i < |l.refs| && l.refs[i].loc == loc
  }

  function Greater(m: nat, n: nat): (r: nat) {
    if m < n then n else m
  }

  function NewSize(m: nat): (n: nat) {
    if m == 0 then 1 else if m == 1 then 2 else m + m - 1
  }

  /** While the entries of the old array are put into the new one, the new one never has to grow. */
  lemma GrowthSuffices(m: nat, k: nat)
    requires k < m
    ensures k < NewSize(m) * 2 / 3 && m < NewSize(m)
  {}

  lemma NewSizeIsMore(m: nat)
    ensures m < NewSize(m)
  {}

  lemma EmptyOk(m: nat, hash: nat -> nat)
    ensures Ok(List(seq(m, _ => Ref(0, 0)), 0, 0), hash)
    ensures forall x | x in seq(m, _ => Ref(0, 0)) :: x.loc == 0
  {
    var l := List(seq(m, _ => Ref(0, 0)), 0, 0);
    assert Filled(Locs(l.refs)) == {};
  }

  /** Enlarges the array and hashes its entries again. */
  method Grow(l: List, hash: nat -> nat) returns (r: List)
    requires Ok(l, hash)
    ensures Ok(r, hash) && r.num == l.num < |r.refs|
    ensures forall x: Ref | x.loc != 0 :: x in r.refs <==> x in l.refs
    decreases 1, 1
  {
    hide Ok, Filled, Locs, NewSize;
    var left := l.num;
    r := List(seq(NewSize(|l.refs|), _ => Ref(0, 0)), 0, 0);
    EmptyOk(NewSize(|l.refs|), hash);
    FilledAtMost(Locs(l.refs));
    FilledNone(Locs(l.refs));
    FilledCount(l, hash);
    NewSizeIsMore(|l.refs|);
    var i := 0;
    while i < |l.refs| && left > 0
      invariant 0 <= i <= |l.refs| && |r.refs| == NewSize(|l.refs|) && left == l.num - r.num
      invariant Ok(r, hash) && r.num == |Filled(Locs(l.refs)[..i])|
      invariant forall x: Ref | x.loc != 0 :: x in r.refs <==> x in l.refs[..i]
    {
      FilledPrefix(Locs(l.refs), i);
      FilledAtMostPrefix(Locs(l.refs), i);
      r := CopyOne(l, hash, i, r);
      left := if l.refs[i].loc != 0 then left - 1 else left;
      i := i + 1;
    }
    AllCopied(l, i, r.num);
  }

  lemma FilledCount(l: List, hash: nat -> nat)
    requires Ok(l, hash)
    ensures l.num == |Filled(Locs(l.refs))|
  {}

  /** Puts entry i of the old array into the new one, which is large enough. */
  method CopyOne(l: List, hash: nat -> nat, i: int, r0: List) returns (r: List)
    requires Ok(l, hash) && Ok(r0, hash) && 0 <= i < |l.refs| && |r0.refs| == NewSize(|l.refs|) && 0 <= r0.num <= i
    requires forall x: Ref | x.loc != 0 :: x in r0.refs <==> x in l.refs[..i]
    ensures Ok(r, hash) && |r.refs| == |r0.refs| && r.num == r0.num + if l.refs[i].loc != 0 then 1 else 0
    ensures forall x: Ref | x.loc != 0 :: x in r.refs <==> x in l.refs[..i+1]
    decreases 1, 0
  {
    r := r0;
    assert l.refs[..i+1] == l.refs[..i] + [l.refs[i]];
    if l.refs[i].loc != 0 {
      GrowthSuffices(|l.refs|, r.num);
      assert forall x | x in l.refs[..i] :: x.loc != l.refs[i].loc;
      hide Ok, Near, NewSize;
      r := Append(r, hash, l.refs[i].loc, l.refs[i].block);
    }
  }

  lemma FilledAtMostPrefix(keys: seq<nat>, i: int)
    requires 0 <= i <= |keys|
    ensures |Filled(keys[..i])| <= i
  {
    FilledAtMost(keys[..i]);
  }

  lemma FilledNone(keys: seq<nat>)
    ensures |Filled(keys[..0])| == 0
  {
    assert Filled(keys[..0]) == {};
  }

  lemma FilledPrefix(keys: seq<nat>, i: int)
    requires 0 <= i < |keys|
    ensures |Filled(keys[..i+1])| == |Filled(keys[..i])| + if keys[i] != 0 then 1 else 0
  {
    assert Filled(keys[..i+1]) == if keys[i] != 0 then Filled(keys[..i]) + {i} else Filled(keys[..i]);
  }

  lemma {:induction false} FilledRest(keys: seq<nat>, i: int, n: int)
    requires 0 <= i <= n <= |keys|
    ensures |Filled(keys[..i])| <= |Filled(keys[..n])|
    ensures |Filled(keys[..i])| == |Filled(keys[..n])| ==> forall k | i <= k < n :: keys[k] == 0
    decreases n
  {
    if i < n {
      FilledRest(keys, i, n - 1);
      FilledPrefix(keys, n - 1);
    }
  }

  /** Once all entries have been counted, the rest of the old array is empty. */
  lemma AllCopied(l: List, i: int, copied: int)
    requires l.num == |Filled(Locs(l.refs))| && 0 <= i <= |l.refs| && copied == |Filled(Locs(l.refs)[..i])|
    requires i == |l.refs| || copied >= l.num
    ensures copied == l.num
    ensures forall x: Ref | x.loc != 0 :: x in l.refs[..i] <==> x in l.refs
  {
    var keys := Locs(l.refs);
    FilledRest(keys, i, |keys|);
    assert keys[..|keys|] == keys;
    forall x: Ref | x.loc != 0 && x in l.refs ensures x in l.refs[..i] {
      var k :| 0 <= k < |l.refs| && l.refs[k] == x;
      assert keys[k] != 0;
    }
  }

  /** Adds a location that is not in the list. There is always an empty slot for it. */
  method Append(l: List, hash: nat -> nat, loc: nat, block: nat) returns (r: List)
    requires Ok(l, hash) && loc != 0 && !Has(l, loc)
    ensures Ok(r, hash) && r.num == l.num + 1
    ensures l.num < |l.refs| * 2 / 3 ==> |r.refs| == |l.refs|
    ensures forall x: Ref | x.loc != 0 :: x in r.refs <==> x in l.refs || x == Ref(loc, block)
    decreases if l.num >= |l.refs| * 2 / 3 then 2 else 0, 0
  {
    r := l;
    if l.num >= |l.refs| * 2 / 3 {
      r := Grow(l, hash);
    }
    assert !Has(r, loc) by {
      assert forall x: Ref | x.loc != 0 :: x in r.refs <==> x in l.refs;
    }
    var index, displacement := EmptySlot(r, hash, loc);
    PutOk(r, hash, index, displacement, Ref(loc, block));
    r := List(r.refs[index := Ref(loc, block)], r.num + 1, Greater(r.maxDisplacement, displacement));
  }

  method EmptySlot(l: List, hash: nat -> nat, loc: nat) returns (index: nat, displacement: nat)
    requires l.num == |Filled(Locs(l.refs))| < |l.refs|
    ensures index < |l.refs| && l.refs[index].loc == 0
    ensures displacement == Dist(Home(hash, loc, |l.refs|), index, |l.refs|)
  {
    var m := |l.refs|;
    ghost var empty := HasEmpty(Locs(l.refs));
    ghost var home := Home(hash, loc, m);
    hide Home;
    index, displacement := Home(hash, loc, m), 0;
    while l.refs[index].loc != 0
      invariant index < m && displacement == Dist(home, index, m)
      invariant forall j | 0 <= j < m && Dist(home, j, m) < displacement :: l.refs[j].loc != 0
      decreases m - displacement
    {
      assert forall j | 0 <= j < m && Dist(home, j, m) <= displacement :: j == index || l.refs[j].loc != 0;
      assert l.refs[empty].loc == 0 && displacement < Dist(home, empty, m) < m;
      index := if index + 1 == m then 0 else index + 1;
      displacement := displacement + 1;
    }
  }

  lemma PutOk(l: List, hash: nat -> nat, q: int, displacement: nat, x: Ref)
    requires Ok(l, hash) && x.loc != 0 && !Has(l, x.loc) && 0 <= q < |l.refs| && l.refs[q].loc == 0
    requires displacement == Dist(Home(hash, x.loc, |l.refs|), q, |l.refs|)
    ensures
      var r := List(l.refs[q := x], l.num + 1, Greater(l.maxDisplacement, displacement));
      Ok(r, hash) && forall y: Ref | y.loc != 0 :: y in r.refs <==> y in l.refs || y == x
  {
    var r := List(l.refs[q := x], l.num + 1, Greater(l.maxDisplacement, displacement));
    FilledPut(Locs(l.refs), q, x.loc);
    assert Locs(r.refs) == Locs(l.refs)[q := x.loc];
    forall i | 0 <= i < |r.refs| ensures Near(r, hash, i) {
      assert Near(l, hash, i);
    }
    forall y: Ref | y.loc != 0 ensures y in r.refs <==> y in l.refs || y == x {
      if y in l.refs {
        var k :| 0 <= k < |l.refs| && l.refs[k] == y;
        assert r.refs[k] == y;
      }
      assert r.refs[q] == x;
    }
  }

  /** Removes a location, leaving a hole; a location that is not in the list changes nothing. */
  method Remove(l: List, hash: nat -> nat, loc: nat) returns (r: List)
    requires Ok(l, hash) && loc != 0 && |l.refs| > 0
    ensures Ok(r, hash) && r.num == (if Has(l, loc) then l.num - 1 else l.num) && (!Has(l, loc) ==> r == l)
    ensures forall x: Ref | x.loc != 0 :: x in r.refs <==> x in l.refs && x.loc != loc
  {
    var m := |l.refs|;
    ghost var home := Home(hash, loc, m);
    assert forall i | 0 <= i < m && l.refs[i].loc == loc :: Near(l, hash, i);
    hide Home, Ok;
    var index, displacement := Home(hash, loc, m), 0;
    var start := index;
    while l.refs[index].loc != loc
      invariant 0 <= index < m && displacement == Dist(home, index, m)
      invariant forall j | 0 <= j < m && Dist(home, j, m) < displacement :: l.refs[j].loc != loc
      decreases m - displacement
    {
      assert forall j | 0 <= j < m && Dist(home, j, m) <= displacement :: j == index || l.refs[j].loc != loc;
      index := if index + 1 == m then 0 else index + 1;
      displacement := displacement + 1;
      if index == start || displacement > l.maxDisplacement {
        return l;
      }
    }
    HoleOk(l, hash, index);
    r := List(l.refs[index := Ref(0, l.refs[index].block)], l.num - 1, l.maxDisplacement);
  }

  lemma HoleOk(l: List, hash: nat -> nat, q: int)
    requires Ok(l, hash) && 0 <= q < |l.refs| && l.refs[q].loc != 0
    ensures
      var r := List(l.refs[q := Ref(0, l.refs[q].block)], l.num - 1, l.maxDisplacement);
      l.num > 0 && Ok(r, hash) && forall x: Ref | x.loc != 0 :: x in r.refs <==> x in l.refs && x.loc != l.refs[q].loc
  {
    FilledClear(Locs(l.refs), q);
    var r := List(l.refs[q := Ref(0, l.refs[q].block)], l.num - 1, l.maxDisplacement);
    assert Locs(r.refs) == Locs(l.refs)[q := 0];
    forall i | 0 <= i < |r.refs| ensures Near(r, hash, i) {
      assert Near(l, hash, i);
    }
    forall x: Ref | x.loc != 0 && x in l.refs && x.loc != l.refs[q].loc ensures x in r.refs {
      var k :| 0 <= k < |l.refs| && l.refs[k] == x;
      assert r.refs[k] == x;
    }
  }
}
