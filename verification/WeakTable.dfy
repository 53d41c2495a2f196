/**
 The table of weak references: an open-addressed table of the blocks that are weakly referred to,
 each with the list of the locations that refer to it. Clearing it against a garbage list zeroes
 those locations and chains the callback blocks registered with them.
 */
module WeakTable {
  import opened Probing
  import opened Referrers

  const INITIAL_SIZE := 15
  const END := -1

  /** A referent and its referrers; referent 0 is an empty slot. */
  datatype Entry = Entry(referent: nat, referrers: List)

  /** What a location is registered with: referent and callback block (0 for none). */
  type Registry = map<nat, (nat, nat)>

  ghost function Referents(t: seq<Entry>): (keys: seq<nat>)
    ensures |keys| == |t| && forall i | 0 <= i < |t| :: keys[i] == t[i].referent
  {
    seq(|t|, i requires 0 <= i < |t| => t[i].referent)
  }

  ghost predicate Distinct(t: seq<Entry>) {
    forall i, j | 0 <= i < j < |t| && t[i].referent != 0 :: t[i].referent != t[j].referent
  }

  ghost predicate Searchable(t: seq<Entry>, hash: nat -> nat) {
    Findable(Referents(t), hash) && Distinct(t)
  }

  /** The list of an entry holds registered locations only. */
  ghost predicate EntryOk(e: Entry, hash: nat -> nat, reg: Registry) {
    && Ok(e.referrers, hash) && e.referrers.num >= 1
    && forall x | x in e.referrers.refs && x.loc != 0 :: x.loc in reg && reg[x.loc] == (e.referent, x.block)
  }

  /** A registered location is in the list of its referent. */
  ghost predicate Covered(t: seq<Entry>, reg: Registry, loc: nat)
    requires loc in reg
  {
    exists e :: e in t && e.referent == reg[loc].0 && Ref(loc, reg[loc].1) in e.referrers.refs
  }

  ghost predicate Represents(t: seq<Entry>, hash: nat -> nat, reg: Registry) {
    && (forall e | e in t && e.referent != 0 :: EntryOk(e, hash, reg))
    && (forall loc | loc in reg :: loc != 0 && reg[loc].0 != 0 && Covered(t, reg, loc))
  }

  /** t holds the entries of s, but for those of the referent without. */
  ghost predicate SameEntries(s: seq<Entry>, t: seq<Entry>, without: nat) {
    forall e: Entry | e.referent != 0 :: e in t <==> e in s && e.referent != without
  }

  /** Registered locations are written by registration only, so each holds its referent. */
  ghost predicate Written(reg: Registry, mem: map<nat, nat>, next: map<nat, int>) {
    forall loc | loc in reg :: loc in mem && mem[loc] == reg[loc].0 && (reg[loc].1 == 0 || reg[loc].1 in next)
  }

  lemma WrittenWithout(reg: Registry, mem: map<nat, nat>, next: map<nat, int>, referent: nat, loc: nat)
    requires Written(reg, mem, next)
    ensures Written(Without(reg, referent, loc), mem, next)
  {}

  /** Exchanging the list of one entry. */
  lemma ExchangeKeeps(t: seq<Entry>, hash: nat -> nat, i: int, l: List)
    requires Searchable(t, hash) && 0 <= i < |t| && t[i].referent != 0
    ensures
      var s := t[i := Entry(t[i].referent, l)];
      && Searchable(s, hash) && Referents(s) == Referents(t) && s[i] in s
      && forall e: Entry | e.referent != 0 && e.referent != t[i].referent :: e in s <==> e in t
  {
    var s := t[i := Entry(t[i].referent, l)];
    assert Referents(s) == Referents(t);
    forall e: Entry | e.referent != 0 && e.referent != t[i].referent ensures e in s <==> e in t {
      if e in t {
        var k :| 0 <= k < |t| && t[k] == e;
        assert s[k] == e;
      }
    }
  }

  lemma OnlyEntry(t: seq<Entry>, i: int, e: Entry)
    requires Distinct(t) && 0 <= i < |t| && e in t && e.referent == t[i].referent != 0
    ensures e == t[i]
  {}

  /** As Represents, but the entry at i may have an empty list. */
  ghost predicate RepresentsBut(t: seq<Entry>, hash: nat -> nat, i: int, reg: Registry)
    requires 0 <= i < |t|
  {
    && Ok(t[i].referrers, hash)
    && (forall x | x in t[i].referrers.refs && x.loc != 0 :: x.loc in reg && reg[x.loc] == (t[i].referent, x.block))
    && (forall e | e in t && e.referent != 0 && e.referent != t[i].referent :: EntryOk(e, hash, reg))
    && (forall loc | loc in reg :: loc != 0 && reg[loc].0 != 0 && Covered(t, reg, loc))
  }

  /** The registrations of other referents are the same. */
  ghost predicate SameOthers(r: Registry, s: Registry, referent: nat) {
    forall loc: nat ::
      && (loc in s && s[loc].0 != referent <==> loc in r && r[loc].0 != referent)
      && (loc in s && s[loc].0 != referent ==> s[loc] == r[loc])
  }

  /** Entries of other referents represent the same registrations. */
  lemma OthersKept(t: seq<Entry>, s: seq<Entry>, hash: nat -> nat, referent: nat, r: Registry, r1: Registry)
    requires Represents(t, hash, r) && SameOthers(r, r1, referent)
    requires forall e: Entry | e.referent != 0 && e.referent != referent :: e in s <==> e in t
    ensures forall e | e in s && e.referent != 0 && e.referent != referent :: EntryOk(e, hash, r1)
    ensures forall loc | loc in r1 && r1[loc].0 != referent :: loc != 0 && r1[loc].0 != 0 && Covered(s, r1, loc)
  {
    forall e | e in s && e.referent != 0 && e.referent != referent ensures EntryOk(e, hash, r1) {
      assert EntryOk(e, hash, r);
    }
    forall loc | loc in r1 && r1[loc].0 != referent ensures loc != 0 && r1[loc].0 != 0 && Covered(s, r1, loc) {
      assert Covered(t, r, loc);
    }
  }

  lemma ReferrerGone(t: seq<Entry>, hash: nat -> nat, i: int, r: Registry, loc: nat, l: List)
    requires Searchable(t, hash) && Represents(t, hash, r) && 0 <= i < |t| && t[i].referent != 0 && Ok(l, hash)
    requires forall x: Ref | x.loc != 0 :: x in l.refs <==> x in t[i].referrers.refs && x.loc != loc
    ensures RepresentsBut(t[i := Entry(t[i].referent, l)], hash, i, Without(r, t[i].referent, loc))
  {
    var R, s, r1 := t[i].referent, t[i := Entry(t[i].referent, l)], Without(r, t[i].referent, loc);
    ListWithout(t, hash, i, r, loc, l);
    CoveredWithout(t, hash, i, r, loc, l);
    WithoutSameOthers(r, R, loc);
    hide Ok, Findable, EntryOk, Covered, Distinct, SameOthers, Without;
    ExchangeKeeps(t, hash, i, l);
    OthersKept(t, s, hash, R, r, r1);
  }

  lemma WithoutSameOthers(r: Registry, referent: nat, loc: nat)
    ensures SameOthers(r, Without(r, referent, loc), referent)
  {
    var s := Without(r, referent, loc);
    assert forall x: nat | x != loc :: (x in s <==> x in r) && (x in s ==> s[x] == r[x]);
    assert loc in s ==> loc in r && s[loc] == r[loc];
    assert loc in r && r[loc].0 != referent ==> loc in s;
  }

  lemma ListWithout(t: seq<Entry>, hash: nat -> nat, i: int, r: Registry, loc: nat, l: List)
    requires Represents(t, hash, r) && 0 <= i < |t| && t[i].referent != 0
    requires forall x: Ref | x.loc != 0 :: x in l.refs <==> x in t[i].referrers.refs && x.loc != loc
    ensures
      var r1 := Without(r, t[i].referent, loc);
      forall x | x in l.refs && x.loc != 0 :: x.loc in r1 && r1[x.loc] == (t[i].referent, x.block)
  {
    hide Represents;
    var r1 := Without(r, t[i].referent, loc);
    forall x | x in l.refs && x.loc != 0 ensures x.loc in r1 && r1[x.loc] == (t[i].referent, x.block) {
      assert x in t[i].referrers.refs && x.loc != loc;
      ListedIsRegistered(t, hash, i, r, x);
    }
  }

  lemma ListedIsRegistered(t: seq<Entry>, hash: nat -> nat, i: int, r: Registry, x: Ref)
    requires Represents(t, hash, r) && 0 <= i < |t| && t[i].referent != 0 && x in t[i].referrers.refs && x.loc != 0
    ensures x.loc in r && r[x.loc] == (t[i].referent, x.block)
  {
    hide Ok, Covered;
    assert t[i] in t && EntryOk(t[i], hash, r);
  }

  lemma CoveredWithout(t: seq<Entry>, hash: nat -> nat, i: int, r: Registry, loc: nat, l: List)
    requires Distinct(t) && Represents(t, hash, r) && 0 <= i < |t| && t[i].referent != 0
    requires forall x: Ref | x.loc != 0 :: x in l.refs <==> x in t[i].referrers.refs && x.loc != loc
    ensures
      var r1, s := Without(r, t[i].referent, loc), t[i := Entry(t[i].referent, l)];
      forall x | x in r1 && r1[x].0 == t[i].referent :: x != 0 && Covered(s, r1, x)
  {
    hide Represents, Distinct, Covered;
    var r1, s := Without(r, t[i].referent, loc), t[i := Entry(t[i].referent, l)];
    forall x | x in r1 && r1[x].0 == t[i].referent ensures x != 0 && Covered(s, r1, x) {
      CoveredByList(t, hash, i, r, x);
      ListCovers(s, i, r1, x);
    }
  }

  lemma ListCovers(t: seq<Entry>, i: int, r: Registry, loc: nat)
    requires 0 <= i < |t| && loc in r && r[loc].0 == t[i].referent && Ref(loc, r[loc].1) in t[i].referrers.refs
    ensures Covered(t, r, loc)
  {
    assert t[i] in t;
  }

  lemma CoveredByList(t: seq<Entry>, hash: nat -> nat, i: int, r: Registry, loc: nat)
    requires Distinct(t) && Represents(t, hash, r) && 0 <= i < |t| && loc in r && r[loc].0 == t[i].referent
    ensures loc != 0 && t[i].referent != 0 && Ref(loc, r[loc].1) in t[i].referrers.refs
  {
    assert Covered(t, r, loc);
    var e :| e in t && e.referent == r[loc].0 && Ref(loc, r[loc].1) in e.referrers.refs;
    OnlyEntry(t, i, e);
  }

  /** An entry without locations can go. */
  lemma EntryGone(t: seq<Entry>, s: seq<Entry>, hash: nat -> nat, i: int, r: Registry)
    requires 0 <= i < |t| && Distinct(t) && RepresentsBut(t, hash, i, r) && t[i].referent != 0
    requires t[i].referrers.num == 0
    requires SameEntries(t, s, t[i].referent)
    ensures Represents(s, hash, r)
  {
    NoLocs(t[i].referrers, hash);
    hide Ok, EntryOk;
    forall loc | loc in r ensures Covered(s, r, loc) {
      assert Covered(t, r, loc);
      var e :| e in t && e.referent == r[loc].0 && Ref(loc, r[loc].1) in e.referrers.refs;
      if e.referent == t[i].referent {
        OnlyEntry(t, i, e);
      }
    }
  }

  lemma NoLocs(l: List, hash: nat -> nat)
    requires Ok(l, hash) && l.num == 0
    ensures forall x | x in l.refs :: x.loc == 0
  {
    var keys := Locs(l.refs);
    assert forall k | 0 <= k < |keys| && keys[k] != 0 :: k in Filled(keys);
  }

  lemma AllRepresented(t: seq<Entry>, hash: nat -> nat, i: int, r: Registry)
    requires 0 <= i < |t| && Distinct(t) && RepresentsBut(t, hash, i, r) && t[i].referent != 0
    requires t[i].referrers.num != 0
    ensures Represents(t, hash, r)
  {
    forall e | e in t && e.referent != 0 ensures EntryOk(e, hash, r) {
      if e.referent == t[i].referent {
        OnlyEntry(t, i, e);
      }
    }
  }

  ghost function Without(r: Registry, referent: nat, loc: nat): (s: Registry) {
    if loc in r && r[loc].0 == referent then r - {loc} else r
  }

  lemma PutEntry(t: seq<Entry>, hash: nat -> nat, q: int, e: Entry)
    requires Searchable(t, hash) && 0 <= q < |t| && t[q].referent == 0
    requires PathFull(Referents(t), Home(hash, e.referent, |t|), q)
    requires e.referent != 0 ==> forall x | x in t :: x.referent != e.referent
    ensures Searchable(t[q := e], hash)
    ensures |Filled(Referents(t[q := e]))| == |Filled(Referents(t))| + if e.referent != 0 then 1 else 0
    ensures forall x: Entry | x.referent != 0 :: x in t[q := e] <==> x in t || x == e
  {
    var s := t[q := e];
    assert Referents(s) == Referents(t)[q := e.referent];
    PutKeepsFindable(Referents(t), hash, q, e.referent);
    if e.referent != 0 {
      FilledPut(Referents(t), q, e.referent);
    } else {
      assert Referents(s) == Referents(t);
    }
    PutMembers(t, q, e);
  }

  lemma PutMembers(t: seq<Entry>, q: int, e: Entry)
    requires 0 <= q < |t| && t[q].referent == 0
    ensures forall x: Entry | x.referent != 0 :: x in t[q := e] <==> x in t || x == e
  {
    forall x: Entry | x.referent != 0 ensures x in t[q := e] <==> x in t || x == e {
      if x in t {
        var k :| 0 <= k < |t| && t[k] == x;
        assert t[q := e][k] == x;
      }
      assert t[q := e][q] == e;
    }
  }

  /** Emptying a slot. */
  lemma ClearMembers(t: seq<Entry>, i: int, e: Entry)
    requires 0 <= i < |t| && Distinct(t) && t[i].referent != 0 && e.referent == 0
    ensures Distinct(t[i := e]) && SameEntries(t, t[i := e], t[i].referent)
    ensures Referents(t[i := e]) == Referents(t)[i := 0]
    ensures |Filled(Referents(t[i := e]))| == |Filled(Referents(t))| - 1
  {
    FilledClear(Referents(t), i);
    assert Referents(t[i := e]) == Referents(t)[i := 0];
    forall x: Entry | x.referent != 0 ensures x in t[i := e] <==> x in t && x.referent != t[i].referent {
      if x in t && x.referent != t[i].referent {
        var k :| 0 <= k < |t| && t[k] == x;
        assert t[i := e][k] == x;
      }
    }
  }

  /** The first empty slot behind x. */
  lemma EmptyBehind(keys: seq<nat>, x: int) returns (e: int)
    requires |Filled(keys)| < |keys| && 0 <= x < |keys| && keys[x] != 0
    ensures 0 <= e < |keys| && keys[e] == 0
    ensures forall j | 0 <= j < |keys| && Dist(e, j, |keys|) > Dist(e, x, |keys|) :: keys[j] != 0
  {
    var m := |keys|;
    var empty := HasEmpty(keys);
    e := x;
    var d := 0;
    while keys[e] != 0
      invariant 0 <= e < m && d == Dist(x, e, m)
      invariant forall j | 0 <= j < m && Dist(x, j, m) < d :: keys[j] != 0
      decreases m - d
    {
      assert forall j | 0 <= j < m && Dist(x, j, m) <= d :: j == e || keys[j] != 0;
      assert keys[empty] == 0 && d < Dist(x, empty, m) < m;
      NextDist(x, e, m);
      e, d := Next(e, m), d + 1;
    }
  }

  lemma RepresentsAfter(s: seq<Entry>, hash: nat -> nat, referent: nat, r: Registry)
    requires forall e | e in s && e.referent != 0 && e.referent != referent :: EntryOk(e, hash, r)
    requires forall loc | loc in r && r[loc].0 != referent :: loc != 0 && r[loc].0 != 0 && Covered(s, r, loc)
    requires forall e | e in s && e.referent == referent :: EntryOk(e, hash, r)
    requires referent != 0 && forall loc | loc in r && r[loc].0 == referent :: loc != 0 && Covered(s, r, loc)
    ensures Represents(s, hash, r)
  {}

  lemma AddedSameOthers(r: Registry, referent: nat, loc: nat, block: nat)
    requires loc !in r
    ensures SameOthers(r, r[loc := (referent, block)], referent)
  {
    var s := r[loc := (referent, block)];
    assert forall x: nat | x != loc :: (x in s <==> x in r) && (x in s ==> s[x] == r[x]);
  }

  lemma ReferrerAdded(t: seq<Entry>, hash: nat -> nat, i: int, r: Registry, loc: nat, block: nat, l: List)
    requires Searchable(t, hash) && Represents(t, hash, r) && 0 <= i < |t| && t[i].referent != 0 && Ok(l, hash)
    requires l.num >= 1
    requires loc !in r && loc != 0
    requires forall x: Ref | x.loc != 0 :: x in l.refs <==> x in t[i].referrers.refs || x == Ref(loc, block)
    ensures Represents(t[i := Entry(t[i].referent, l)], hash, r[loc := (t[i].referent, block)])
    ensures Searchable(t[i := Entry(t[i].referent, l)], hash)
  {
    var R, s, r1 := t[i].referent, t[i := Entry(t[i].referent, l)], r[loc := (t[i].referent, block)];
    AddedSameOthers(r, R, loc, block);
    ListWith(t, hash, i, r, loc, block, l);
    CoveredWith(t, hash, i, r, loc, block, l);
    hide Findable, SameOthers, Ok, EntryOk, Covered, Represents;
    ExchangeKeeps(t, hash, i, l);
    OthersKept(t, s, hash, R, r, r1);
    forall e | e in s && e.referent == R ensures EntryOk(e, hash, r1) {
      OnlyEntry(s, i, e);
    }
    RepresentsAfter(s, hash, R, r1);
  }

  lemma ListWith(t: seq<Entry>, hash: nat -> nat, i: int, r: Registry, loc: nat, block: nat, l: List)
    requires Represents(t, hash, r) && 0 <= i < |t| && t[i].referent != 0 && Ok(l, hash) && l.num >= 1 && loc !in r
    requires forall x: Ref | x.loc != 0 :: x in l.refs <==> x in t[i].referrers.refs || x == Ref(loc, block)
    ensures EntryOk(Entry(t[i].referent, l), hash, r[loc := (t[i].referent, block)])
  {
    hide Ok, Covered;
    assert t[i] in t && EntryOk(t[i], hash, r);
  }

  lemma CoveredWith(t: seq<Entry>, hash: nat -> nat, i: int, r: Registry, loc: nat, block: nat, l: List)
    requires Distinct(t) && Represents(t, hash, r) && 0 <= i < |t| && t[i].referent != 0 && loc !in r && loc != 0
    requires forall x: Ref | x.loc != 0 :: x in l.refs <==> x in t[i].referrers.refs || x == Ref(loc, block)
    ensures
      var r1, s := r[loc := (t[i].referent, block)], t[i := Entry(t[i].referent, l)];
      forall x | x in r1 && r1[x].0 == t[i].referent :: x != 0 && Covered(s, r1, x)
  {
    hide Represents, Distinct, Covered;
    var r1, s := r[loc := (t[i].referent, block)], t[i := Entry(t[i].referent, l)];
    forall x | x in r1 && r1[x].0 == t[i].referent ensures x != 0 && Covered(s, r1, x) {
      if x != loc {
        CoveredByList(t, hash, i, r, x);
      }
      ListCovers(s, i, r1, x);
    }
  }

  lemma EntryAdded(t: seq<Entry>, s: seq<Entry>, hash: nat -> nat, r: Registry, loc: nat, block: nat, e: Entry)
    requires Represents(t, hash, r) && e.referent != 0 && (forall x | x in t :: x.referent != e.referent)
    requires loc !in r && loc != 0 && Ok(e.referrers, hash) && e.referrers.num >= 1
    requires forall x: Ref | x.loc != 0 :: x in e.referrers.refs <==> x == Ref(loc, block)
    requires forall x: Entry | x.referent != 0 :: x in s <==> x in t || x == e
    ensures Represents(s, hash, r[loc := (e.referent, block)])
  {
    var r1 := r[loc := (e.referent, block)];
    AddedSameOthers(r, e.referent, loc, block);
    NewList(t, s, hash, r, loc, block, e);
    hide SameOthers, EntryOk, Covered, Represents;
    OthersKept(t, s, hash, e.referent, r, r1);
    RepresentsAfter(s, hash, e.referent, r1);
  }

  lemma NewList(t: seq<Entry>, s: seq<Entry>, hash: nat -> nat, r: Registry, loc: nat, block: nat, e: Entry)
    requires Represents(t, hash, r) && e.referent != 0 && (forall x | x in t :: x.referent != e.referent)
    requires loc !in r && loc != 0 && Ok(e.referrers, hash) && e.referrers.num >= 1
    requires forall x: Ref | x.loc != 0 :: x in e.referrers.refs <==> x == Ref(loc, block)
    requires e in s
    ensures
      var r1 := r[loc := (e.referent, block)];
      EntryOk(e, hash, r1) && forall x | x in r1 && r1[x].0 == e.referent :: x != 0 && Covered(s, r1, x)
  {
    var r1 := r[loc := (e.referent, block)];
    assert Ref(loc, block) in e.referrers.refs;
    forall x | x in r ensures r[x].0 != e.referent {
      assert Covered(t, r, x);
    }
  }

  /** The registrations whose referents are not in the garbage. */
  ghost function Cleared(r: Registry, garbage: seq<nat>): (s: Registry) {
    map loc | loc in r && r[loc].0 !in garbage :: r[loc]
  }

  lemma EntryCleared(t: seq<Entry>, s: seq<Entry>, hash: nat -> nat, r: Registry, referent: nat)
    requires Represents(t, hash, r) && SameEntries(t, s, referent) && referent != 0
    ensures Represents(s, hash, Cleared(r, [referent]))
  {
    OthersKept(t, s, hash, referent, r, Cleared(r, [referent]));
  }

  /** The locations registered with a garbage block have been zeroed, and nothing else has been written. */
  ghost predicate Zeroed(mem0: map<nat, nat>, mem1: map<nat, nat>, r: Registry, garbage: seq<nat>) {
    && mem1.Keys == mem0.Keys
    && forall loc | loc in mem0 :: mem1[loc] == if loc in r && r[loc].0 in garbage then 0 else mem0[loc]
  }

  /** Block b was registered with a location that refers to garbage. */
  ghost predicate Attached(r: Registry, garbage: seq<nat>, b: nat) {
    b != 0 && exists loc :: loc in r && r[loc].0 in garbage && r[loc].1 == b
  }

  lemma ClearedTwice(r: Registry, g: seq<nat>, x: nat)
    ensures Cleared(Cleared(r, g), [x]) == Cleared(r, g + [x])
  {}

  lemma ZeroedTwice(m0: map<nat, nat>, m1: map<nat, nat>, m2: map<nat, nat>, r: Registry, g: seq<nat>, x: nat)
    requires Zeroed(m0, m1, r, g) && Zeroed(m1, m2, Cleared(r, g), [x])
    ensures Zeroed(m0, m2, r, g + [x])
  {}

  lemma AttachedTwice(r: Registry, g: seq<nat>, x: nat)
    ensures forall b :: Attached(r, g, b) || Attached(Cleared(r, g), [x], b) <==> Attached(r, g + [x], b)
  {
    forall b | Attached(r, g + [x], b) ensures Attached(r, g, b) || Attached(Cleared(r, g), [x], b) {
      var loc :| loc in r && r[loc].0 in g + [x] && r[loc].1 == b;
      assert r[loc].0 in g || (loc in Cleared(r, g) && r[loc].0 in [x]);
    }
  }

  lemma NothingCleared(r: Registry, x: nat, m: map<nat, nat>)
    requires forall loc | loc in r :: r[loc].0 != x
    ensures Cleared(r, [x]) == r && Zeroed(m, m, r, [x]) && forall b :: !Attached(r, [x], b)
  {}

  lemma NothingToClear(r: Registry, m: map<nat, nat>)
    ensures Cleared(r, []) == r && Zeroed(m, m, r, []) && forall b :: !Attached(r, [], b)
  {}

  // ----- how many entries a collection removes -----

  /** The garbage blocks that some location is registered with. */
  ghost function Referred(r: Registry, garbage: seq<nat>): (s: set<nat>) {
    set loc | loc in r && r[loc].0 in garbage :: r[loc].0
  }

  lemma OneReferred(r: Registry, x: nat, loc: nat)
    requires loc in r && r[loc].0 == x
    ensures |Referred(r, [x])| == 1
  {
    assert Referred(r, [x]) == {x};
  }

  lemma NothingReferred(r: Registry, x: nat)
    requires forall loc | loc in r :: r[loc].0 != x
    ensures |Referred(r, [x])| == 0
  {
    assert Referred(r, [x]) == {};
  }

  lemma ReferredByNone(r: Registry)
    ensures |Referred(r, [])| == 0
  {
    assert Referred(r, []) == {};
  }

  /** A block is counted once, however often the garbage lists it. */
  lemma ReferredTwice(r: Registry, g: seq<nat>, x: nat)
    ensures |Referred(r, g + [x])| == |Referred(r, g)| + |Referred(Cleared(r, g), [x])|
  {
    var a, b := Referred(r, g), Referred(Cleared(r, g), [x]);
    forall y ensures y in Referred(r, g + [x]) <==> y in a + b {
      if loc :| loc in r && r[loc].0 in g + [x] && r[loc].0 == y {
        assert r[loc].0 in g || (loc in Cleared(r, g) && r[loc].0 in [x]);
      }
    }
    assert Referred(r, g + [x]) == a + b && a !! b;
  }

  lemma ReferredIff(r: Registry, garbage: seq<nat>)
    ensures |Referred(r, garbage)| == 0 <==> forall loc | loc in r :: r[loc].0 !in garbage
  {
    if loc :| loc in r && r[loc].0 in garbage {
      assert r[loc].0 in Referred(r, garbage);
    } else {
      assert Referred(r, garbage) == {};
    }
  }

  /** An entry has a registered location. */
  lemma SomeReferrer(e: Entry, hash: nat -> nat, reg: Registry) returns (x: Ref)
    requires EntryOk(e, hash, reg)
    ensures x.loc in reg && reg[x.loc] == (e.referent, x.block)
  {
    hide Ok;
    var k := SomeLoc(e.referrers, hash);
    x := e.referrers.refs[k];
    assert x in e.referrers.refs;
  }

  lemma SomeLoc(l: List, hash: nat -> nat) returns (k: int)
    requires Ok(l, hash) && l.num >= 1
    ensures 0 <= k < |l.refs| && l.refs[k].loc != 0
  {
    NoFilled(l.refs);
    k :| 0 <= k < |l.refs| && l.refs[k].loc != 0;
  }

  lemma NoFilled(refs: seq<Ref>)
    ensures (forall i | 0 <= i < |refs| :: refs[i].loc == 0) ==> |Filled(Locs(refs))| == 0
  {
    if forall i | 0 <= i < |refs| :: refs[i].loc == 0 {
      assert Filled(Locs(refs)) == {};
    }
  }

  // ----- callbacks -----

  /** chain lists the blocks that are linked, from the head. */
  ghost predicate Chained(next: map<nat, int>, head: int, chain: seq<nat>) {
    && head == (if chain == [] then END else chain[0])
    && (forall k | 0 <= k < |chain| :: Link(next, chain, k))
    && (forall b | b in next :: next[b] != 0 <==> b in chain)
    && (forall j, k | 0 <= j < k < |chain| :: chain[j] != chain[k])
  }

  ghost predicate Link(next: map<nat, int>, chain: seq<nat>, k: int)
    requires 0 <= k < |chain|
  {
    chain[k] != 0 && chain[k] in next && next[chain[k]] == if k + 1 < |chain| then chain[k + 1] else END
  }

  lemma LinkFront(next: map<nat, int>, head: int, chain: seq<nat>, b: nat)
    requires Chained(next, head, chain) && b != 0 && b in next && next[b] == 0
    ensures Chained(next[b := head], b, [b] + chain)
  {
    var after, longer := next[b := head], [b] + chain;
    forall k | 0 <= k < |longer| ensures Link(after, longer, k) {
      assert k > 0 ==> Link(next, chain, k - 1);
      assert k == 0 && chain != [] ==> Link(next, chain, 0);
    }
    assert chain != [] ==> Link(next, chain, 0);
  }

  class Table {
    const hash: nat -> nat
    const callable: set<nat>      // callback blocks with a function
    var table: seq<Entry>
    var numWeakRefs: int
    var mem: map<nat, nat>        // the contents of locations
    var next: map<nat, int>       // the links of callback blocks
    ghost var reg: Registry

    ghost predicate Bounded()
      reads this`table, this`numWeakRefs
    {
      |Filled(Referents(table))| <= numWeakRefs <= |table| * 3 / 4
    }

    /** By how much the count of weak references exceeds the number of entries. */
    ghost function Drift(): (d: int)
      reads this`table, this`numWeakRefs
    {
      numWeakRefs - |Filled(Referents(table))|
    }

    ghost predicate Valid()
      reads this
    {
      Searchable(table, hash) && Represents(table, hash, reg) && Written(reg, mem, next) && Bounded()
    }

    constructor (hash: nat -> nat, callable: set<nat>, mem: map<nat, nat>, blocks: set<nat>)
      ensures Valid() && reg == map[] && this.mem == mem && this.hash == hash && this.callable == callable
      ensures Chained(next, END, []) && next.Keys == blocks && Drift() == 0
    {
      this.hash, this.callable, this.mem := hash, callable, mem;
      table, numWeakRefs, reg := [], 0, map[];
      next := map b | b in blocks :: 0;
      assert Filled(Referents([])) == {};
    }

    /** The slot of a referent, or -1. */
    method EntryFor(referent: nat) returns (i: int)
      requires Searchable(table, hash) && referent != 0
      ensures if i == -1 then forall e | e in table ::
                e.referent != referent else 0 <= i < |table| && table[i].referent == referent
    {
      var m := |table|;
      if m == 0 {
        return -1;
      }
      ghost var keys := Referents(table);
      var start := Home(hash, referent, m);
      i := start;
      ghost var d := 0;
      assert forall k | 0 <= k < m && keys[k] == referent :: Reachable(keys, hash, k);
      hide Home, Reachable, Findable;
      while true
        invariant 0 <= i < m && d == Dist(start, i, m)
        invariant forall j | 0 <= j < m && Dist(start, j, m) < d :: keys[j] != referent
        decreases m - d
      {
        if table[i].referent == referent {
          return;
        }
        if table[i].referent == 0 {
          NotBehind(keys, start, i, referent, hash);
          return -1;
        }
        assert forall j | 0 <= j < m && Dist(start, j, m) <= d :: j == i || keys[j] != referent;
        i := if i + 1 == m then 0 else i + 1;
        d := d + 1;
        if i == start {
          return -1;
        }
      }
    }

    lemma NotBehind(keys: seq<nat>, start: int, i: int, referent: nat, hash: nat -> nat)
      requires 0 <= start < |keys| && 0 <= i < |keys| && keys[i] == 0 && referent != 0
      requires start == Home(hash, referent, |keys|)
      requires forall k | 0 <= k < |keys| && keys[k] == referent :: Reachable(keys, hash, k)
      requires forall j | 0 <= j < |keys| && Dist(start, j, |keys|) < Dist(start, i, |keys|) :: keys[j] != referent
      ensures forall j | 0 <= j < |keys| :: keys[j] != referent
    {
      assert forall k | 0 <= k < |keys| && keys[k] == referent :: PathFull(keys, start, k);
    }

    /** Puts an entry into the first empty slot from its home. */
    method InsertEntry(e: Entry) returns (ok: bool, ghost q: int)
      modifies this`table
      ensures ok <==> exists i :: 0 <= i < |old(table)| && old(table)[i].referent == 0
      ensures !ok ==> table == old(table)
      ensures ok ==> 0 <= q < |old(table)| && old(table)[q].referent == 0 && table == old(table)[q := e]
      ensures ok ==> PathFull(Referents(old(table)), Home(hash, e.referent, |old(table)|), q)
    {
      var m := |table|;
      q := 0;
      if m == 0 {
        return false, 0;
      }
      ghost var keys := Referents(table);
      var start := Home(hash, e.referent, m);
      var i := start;
      ghost var d := 0;
      hide Home;
      while true
        invariant 0 <= i < m && d == Dist(start, i, m) && table == old(table)
        invariant forall j | 0 <= j < m && Dist(start, j, m) < d :: keys[j] != 0
        decreases m - d
      {
        if table[i].referent == 0 {
          table := table[i := e];
          return true, i;
        }
        assert forall j | 0 <= j < m && Dist(start, j, m) <= d :: j == i || keys[j] != 0;
        i := if i + 1 == m then 0 else i + 1;
        d := d + 1;
        if i == start {
          assert forall j | 0 <= j < m :: keys[j] != 0;
          return false, 0;
        }
      }
    }

    /** Empties a slot and hashes again the entries behind it, up to the next empty slot. */
    method RemoveEntry(i: int)
      requires Searchable(table, hash) && 0 <= i < |table| && table[i].referent != 0
      requires |Filled(Referents(table))| < |table|
      modifies this`table
      ensures Searchable(table, hash) && |table| == |old(table)|
      ensures SameEntries(old(table), table, old(table)[i].referent)
      ensures |Filled(Referents(table))| == |Filled(Referents(old(table)))| - 1
    {
      var m := |table|;
      ghost var t0 := table;
      ghost var e0 := EmptyBehind(Referents(t0), i);
      table := table[i := Entry(0, List([], 0, table[i].referrers.maxDisplacement))];
      ClearMembers(t0, i, table[i]);
      RepairStarts(Referents(t0), hash, e0, i);
      var index := i;
      hide Repaired, Findable, SameEntries, Filled, Distinct, Home, Referents;
      while true
        invariant |table| == m && 0 <= index < m && 0 <= e0 < m && Dist(e0, i, m) <= Dist(e0, index, m)
        invariant Repaired(Referents(table), hash, e0, index) && Distinct(table)
        invariant SameEntries(t0, table, t0[i].referent) && |Filled(Referents(table))| == |Filled(Referents(t0))| - 1
        decreases m - Dist(e0, index, m)
      {
        ghost var last := index;
        index := if index + 1 == m then 0 else index + 1;
        if table[index].referent == 0 {
          RepairEnds(Referents(table), hash, e0, last);
          return;
        }
        MoveEntry(index, last, e0, t0, t0[i].referent);
        if index == i {
          return;
        }
      }
    }

    /** Takes the entry behind slot c out of the table and inserts it again. */
    method MoveEntry(n: int, ghost c: int, ghost e0: int, ghost t0: seq<Entry>, ghost without: nat)
      requires 0 <= c < |table| && n == Next(c, |table|) && 0 <= n < |table| && table[n].referent != 0
      requires Repaired(Referents(table), hash, e0, c) && Distinct(table) && SameEntries(t0, table, without)
      modifies this`table
      ensures |table| == |old(table)| && |Filled(Referents(table))| == |Filled(Referents(old(table)))|
      ensures Repaired(Referents(table), hash, e0, n) && Distinct(table) && SameEntries(t0, table, without)
      ensures Dist(e0, n, |table|) == Dist(e0, c, |table|) + 1
    {
      hide Repaired, Findable, SameEntries, Filled, Distinct, PathFull, Home;
      ghost var t := table;
      var e := table[n];
      table := table[n := Entry(0, e.referrers)];
      assert table[n].referent == 0;
      var ok, q := InsertEntry(e);
      MoveKeeps(t, hash, e0, c, q, t0, without);
    }

    /** Moving the entry behind slot c to the first empty slot from its home. */
    lemma MoveKeeps(t: seq<Entry>, hash: nat -> nat, e0: int, c: int, q: int, t0: seq<Entry>, without: nat)
      requires Repaired(Referents(t), hash, e0, c) && Distinct(t) && SameEntries(t0, t, without)
      requires
        var n := Next(c, |t|);
        && t[n].referent != 0 && 0 <= q < |t|
        && var s := t[n := Entry(0, t[n].referrers)];
           s[q].referent == 0 && PathFull(Referents(s), Home(hash, t[n].referent, |t|), q)
      ensures
        var n := Next(c, |t|);
        var s := t[n := Entry(0, t[n].referrers)][q := t[n]];
        && Repaired(Referents(s), hash, e0, n) && Distinct(s) && SameEntries(t0, s, without)
        && |Filled(Referents(s))| == |Filled(Referents(t))|
        && Dist(e0, n, |t|) == Dist(e0, c, |t|) + 1
    {
      var n := Next(c, |t|);
      var r := t[n := Entry(0, t[n].referrers)];
      var s := r[q := t[n]];
      assert 0 <= n < |t| by { hide Distinct, SameEntries, PathFull; }
      hide Repaired, Distinct, SameEntries, Filled, PathFull, Home, Next, Findable;
      MoveMembers(t, n, q, t0, without);
      assert Referents(r) == Referents(t)[n := 0];
      assert Referents(s) == Referents(r)[q := t[n].referent];
      RepairSlot(Referents(t), hash, e0, c, q);
      RepairStep(Referents(t), hash, e0, c, q);
    }

    /** An entry that moves to an empty slot stays in the table, once. */
    lemma MoveMembers(t: seq<Entry>, n: int, q: int, t0: seq<Entry>, without: nat)
      requires Distinct(t) && SameEntries(t0, t, without) && 0 <= n < |t| && 0 <= q < |t| && t[n].referent != 0
      requires t[n := Entry(0, t[n].referrers)][q].referent == 0
      ensures
        var s := t[n := Entry(0, t[n].referrers)][q := t[n]];
        Distinct(s) && SameEntries(t0, s, without) && |Filled(Referents(s))| == |Filled(Referents(t))|
    {
      var r := t[n := Entry(0, t[n].referrers)];
      ClearMembers(t, n, r[n]);
      PutMembers(r, q, t[n]);
      FilledPut(Referents(r), q, t[n].referent);
      assert Referents(r[q := t[n]]) == Referents(r)[q := t[n].referent];
      hide Filled, Referents;
      assert t[n] in t;
      assert Distinct(r[q := t[n]]) by { MovedDistinct(t, n, q); }
      hide Distinct;
    }

    lemma MovedDistinct(t: seq<Entry>, n: int, q: int)
      requires Distinct(t) && 0 <= n < |t| && 0 <= q < |t| && t[n].referent != 0
      requires t[n := Entry(0, t[n].referrers)][q].referent == 0
      ensures Distinct(t[n := Entry(0, t[n].referrers)][q := t[n]])
    {}

    /** Doubles the table when it is three quarters full; afterwards there is room for one more. */
    method GrowMaybe()
      requires Searchable(table, hash) && Bounded()
      modifies this`table
      ensures Searchable(table, hash) && SameEntries(old(table), table, 0)
      ensures |Filled(Referents(table))| == |Filled(Referents(old(table)))| && numWeakRefs + 1 <= |table| * 3 / 4
    {
      hide Searchable, Filled, Home, PathFull, EMPTY;
      if numWeakRefs < |table| * 3 / 4 {
        return;
      }
      var old0 := table;
      var newMax := if |old0| != 0 then |old0| * 2 + 1 else INITIAL_SIZE;
      table := seq(newMax, _ => Entry(0, EMPTY));
      EmptyTable(table, hash);
      FilledNone(Referents(old0));
      var k := 0;
      while k < |old0|
        invariant 0 <= k <= |old0| && |table| == newMax && Searchable(table, hash)
        invariant forall x: Entry | x.referent != 0 :: x in table <==> x in old0[..k]
        invariant |Filled(Referents(table))| == |Filled(Referents(old0)[..k])|
      {
        FilledPrefix(Referents(old0), k);
        NewToPrefix(old0, hash, k);
        CopyEntry(old0[k], k);
        assert old0[..k + 1] == old0[..k] + [old0[k]];
        k := k + 1;
      }
      assert old0[..k] == old0 && Referents(old0)[..k] == Referents(old0);
    }

    lemma EmptyTable(t: seq<Entry>, hash: nat -> nat)
      requires forall e | e in t :: e.referent == 0
      ensures Searchable(t, hash) && |Filled(Referents(t))| == 0
    {
      assert Filled(Referents(t)) == {};
      forall i | 0 <= i < |t| ensures Reachable(Referents(t), hash, i) {}
    }

    lemma NewToPrefix(t: seq<Entry>, hash: nat -> nat, k: int)
      requires Searchable(t, hash) && 0 <= k < |t|
      ensures forall x | x in t[..k] && x.referent != 0 :: x.referent != t[k].referent
      ensures |Filled(Referents(t)[..k])| <= k
    {
      FilledAtMost(Referents(t)[..k]);
    }

    /** Inserts an entry of the old table; there is room, since the new table is larger. */
    method CopyEntry(e: Entry, ghost k: nat)
      requires Searchable(table, hash) && |Filled(Referents(table))| <= k < |table|
      requires e.referent != 0 ==> forall x | x in table :: x.referent != e.referent
      modifies this`table
      ensures Searchable(table, hash) && |table| == |old(table)|
      ensures |Filled(Referents(table))| == |Filled(Referents(old(table)))| + if e.referent != 0 then 1 else 0
      ensures forall x: Entry | x.referent != 0 :: x in table <==> x in old(table) || x == e
    {
      ghost var t := table;
      ghost var i := HasEmpty(Referents(t));
      assert t[i].referent == 0;
      hide Searchable, Filled, PathFull, Home;
      var ok, q := InsertEntry(e);
      PutEntry(t, hash, q, e);
    }

    // ----- registration -----

    /** A registered location is in the entry of its referent, and an entry's locations are registered. */
    lemma ListIs(i: int, loc: nat)
      requires Searchable(table, hash) && Represents(table, hash, reg) && 0 <= i < |table| && table[i].referent != 0
      requires loc != 0
      ensures EntryOk(table[i], hash, reg) && Ok(table[i].referrers, hash) && table[i].referrers.num >= 1
      ensures Has(table[i].referrers, loc) <==> loc in reg && reg[loc].0 == table[i].referent
    {
      var e := table[i];
      assert e in table;
      if Has(e.referrers, loc) {
        var k :| 0 <= k < |e.referrers.refs| && e.referrers.refs[k].loc == loc;
        assert e.referrers.refs[k] in e.referrers.refs;
      }
      if loc in reg && reg[loc].0 == e.referent {
        assert Covered(table, reg, loc);
        var f :| f in table && f.referent == reg[loc].0 && Ref(loc, reg[loc].1) in f.referrers.refs;
        OnlyEntry(table, i, f);
      }
    }

    /** Takes a location off the list of a referent; an entry without locations is removed. */
    method UnregisterNoLock(referent: nat, loc: nat)
      requires Valid() && referent != 0 && loc != 0
      modifies this`table, this`numWeakRefs, this`reg
      ensures Valid() && reg == Without(old(reg), referent, loc) && Drift() == old(Drift())
    {
      hide Searchable, Represents, RepresentsBut, Written, Bounded, Without;
      var i := EntryFor(referent);
      if i == -1 {
        NotRegistered(referent, loc);
        return;
      }
      RemoveReferrer(i, loc);
      DropIfEmpty(i);
    }

    /** Removes an entry that has lost its last location. */
    method DropIfEmpty(i: int)
      requires Searchable(table, hash) && Bounded() && 0 <= i < |table| && table[i].referent != 0
      requires RepresentsBut(table, hash, i, reg)
      modifies this`table, this`numWeakRefs
      ensures Searchable(table, hash) && Bounded() && Represents(table, hash, reg) && Drift() == old(Drift())
    {
      if table[i].referrers.num == 0 {
        ghost var t := table;
        Smaller();
        hide Findable, Represents, RepresentsBut, Distinct, Filled, Referents;
        RemoveEntry(i);
        numWeakRefs := numWeakRefs - 1;
        EntryGone(t, table, hash, i, reg);
      } else {
        AllRepresented(table, hash, i, reg);
      }
    }

    method RemoveReferrer(i: int, loc: nat)
      requires Searchable(table, hash) && Represents(table, hash, reg) && Written(reg, mem, next) && Bounded()
      requires 0 <= i < |table| && table[i].referent != 0 && loc != 0
      modifies this`table, this`reg
      ensures Written(reg, mem, next) && |table| == |old(table)| && Bounded() && Drift() == old(Drift())
      ensures table[i].referent == old(table)[i].referent && Searchable(table, hash)
      ensures Referents(table) == Referents(old(table))
      ensures reg == Without(old(reg), old(table)[i].referent, loc) && RepresentsBut(table, hash, i, reg)
    {
      ghost var t, r := table, reg;
      hide Searchable, Represents, Ok, Findable, Distinct, Written, Without, RepresentsBut, Has, EntryOk, Bounded,
        Filled;
      ListIs(i, loc);
      SomeRefs(table[i].referrers);
      var l := Remove(table[i].referrers, hash, loc);
      WrittenWithout(reg, mem, next, table[i].referent, loc);
      ExchangeKeeps(t, hash, i, l);
      table := table[i := Entry(table[i].referent, l)];
      BoundedAgain(t);
      reg := Without(reg, table[i].referent, loc);
      ReferrerGone(t, hash, i, r, loc, l);
    }

    /** The table is never full. */
    lemma Smaller()
      requires Bounded() && |table| > 0
      ensures |Filled(Referents(table))| < |table|
    {}

    twostate lemma BoundedAgain(t: seq<Entry>)
      requires old(Bounded()) && t == old(table) && Referents(table) == Referents(t) && |table| == |t|
      requires numWeakRefs == old(numWeakRefs)
      ensures Bounded()
    {}

    lemma SomeRefs(l: List)
      requires Ok(l, hash) && l.num >= 1
      ensures |l.refs| > 0
    {
      FilledAtMost(Locs(l.refs));
    }

    lemma NotRegistered(referent: nat, loc0: nat)
      requires Represents(table, hash, reg) && forall e | e in table :: e.referent != referent
      ensures forall loc | loc in reg :: reg[loc].0 != referent
      ensures Without(reg, referent, loc0) == reg
    {
      hide Represents;
      forall loc | loc in reg ensures reg[loc].0 != referent {
        ReferentIsThere(loc);
      }
    }

    /** The referent of a registered location has an entry. */
    lemma ReferentIsThere(loc: nat)
      requires Represents(table, hash, reg) && loc in reg
      ensures exists e :: e in table && e.referent == reg[loc].0
    {
      hide EntryOk;
      assert Covered(table, reg, loc);
    }

    /** Registers a location with its new referent (0 for none), after taking it off the list of the old one. */
    method Register(referent: nat, loc: nat, block: nat)
      requires Valid() && loc in mem && loc != 0 && (block == 0 || block in next)
      modifies this`table, this`numWeakRefs, this`mem, this`reg
      ensures Valid() && mem == old(mem)[loc := referent] && Drift() == old(Drift())
      ensures reg == if referent == 0 then old(reg) - {loc} else old(reg)[loc := (referent, block)]
    {
      ghost var r := reg;
      hide Searchable, Represents, Bounded, Without, Written;
      WrittenGone(loc);
      if mem[loc] != 0 {
        UnregisterNoLock(mem[loc], loc);
      }
      if referent != 0 {
        Add(referent, loc, block);
      }
      WrittenNow(r, mem, next, referent, loc, block);
      mem := mem[loc := referent];
    }

    lemma WrittenNow(r: Registry, m: map<nat, nat>, n: map<nat, int>, referent: nat, loc: nat, block: nat)
      requires Written(r, m, n) && (block == 0 || block in n)
      ensures Written(if referent == 0 then r - {loc} else r[loc := (referent, block)], m[loc := referent], n)
      ensures (r - {loc})[loc := (referent, block)] == r[loc := (referent, block)]
    {}

    lemma WrittenGone(loc: nat)
      requires Represents(table, hash, reg) && Written(reg, mem, next) && loc in mem
      ensures Without(reg, mem[loc], loc) == reg - {loc}
      ensures mem[loc] == 0 ==> reg == reg - {loc}
    {
      hide Represents;
      if loc in reg {
        RegisteredReferent(loc);
      }
    }

    lemma RegisteredReferent(loc: nat)
      requires Represents(table, hash, reg) && loc in reg
      ensures reg[loc].0 != 0
    {
      hide EntryOk, Covered;
    }

    method Add(referent: nat, loc: nat, block: nat)
      requires Searchable(table, hash) && Represents(table, hash, reg) && Bounded() && referent != 0 && loc != 0
      requires loc !in reg
      modifies this`table, this`numWeakRefs, this`reg
      ensures Searchable(table, hash) && Represents(table, hash, reg) && Bounded() && Drift() == old(Drift())
      ensures reg == old(reg)[loc := (referent, block)]
    {
      hide Searchable, Represents, Bounded;
      var i := EntryFor(referent);
      if i != -1 {
        AddReferrer(i, loc, block);
      } else {
        AddEntry(referent, loc, block);
      }
    }

    method AddReferrer(i: int, loc: nat, block: nat)
      requires Searchable(table, hash) && Represents(table, hash, reg) && Bounded() && 0 <= i < |table|
      requires table[i].referent != 0
      requires loc != 0 && loc !in reg
      modifies this`table, this`reg
      ensures Searchable(table, hash) && Represents(table, hash, reg) && Bounded() && Drift() == old(Drift())
      ensures reg == old(reg)[loc := (old(table)[i].referent, block)]
    {
      hide Searchable, Represents, Ok, Has, Bounded, Filled;
      ghost var t := table;
      ListIs(i, loc);
      var l := Append(table[i].referrers, hash, loc, block);
      ReferrerAdded(t, hash, i, reg, loc, block, l);
      table := table[i := Entry(table[i].referent, l)];
      reg := reg[loc := (t[i].referent, block)];
      assert Referents(table) == Referents(t);
      BoundedAgain(t);
    }

    method AddEntry(referent: nat, loc: nat, block: nat)
      requires Searchable(table, hash) && Represents(table, hash, reg) && Bounded() && referent != 0 && loc != 0
      requires loc !in reg
      requires forall e | e in table :: e.referent != referent
      modifies this`table, this`numWeakRefs, this`reg
      ensures Searchable(table, hash) && Represents(table, hash, reg) && Bounded() && Drift() == old(Drift())
      ensures reg == old(reg)[loc := (referent, block)]
    {
      hide Searchable, Represents, Ok, Has, Filled, PathFull, Home;
      ghost var t := table;
      NoneYet(hash, loc);
      var l := Append(EMPTY, hash, loc, block);
      GrowMaybe();
      numWeakRefs := numWeakRefs + 1;
      ghost var t1 := table;
      CopyEntry(Entry(referent, l), |Filled(Referents(t1))|);
      EntryAdded(t, table, hash, reg, loc, block, Entry(referent, l));
      reg := reg[loc := (referent, block)];
    }

    lemma NoneYet(hash: nat -> nat, loc: nat)
      ensures Ok(EMPTY, hash) && !Has(EMPTY, loc)
    {
      assert Filled(Locs([])) == {};
    }

    /** Unregisters a location, whatever it is registered with; nothing happens if it is not registered with the
        referent. */
    method Unregister(referent: nat, loc: nat)
      requires Valid() && referent != 0 && loc != 0
      modifies this`table, this`numWeakRefs, this`reg
      ensures Valid() && reg == Without(old(reg), referent, loc) && Drift() == old(Drift())
    {
      UnregisterNoLock(referent, loc);
    }

    // ----- clearing -----

    /** One of the first k locations of a list. */
    ghost predicate Among(refs: seq<Ref>, k: int, loc: nat)
      requires 0 <= k <= |refs|
    {
      loc != 0 && exists j :: 0 <= j < k && refs[j].loc == loc
    }

    /** A callback block that comes with one of the first k locations and has a function. */
    ghost predicate Called(refs: seq<Ref>, k: int, b: nat)
      requires 0 <= k <= |refs|
    {
      b != 0 && b in callable && exists j :: 0 <= j < k && refs[j].loc != 0 && refs[j].block == b
    }

    lemma AmongNext(refs: seq<Ref>, k: int, loc: nat)
      requires 0 <= k < |refs|
      ensures Among(refs, k + 1, loc) <==> Among(refs, k, loc) || (loc != 0 && refs[k].loc == loc)
    {}

    lemma CalledNext(refs: seq<Ref>, k: int, b: nat)
      requires 0 <= k < |refs|
      ensures Called(refs, k + 1, b) <==>
              Called(refs, k, b) || (b != 0 && b in callable && refs[k].loc != 0 && refs[k].block == b)
    {}

    /** Zeroes the locations that hold the referent and chains their callback blocks. */
    method ZeroReferrers(referent: nat, refs: seq<Ref>, head: int, ghost chain: seq<nat>)
      returns (newHead: int, ghost newChain: seq<nat>)
      requires Chained(next, head, chain) && referent != 0
      requires forall x | x in refs && x.loc != 0 ::
                 x.loc in mem && mem[x.loc] == referent && (x.block == 0 || x.block in next)
      requires forall i, j | 0 <= i < j < |refs| && refs[i].loc != 0 :: refs[i].loc != refs[j].loc
      modifies this`mem, this`next
      ensures mem.Keys == old(mem).Keys && next.Keys == old(next).Keys && Chained(next, newHead, newChain)
      ensures forall loc | loc in mem :: mem[loc] == if Among(refs, |refs|, loc) then 0 else old(mem)[loc]
      ensures forall b :: b in newChain <==> b in chain || Called(refs, |refs|, b)
    {
      newHead, newChain := head, chain;
      var k := 0;
      while k < |refs|
        invariant 0 <= k <= |refs| && mem.Keys == old(mem).Keys && next.Keys == old(next).Keys
        invariant Chained(next, newHead, newChain)
        invariant forall loc | loc in mem :: mem[loc] == if Among(refs, k, loc) then 0 else old(mem)[loc]
        invariant forall b :: b in newChain <==> b in chain || Called(refs, k, b)
      {
        hide Among, Called, Chained;
        NotAmong(refs, k);
        forall loc {
          AmongNext(refs, k, loc);
        }
        forall b {
          CalledNext(refs, k, b);
        }
        newHead, newChain := ZeroOne(referent, refs[k], newHead, newChain);
        k := k + 1;
      }
    }

    /** No location is listed twice. */
    lemma NotAmong(refs: seq<Ref>, k: int)
      requires 0 <= k < |refs| && forall i, j | 0 <= i < j < |refs| && refs[i].loc != 0 :: refs[i].loc != refs[j].loc
      ensures !Among(refs, k, refs[k].loc)
    {}

    /** Zeroes one location and links its callback block, if it has one that is not linked yet. */
    method ZeroOne(referent: nat, ref: Ref, head: int, ghost chain: seq<nat>)
      returns (newHead: int, ghost newChain: seq<nat>)
      requires Chained(next, head, chain) && referent != 0
      requires ref.loc != 0 ==> ref.loc in mem && mem[ref.loc] == referent && (ref.block == 0 || ref.block in next)
      modifies this`mem, this`next
      ensures mem == if ref.loc != 0 then old(mem)[ref.loc := 0] else old(mem)
      ensures next.Keys == old(next).Keys && Chained(next, newHead, newChain)
      ensures forall b :: b in newChain <==>
                b in chain || (b != 0 && b in callable && ref.loc != 0 && ref.block == b)
    {
      newHead, newChain := head, chain;
      if ref.loc != 0 && mem[ref.loc] == referent {
        mem := mem[ref.loc := 0];
        if ref.block != 0 && ref.block in callable && next[ref.block] == 0 {
          LinkFront(next, newHead, newChain, ref.block);
          next := next[ref.block := newHead];
          newHead, newChain := ref.block, [ref.block] + newChain;
        }
      }
    }

    /** Clears the locations of an entry and removes it. The count of weak references stays as it is. */
    method ClearEntry(i: int, head: int, ghost chain: seq<nat>) returns (newHead: int, ghost newChain: seq<nat>)
      requires Valid() && 0 <= i < |table| && table[i].referent != 0 && Chained(next, head, chain)
      modifies this`table, this`mem, this`next, this`reg
      ensures Valid() && next.Keys == old(next).Keys && Chained(next, newHead, newChain)
      ensures Drift() == old(Drift()) + 1
      ensures reg == Cleared(old(reg), [old(table)[i].referent])
      ensures Zeroed(old(mem), mem, old(reg), [old(table)[i].referent])
      ensures forall b ::
                b in newChain <==> b in chain || (Attached(old(reg), [old(table)[i].referent], b) && b in callable)
    {
      hide Findable, Distinct, Represents, Written, Zeroed, Attached, Cleared, Chained, Ok, EntryOk, Among, Called;
      ghost var t := table;
      var referent, refs := table[i].referent, table[i].referrers.refs;
      ListFacts(i);
      newHead, newChain := ZeroReferrers(referent, refs, head, chain);
      ZeroedIs(t, i, old(mem), mem, reg, refs);
      AttachedIs(t, i, reg, refs);
      Smaller();
      RemoveEntry(i);
      EntryCleared(t, table, hash, reg, referent);
      WrittenCleared(reg, old(mem), mem, old(next), next, referent);
      reg := Cleared(reg, [referent]);
    }

    /** What the list of an entry tells about memory. */
    lemma ListFacts(i: int)
      requires Represents(table, hash, reg) && Written(reg, mem, next) && 0 <= i < |table| && table[i].referent != 0
      ensures Ok(table[i].referrers, hash)
      ensures forall x | x in table[i].referrers.refs && x.loc != 0 ::
                x.loc in mem && mem[x.loc] == table[i].referent && (x.block == 0 || x.block in next)
      ensures
        var refs := table[i].referrers.refs;
        forall i, j | 0 <= i < j < |refs| && refs[i].loc != 0 :: refs[i].loc != refs[j].loc
    {
      assert table[i] in table && EntryOk(table[i], hash, reg);
    }

    lemma AmongIs(t: seq<Entry>, i: int, r: Registry, loc: nat)
      requires Distinct(t) && Represents(t, hash, r) && 0 <= i < |t| && t[i].referent != 0
      ensures Among(t[i].referrers.refs, |t[i].referrers.refs|, loc) <==> loc in r && r[loc].0 == t[i].referent
    {
      var refs := t[i].referrers.refs;
      assert t[i] in t && EntryOk(t[i], hash, r);
      if Among(refs, |refs|, loc) {
        var j :| 0 <= j < |refs| && refs[j].loc == loc;
        assert refs[j] in refs;
      }
      if loc in r && r[loc].0 == t[i].referent {
        CoveredByList(t, hash, i, r, loc);
      }
    }

    lemma ZeroedIs(t: seq<Entry>, i: int, mem0: map<nat, nat>, mem1: map<nat, nat>, r: Registry, refs: seq<Ref>)
      requires Distinct(t) && Represents(t, hash, r) && 0 <= i < |t| && t[i].referent != 0
      requires refs == t[i].referrers.refs
      requires mem1.Keys == mem0.Keys
      requires forall loc | loc in mem0 :: mem1[loc] == if Among(refs, |refs|, loc) then 0 else mem0[loc]
      ensures Zeroed(mem0, mem1, r, [t[i].referent])
    {
      forall loc | loc in mem0 ensures mem1[loc] == if loc in r && r[loc].0 in [t[i].referent] then 0 else mem0[loc] {
        AmongIs(t, i, r, loc);
      }
    }

    lemma AttachedIs(t: seq<Entry>, i: int, r: Registry, refs: seq<Ref>)
      requires Distinct(t) && Represents(t, hash, r) && 0 <= i < |t| && t[i].referent != 0
      requires refs == t[i].referrers.refs
      ensures forall b :: Called(refs, |refs|, b) <==> Attached(r, [t[i].referent], b) && b in callable
    {
      forall b ensures Called(refs, |refs|, b) <==> Attached(r, [t[i].referent], b) && b in callable {
        CalledIsAttached(t, i, r, refs, b);
        AttachedIsCalled(t, i, r, refs, b);
      }
    }

    lemma CalledIsAttached(t: seq<Entry>, i: int, r: Registry, refs: seq<Ref>, b: nat)
      requires Represents(t, hash, r) && 0 <= i < |t| && t[i].referent != 0 && refs == t[i].referrers.refs
      ensures Called(refs, |refs|, b) ==> Attached(r, [t[i].referent], b) && b in callable
    {
      if Called(refs, |refs|, b) {
        var j :| 0 <= j < |refs| && refs[j].loc != 0 && refs[j].block == b;
        assert t[i] in t && EntryOk(t[i], hash, r) && refs[j] in refs;
        assert refs[j].loc in r && r[refs[j].loc].1 == b;
      }
    }

    lemma AttachedIsCalled(t: seq<Entry>, i: int, r: Registry, refs: seq<Ref>, b: nat)
      requires Distinct(t) && Represents(t, hash, r) && 0 <= i < |t| && t[i].referent != 0
      requires refs == t[i].referrers.refs
      ensures Attached(r, [t[i].referent], b) && b in callable ==> Called(refs, |refs|, b)
    {
      hide Distinct, Represents;
      if Attached(r, [t[i].referent], b) && b in callable {
        var loc :| loc in r && r[loc].0 in [t[i].referent] && r[loc].1 == b;
        CoveredByList(t, hash, i, r, loc);
        var j :| 0 <= j < |refs| && refs[j] == Ref(loc, b);
      }
    }

    lemma WrittenCleared(r: Registry, m0: map<nat, nat>, m1: map<nat, nat>, n0: map<nat, int>, n1: map<nat, int>,
            referent: nat)
      requires Written(r, m0, n0) && Zeroed(m0, m1, r, [referent]) && n0.Keys == n1.Keys
      ensures Written(Cleared(r, [referent]), m1, n1)
    {
      assert forall b :: b in n0 <==> b in n0.Keys;
      assert forall b :: b in n1 <==> b in n1.Keys;
    }

    method ClearOne(referent: nat, head: int, ghost chain: seq<nat>) returns (newHead: int, ghost newChain: seq<nat>)
      requires Valid() && referent != 0 && Chained(next, head, chain)
      modifies this`table, this`mem, this`next, this`reg
      ensures Valid() && next.Keys == old(next).Keys && Chained(next, newHead, newChain)
      ensures Drift() == old(Drift()) + |Referred(old(reg), [referent])|
      ensures reg == Cleared(old(reg), [referent]) && Zeroed(old(mem), mem, old(reg), [referent])
      ensures forall b :: b in newChain <==> b in chain || (Attached(old(reg), [referent], b) && b in callable)
    {
      hide Searchable, Represents, Written, Zeroed, Attached, Cleared, Chained, Bounded;
      newHead, newChain := head, chain;
      var i := EntryFor(referent);
      if i != -1 {
        EntryIsReferred(i);
        newHead, newChain := ClearEntry(i, head, chain);
      } else {
        NotRegistered(referent, 0);
        NothingCleared(reg, referent, mem);
        NothingReferred(reg, referent);
      }
    }

    /** The referent of an entry has a registered location. */
    lemma EntryIsReferred(i: int)
      requires Represents(table, hash, reg) && 0 <= i < |table| && table[i].referent != 0
      ensures |Referred(reg, [table[i].referent])| == 1
    {
      var e := table[i];
      assert e in table && EntryOk(e, hash, reg);
      hide Covered;
      var x := SomeReferrer(e, hash, reg);
      OneReferred(reg, e.referent, x.loc);
    }

    /** Zeroes every location that weakly refers to garbage, and chains the callback blocks registered
        with those locations. Head 0 stands for no table. */
    method ClearReferences(garbage: seq<nat>) returns (head: int, ghost chain: seq<nat>)
      requires Valid() && Chained(next, END, []) && forall g | g in garbage :: g != 0
      modifies this`table, this`mem, this`next, this`reg
      ensures Valid() && next.Keys == old(next).Keys && Chained(next, if head == 0 then END else head, chain)
      ensures Drift() == old(Drift()) + |Referred(old(reg), garbage)|
      ensures Drift() == old(Drift()) <==> forall loc | loc in old(reg) :: old(reg)[loc].0 !in garbage
      ensures reg == Cleared(old(reg), garbage) && Zeroed(old(mem), mem, old(reg), garbage)
      ensures forall b :: b in chain <==> Attached(old(reg), garbage, b) && b in callable
    {
      hide Searchable, Represents, Written, Zeroed, Attached, Cleared, Chained, Bounded, Drift,
        Referred;
      ReferredIff(reg, garbage);
      if numWeakRefs == 0 {
        NoneRegistered(garbage);
        return 0, [];
      }
      head, chain := END, [];
      NothingToClear(reg, mem);
      ReferredByNone(reg);
      var i := 0;
      while i < |garbage|
        invariant 0 <= i <= |garbage| && Valid() && next.Keys == old(next).Keys && Chained(next, head, chain)
        invariant Drift() == old(Drift()) + |Referred(old(reg), garbage[..i])|
        invariant reg == Cleared(old(reg), garbage[..i]) && Zeroed(old(mem), mem, old(reg), garbage[..i])
        invariant forall b :: b in chain <==> Attached(old(reg), garbage[..i], b) && b in callable
      {
        ghost var mem1, g := mem, garbage[..i];
        assert garbage[i] in garbage;
        head, chain := ClearOne(garbage[i], head, chain);
        assert garbage[..i + 1] == g + [garbage[i]];
        ClearedTwice(old(reg), g, garbage[i]);
        ReferredTwice(old(reg), g, garbage[i]);
        ZeroedTwice(old(mem), mem1, mem, old(reg), g, garbage[i]);
        AttachedTwice(old(reg), g, garbage[i]);
        i := i + 1;
      }
      assert garbage[..i] == garbage;
      HeadNotZero(head, chain);
    }

    lemma NoneRegistered(garbage: seq<nat>)
      requires Represents(table, hash, reg) && Bounded() && numWeakRefs == 0
      ensures reg == map[] && Cleared(reg, garbage) == reg && Zeroed(mem, mem, reg, garbage)
      ensures Referred(reg, garbage) == {} && forall b :: !Attached(reg, garbage, b)
    {
      hide Represents, Filled, Cleared, Zeroed, Attached;
      if loc :| loc in reg {
        FilledBy(loc);
        assert false;
      }
      NothingRegistered(garbage);
    }

    lemma FilledBy(loc: nat)
      requires Represents(table, hash, reg) && loc in reg
      ensures |Filled(Referents(table))| > 0
    {
      RegisteredReferent(loc);
      assert Covered(table, reg, loc);
      hide Represents, Written;
      var e :| e in table && e.referent == reg[loc].0;
      var k :| 0 <= k < |table| && table[k] == e;
      FilledAt(Referents(table), k);
    }

    lemma FilledAt(keys: seq<nat>, k: int)
      requires 0 <= k < |keys| && keys[k] != 0
      ensures |Filled(keys)| > 0
    {
      assert k in Filled(keys);
    }

    lemma NothingRegistered(garbage: seq<nat>)
      requires reg == map[]
      ensures Cleared(reg, garbage) == reg && Zeroed(mem, mem, reg, garbage)
      ensures Referred(reg, garbage) == {} && forall b :: !Attached(reg, garbage, b)
    {}

    lemma HeadNotZero(head: int, chain: seq<nat>)
      requires Chained(next, head, chain)
      ensures head != 0
    {
      assert chain != [] ==> Link(next, chain, 0);
    }

    /** Calls the functions of the chained blocks, in order, and unlinks the blocks. */
    method CallCallbacks(head: int, ghost chain: seq<nat>) returns (called: seq<nat>)
      requires Chained(next, if head == 0 then END else head, chain) && forall b | b in chain :: b in callable
      modifies this`next
      ensures called == chain && next.Keys == old(next).Keys && Chained(next, END, [])
    {
      called := [];
      if head == 0 {
        return;
      }
      var block := head;
      while block != END
        invariant called <= chain && next.Keys == old(next).Keys && Chained(next, block, chain[|called|..])
        decreases |chain| - |called|
      {
        ghost var rest := chain[|called|..];
        assert rest != [] && Link(next, rest, 0);
        var following := next[block];
        Unlink(next, block, rest);
        next := next[block := 0];
        if block in callable {
          called := called + [block];
        }
        assert chain[|called|..] == rest[1..];
        block := following;
      }
    }

    lemma Unlink(n: map<nat, int>, head: int, chain: seq<nat>)
      requires Chained(n, head, chain) && chain != []
      ensures chain[0] in n && head == chain[0] && Chained(n[chain[0] := 0], n[chain[0]], chain[1..])
    {
      var after, rest := n[chain[0] := 0], chain[1..];
      assert Link(n, chain, 0);
      forall k | 0 <= k < |rest| ensures Link(after, rest, k) {
        assert Link(n, chain, k + 1);
      }
    }

    /** What a collection does with weak references: afterwards no registered location holds a garbage
        block, the locations that did are zero, every other location is as it was, and each callback
        block that came with one of them has been called exactly once and can be chained again. The count
        of weak references gains one over the entries for each garbage block that was referred to; it keeps
        its distance exactly when there was none. */
    method CollectWeak(garbage: seq<nat>) returns (called: seq<nat>)
      requires Valid() && Chained(next, END, []) && forall g | g in garbage :: g != 0
      modifies this`table, this`mem, this`next, this`reg
      ensures Valid() && Chained(next, END, []) && Zeroed(old(mem), mem, old(reg), garbage)
      ensures reg == Cleared(old(reg), garbage) && Drift() == old(Drift()) + |Referred(old(reg), garbage)|
      ensures Drift() == old(Drift()) <==> forall loc | loc in old(reg) :: old(reg)[loc].0 !in garbage
      ensures forall loc | loc in reg :: loc in mem && mem[loc] !in garbage
      ensures forall b :: b in called <==> Attached(old(reg), garbage, b) && b in callable
      ensures forall j, k | 0 <= j < k < |called| :: called[j] != called[k]
    {
      hide Searchable, Represents, Written, Cleared, Zeroed, Attached, Chained, Bounded, Drift, Referred;
      ghost var r := reg;
      var head, chain := ClearReferences(garbage);
      HoldNoGarbage(r, garbage);
      CalledOnce(if head == 0 then END else head, chain);
      ghost var links := next;
      called := CallCallbacks(head, chain);
      WrittenStill(links);
    }

    lemma WrittenStill(links: map<nat, int>)
      requires Written(reg, mem, links) && links.Keys == next.Keys
      ensures Written(reg, mem, next)
    {
      assert forall b :: b in links <==> b in links.Keys;
      assert forall b :: b in next <==> b in next.Keys;
    }

    lemma HoldNoGarbage(r: Registry, garbage: seq<nat>)
      requires reg == Cleared(r, garbage) && Written(reg, mem, next)
      ensures forall loc | loc in reg :: loc in mem && mem[loc] !in garbage
    {}

    lemma CalledOnce(head: int, chain: seq<nat>)
      requires Chained(next, head, chain)
      ensures forall j, k | 0 <= j < k < |chain| :: chain[j] != chain[k]
    {}
  }

  /** A table without registrations has no entries. */
  lemma NoEntries(t: seq<Entry>, hash: nat -> nat, reg: Registry)
    requires Represents(t, hash, reg)
    ensures reg == map[] ==> |Filled(Referents(t))| == 0
  {
    if i :| 0 <= i < |t| && t[i].referent != 0 {
      var e := t[i];
      assert e in t;
      var x := SomeReferrer(e, hash, reg);
    } else {
      assert Filled(Referents(t)) == {};
    }
  }

  /** One location is registered and its referent is collected: the table has no entry left, and still
      counts one weak reference. */
  method CountOutlivesEntries(hash: nat -> nat, referent: nat, loc: nat) returns (t: Table)
    requires referent != 0 && loc != 0
    ensures fresh(t) && t.Valid() && t.reg == map[] && t.numWeakRefs == 1 && |Filled(Referents(t.table))| == 0
  {
    t := new Table(hash, {}, map[loc := 0], {});
    t.Register(referent, loc, 0);
    OneReferred(t.reg, referent, loc);
    var called := t.CollectWeak([referent]);
    assert t.reg == map[];
    NoEntries(t.table, hash, t.reg);
  }
}
