/**
 A list of ranges with a hash index. The index is a closed hash table in which the entries of one
 hash value form a group: a run of at most MAXIMUM_DEPTH slots from the slot they hash to.
 */
module HashLists {
  import opened Probing

  const INITIAL_SIZE := 256
  const MAXIMUM_DEPTH := 8
  const NONE := -1

  datatype Range = Range(address: nat, size: nat)

  /** The slots before i, from the home of the key at i on, hold keys of the same home. */
  ghost predicate InGroup(keys: seq<nat>, hash: nat -> nat, i: int)
    requires 0 <= i < |keys|
  {
    keys[i] != 0 ==>
      var m := |keys|;
      var h := Home(hash, keys[i], m);
      && Dist(h, i, m) < MAXIMUM_DEPTH
      && forall j | 0 <= j < m && Dist(h, j, m) < Dist(h, i, m) :: keys[j] != 0 && Home(hash, keys[j], m) == h
  }

  ghost predicate Grouped(keys: seq<nat>, hash: nat -> nat) {
    && (forall i {:trigger InGroup(keys, hash, i)} | 0 <= i < |keys| :: InGroup(keys, hash, i))
    && (forall i, j | 0 <= i < j < |keys| && keys[i] != 0 :: keys[i] != keys[j])
  }

  /** Slot i is where the search for key ends: it is empty or holds the key. */
  ghost predicate SlotFor(keys: seq<nat>, hash: nat -> nat, key: nat, i: int) {
    && 0 <= i < |keys| && (keys[i] == 0 || keys[i] == key)
    && var h := Home(hash, key, |keys|);
       && Dist(h, i, |keys|) < MAXIMUM_DEPTH
       && forall j | 0 <= j < |keys| && Dist(h, j, |keys|) < Dist(h, i, |keys|) ::
            keys[j] != 0 && keys[j] != key && Home(hash, keys[j], |keys|) == h
  }

  /** A key is present exactly when the slot for it holds it. */
  lemma SlotTells(keys: seq<nat>, hash: nat -> nat, key: nat, i: int)
    requires Grouped(keys, hash) && key != 0 && SlotFor(keys, hash, key, i)
    ensures key in keys <==> keys[i] == key
  {
    if key in keys {
      var k :| 0 <= k < |keys| && keys[k] == key;
      assert InGroup(keys, hash, k);
      var h := Home(hash, key, |keys|);
      if Dist(h, k, |keys|) == Dist(h, i, |keys|) {
        SameDist(h, k, i, |keys|);
      }
    }
  }

  lemma PutKeepsGrouped(keys: seq<nat>, hash: nat -> nat, key: nat, i: int)
    requires Grouped(keys, hash) && key != 0 && SlotFor(keys, hash, key, i)
    ensures Grouped(keys[i := key], hash)
  {
    var after := keys[i := key];
    SlotTells(keys, hash, key, i);
    if keys[i] == key {
      assert after == keys;
    } else {
      forall k | 0 <= k < |after| ensures InGroup(after, hash, k) {
        assert InGroup(keys, hash, k);
      }
    }
  }

  /** No slot is left for a key: the search ends at another group or after MAXIMUM_DEPTH slots. */
  ghost predicate NoSlot(keys: seq<nat>, hash: nat -> nat, key: nat) {
    && |keys| > 0
    && var h := Home(hash, key, |keys|);
       exists d :: Blocked(keys, hash, key, h, d)
  }

  ghost predicate Blocked(keys: seq<nat>, hash: nat -> nat, key: nat, h: int, d: int) {
    && |keys| > 0 && 0 <= d <= MAXIMUM_DEPTH
    && (forall j | 0 <= j < |keys| && Dist(h, j, |keys|) < d ::
          keys[j] != 0 && keys[j] != key && Home(hash, keys[j], |keys|) == h)
    && (d < MAXIMUM_DEPTH ==>
          exists j :: 0 <= j < |keys| && Dist(h, j, |keys|) == d && keys[j] != 0 && Home(hash, keys[j], |keys|) != h)
  }

  lemma NoSlotIsAbsent(keys: seq<nat>, hash: nat -> nat, key: nat)
    requires Grouped(keys, hash) && key != 0 && NoSlot(keys, hash, key)
    ensures key !in keys
  {
    var h := Home(hash, key, |keys|);
    var d :| Blocked(keys, hash, key, h, d);
    var j := if d < MAXIMUM_DEPTH then Blocker(keys, hash, key, h, d) else 0;
    forall k | 0 <= k < |keys| ensures keys[k] != key {
      BlockedNotAt(keys, hash, key, h, d, j, k);
    }
  }

  ghost function Blocker(keys: seq<nat>, hash: nat -> nat, key: nat, h: int, d: int): (j: int)
    requires Blocked(keys, hash, key, h, d) && d < MAXIMUM_DEPTH
    ensures 0 <= j < |keys| && Dist(h, j, |keys|) == d && keys[j] != 0 && Home(hash, keys[j], |keys|) != h
  {
    var j :| 0 <= j < |keys| && Dist(h, j, |keys|) == d && keys[j] != 0 && Home(hash, keys[j], |keys|) != h; j
  }

  lemma BlockedNotAt(keys: seq<nat>, hash: nat -> nat, key: nat, h: int, d: int, j: int, k: int)
    requires Grouped(keys, hash) && key != 0 && 0 <= k < |keys| && Blocked(keys, hash, key, h, d)
    requires h == Home(hash, key, |keys|)
    requires d < MAXIMUM_DEPTH ==> 0 <= j < |keys| && Dist(h, j, |keys|) == d && Home(hash, keys[j], |keys|) != h
    ensures keys[k] != key
  {
    assert InGroup(keys, hash, k);
  }

  // ----- deletion -----

  /** Slot i during the deletion of the member at distance from of the group of home h: the members behind it,
      up to distance to, have moved one slot towards h. */
  ghost function Source(m: int, h: int, from: int, to: int, i: int): (k: int)
    requires 0 <= i < m
  {
    if from <= Dist(h, i, m) < to then Next(i, m) else i
  }

  ghost predicate ShiftedAt<T>(before: seq<T>, after: seq<T>, h: int, from: int, to: int, i: int)
    requires 0 <= i < |before| && |after| == |before|
  {
    0 <= Source(|before|, h, from, to, i) < |before| && after[i] == before[Source(|before|, h, from, to, i)]
  }

  ghost predicate Shifted<T>(before: seq<T>, after: seq<T>, h: int, from: int, to: int) {
    && |after| == |before|
    && forall i {:trigger ShiftedAt(before, after, h, from, to, i)} | 0 <= i < |before| ::
         ShiftedAt(before, after, h, from, to, i)
  }

  /** The first members of the group, up to distance to. */
  ghost predicate Members(keys: seq<nat>, hash: nat -> nat, h: int, to: int) {
    && |keys| > 0
    && forall i | 0 <= i < |keys| && Dist(h, i, |keys|) <= to :: keys[i] != 0 && Home(hash, keys[i], |keys|) == h
  }

  lemma ShiftOne<T>(before: seq<T>, after: seq<T>, h: int, from: int, slot: int)
    requires Shifted(before, after, h, from, Dist(h, slot, |before|)) && 0 <= h < |before| && 0 <= slot < |before|
    requires from <= Dist(h, slot, |before|) && Next(slot, |before|) != h
    ensures 0 <= Next(slot, |before|) < |before| && after[Next(slot, |before|)] == before[Next(slot, |before|)]
    ensures Shifted(before, after[slot := before[Next(slot, |before|)]], h, from, Dist(h, slot, |before|) + 1)
  {
    var m := |before|;
    NextDist(h, slot, m);
    var d, next := Dist(h, slot, m), after[slot := before[Next(slot, m)]];
    assert ShiftedAt(before, after, h, from, d, Next(slot, m));
    var to := d + 1;
    forall i | 0 <= i < m ensures ShiftedAt(before, next, h, from, to, i) {
      assert ShiftedAt(before, after, h, from, d, i);
      if Dist(h, i, m) == d {
        SameDist(h, i, slot, m);
      }
    }
  }

  lemma GroupedFacts(keys: seq<nat>, hash: nat -> nat)
    requires Grouped(keys, hash)
    ensures forall i, j | 0 <= i < j < |keys| && keys[i] != 0 :: keys[i] != keys[j]
  {}

  lemma IsGrouped(keys: seq<nat>, hash: nat -> nat)
    requires forall i {:trigger InGroup(keys, hash, i)} | 0 <= i < |keys| :: InGroup(keys, hash, i)
    requires forall i, j | 0 <= i < j < |keys| && keys[i] != 0 :: keys[i] != keys[j]
    ensures Grouped(keys, hash)
  {}

  /** The deletion is complete when the slot behind the hole is empty or belongs to another group. */
  lemma ClosesGroup(before: seq<nat>, after: seq<nat>, hash: nat -> nat, h: int, s: int, slot: int)
    requires Grouped(before, hash) && Shifted(before, after, h, Dist(h, s, |before|), Dist(h, slot, |before|))
    requires 0 <= s < |before| && 0 <= slot < |before| && 0 <= h < |before|
    requires Dist(h, s, |before|) <= Dist(h, slot, |before|) < MAXIMUM_DEPTH
    requires Members(before, hash, h, Dist(h, slot, |before|)) && Next(slot, |before|) != h
    requires 0 <= Next(slot, |before|) < |before|
    requires before[Next(slot, |before|)] == 0 || Home(hash, before[Next(slot, |before|)], |before|) != h
    ensures Grouped(after[slot := 0], hash)
    ensures forall k: nat | k != 0 :: k in after[slot := 0] <==> k in before && k != before[s]
    ensures before[s] !in after[slot := 0] && SlotFor(after[slot := 0], hash, before[s], slot)
  {
    hide Grouped, InGroup;
    GroupedFacts(before, hash);
    var m, f := |before|, after[slot := 0];
    var from, to := Dist(h, s, m), Dist(h, slot, m);
    NextDist(h, slot, m);
    forall i | 0 <= i < m ensures InGroup(f, hash, i) {
      GroupAfter(before, after, hash, h, from, slot, i);
    }
    forall i, j | 0 <= i < j < m && f[i] != 0 ensures f[i] != f[j] {
      SourcesDiffer(m, h, from, to, i, j, slot);
      assert ShiftedAt(before, after, h, from, to, i) && ShiftedAt(before, after, h, from, to, j);
    }
    IsGrouped(f, hash);
    forall k: nat | k != 0 ensures k in f <==> k in before && k != before[s] {
      KeysAfter(before, after, h, s, slot, k);
    }
    forall j | 0 <= j < m && Dist(h, j, m) < to ensures f[j] != 0 && f[j] != before[s] && Home(hash, f[j], m) == h {
      NextDist(h, j, m);
      var k := Source(m, h, from, to, j);
      assert ShiftedAt(before, after, h, from, to, j) && k != s;
    }
  }

  lemma SourcesDiffer(m: int, h: int, from: int, to: int, i: int, j: int, slot: int)
    requires 0 <= i < m && 0 <= j < m && 0 <= h < m && 0 <= slot < m && i != j && i != slot && to == Dist(h, slot, m)
    requires to < m - 1
    ensures j != slot ==> Source(m, h, from, to, i) != Source(m, h, from, to, j)
  {
    NextDist(h, i, m);
    NextDist(h, j, m);
    if j != slot && Source(m, h, from, to, i) == Source(m, h, from, to, j) {
      if Dist(h, i, m) == Dist(h, j, m) {
        SameDist(h, i, j, m);
      }
      if Dist(h, i, m) == to {
        SameDist(h, i, slot, m);
      }
      if Dist(h, j, m) == to {
        SameDist(h, j, slot, m);
      }
    }
  }

  lemma GroupAfter(before: seq<nat>, after: seq<nat>, hash: nat -> nat, h: int, from: int, slot: int, i: int)
    requires Grouped(before, hash) && 0 <= slot < |before| && 0 <= h < |before| && 0 <= i < |before| && 0 <= from
    requires Shifted(before, after, h, from, Dist(h, slot, |before|)) && Dist(h, slot, |before|) < MAXIMUM_DEPTH
    requires Members(before, hash, h, Dist(h, slot, |before|)) && Next(slot, |before|) != h
    requires 0 <= Next(slot, |before|) < |before|
    requires before[Next(slot, |before|)] == 0 || Home(hash, before[Next(slot, |before|)], |before|) != h
    ensures InGroup(after[slot := 0], hash, i)
  {
    var m, f, to := |before|, after[slot := 0], Dist(h, slot, |before|);
    NextDist(h, slot, m);
    if i != slot && f[i] != 0 {
      if Home(hash, f[i], m) == h {
        MemberAfter(before, after, hash, h, from, slot, i);
      } else {
        OtherAfter(before, after, hash, h, from, slot, i);
      }
    }
  }

  lemma MemberAfter(before: seq<nat>, after: seq<nat>, hash: nat -> nat, h: int, from: int, slot: int, i: int)
    requires Grouped(before, hash) && 0 <= slot < |before| && 0 <= h < |before| && 0 <= i < |before| && 0 <= from
    requires i != slot
    requires Shifted(before, after, h, from, Dist(h, slot, |before|)) && Dist(h, slot, |before|) < MAXIMUM_DEPTH
    requires Members(before, hash, h, Dist(h, slot, |before|)) && Next(slot, |before|) != h
    requires 0 <= Next(slot, |before|) < |before|
    requires before[Next(slot, |before|)] == 0 || Home(hash, before[Next(slot, |before|)], |before|) != h
    requires after[i] != 0 && Home(hash, after[i], |before|) == h
    ensures InGroup(after[slot := 0], hash, i)
  {
    var m, f, to := |before|, after[slot := 0], Dist(h, slot, |before|);
    NextDist(h, slot, m);
    NextDist(h, i, m);
    assert ShiftedAt(before, after, h, from, to, i);
    InRun(before, hash, h, slot, Source(m, h, from, to, i));
    hide Grouped;
    forall j | 0 <= j < m && Dist(h, j, m) < Dist(h, i, m) ensures f[j] != 0 && Home(hash, f[j], m) == h {
      NextDist(h, j, m);
      assert ShiftedAt(before, after, h, from, to, j);
    }
  }

  lemma OtherAfter(before: seq<nat>, after: seq<nat>, hash: nat -> nat, h: int, from: int, slot: int, i: int)
    requires Grouped(before, hash) && 0 <= slot < |before| && 0 <= h < |before| && 0 <= i < |before| && 0 <= from
    requires i != slot
    requires Shifted(before, after, h, from, Dist(h, slot, |before|)) && Dist(h, slot, |before|) < MAXIMUM_DEPTH
    requires Members(before, hash, h, Dist(h, slot, |before|))
    requires after[i] != 0 && Home(hash, after[i], |before|) != h
    ensures InGroup(after[slot := 0], hash, i)
  {
    var m, f, to := |before|, after[slot := 0], Dist(h, slot, |before|);
    assert ShiftedAt(before, after, h, from, to, i);
    NextDist(h, i, m);
    assert Source(m, h, from, to, i) == i && InGroup(before, hash, i);
    hide Grouped;
    var g := Home(hash, f[i], m);
    forall j | 0 <= j < m && Dist(g, j, m) < Dist(g, i, m) ensures f[j] != 0 && Home(hash, f[j], m) == g {
      assert before[j] != 0 && Home(hash, before[j], m) == g;
      assert ShiftedAt(before, after, h, from, to, j);
    }
  }

  /** Every member of the group is within the run. */
  lemma InRun(keys: seq<nat>, hash: nat -> nat, h: int, slot: int, k: int)
    requires Grouped(keys, hash) && 0 <= slot < |keys| && 0 <= h < |keys| && 0 <= k < |keys| && keys[k] != 0
    requires Home(hash, keys[k], |keys|) == h && Next(slot, |keys|) != h && 0 <= Next(slot, |keys|) < |keys|
    requires keys[Next(slot, |keys|)] == 0 || Home(hash, keys[Next(slot, |keys|)], |keys|) != h
    ensures Dist(h, k, |keys|) <= Dist(h, slot, |keys|)
  {
    var m := |keys|;
    NextDist(h, slot, m);
    assert InGroup(keys, hash, k);
    if Dist(h, k, m) > Dist(h, slot, m) {
      if Dist(h, k, m) == Dist(h, Next(slot, m), m) {
        SameDist(h, k, Next(slot, m), m);
      }
    }
  }

  lemma KeysAfter(before: seq<nat>, after: seq<nat>, h: int, s: int, slot: int, k: nat)
    requires Shifted(before, after, h, Dist(h, s, |before|), Dist(h, slot, |before|)) && k != 0
    requires 0 <= s < |before| && 0 <= slot < |before| && 0 <= h < |before|
    requires Dist(h, s, |before|) <= Dist(h, slot, |before|) < |before| - 1
    requires forall i, j | 0 <= i < j < |before| && before[i] != 0 :: before[i] != before[j]
    ensures k in after[slot := 0] <==> k in before && k != before[s]
  {
    if k in after[slot := 0] {
      KeyWasThere(before, after, h, s, slot, k);
    }
    if k in before && k != before[s] {
      KeyStays(before, after, h, s, slot, k);
    }
  }

  lemma KeyWasThere(before: seq<nat>, after: seq<nat>, h: int, s: int, slot: int, k: nat)
    requires Shifted(before, after, h, Dist(h, s, |before|), Dist(h, slot, |before|)) && |after| == |before| && k != 0
    requires 0 <= s < |before| && 0 <= slot < |before| && 0 <= h < |before|
    requires Dist(h, s, |before|) <= Dist(h, slot, |before|) < |before| - 1
    requires forall i, j | 0 <= i < j < |before| && before[i] != 0 :: before[i] != before[j]
    requires k in after[slot := 0]
    ensures k in before && k != before[s]
  {
    var m, f := |before|, after[slot := 0];
    var from, to := Dist(h, s, m), Dist(h, slot, m);
    var i :| 0 <= i < m && f[i] == k;
    NextDist(h, i, m);
    assert ShiftedAt(before, after, h, from, to, i);
    assert Source(m, h, from, to, i) != s by {
      if Source(m, h, from, to, i) == s && Dist(h, i, m) == from {
        SameDist(h, i, s, m);
      }
    }
  }

  lemma KeyStays(before: seq<nat>, after: seq<nat>, h: int, s: int, slot: int, k: nat)
    requires Shifted(before, after, h, Dist(h, s, |before|), Dist(h, slot, |before|)) && k != 0
    requires 0 <= s < |before| && 0 <= slot < |before| && 0 <= h < |before|
    requires Dist(h, s, |before|) <= Dist(h, slot, |before|) < |before| - 1
    requires k in before && k != before[s]
    ensures k in after[slot := 0]
  {
    var m, f := |before|, after[slot := 0];
    var from, to := Dist(h, s, m), Dist(h, slot, m);
    var i :| 0 <= i < m && before[i] == k;
    var j := if from < Dist(h, i, m) <= to then Previous(i, m) else i;
    PreviousDist(h, i, m);
    if Dist(h, i, m) == to {
      SameDist(h, i, slot, m);
    }
    assert ShiftedAt(before, after, h, from, to, j);
    assert f[j] == k;
  }

  function Previous(i: int, m: int): (j: int) {
    if i == 0 then m - 1 else i - 1
  }

  lemma PreviousDist(h: int, i: int, m: int)
    requires 0 <= h < m && 0 <= i < m
    ensures 0 <= Previous(i, m) < m && Next(Previous(i, m), m) == i
    ensures i != h ==> Dist(h, Previous(i, m), m) == Dist(h, i, m) - 1
    ensures i == h ==> Dist(h, i, m) == 0
  {}

  // ----- the table of pointers -----

  /** The addresses that the slots point to; 0 for an empty slot. A pointer is an index into the entries. */
  ghost function Keys(slots: seq<int>, entries: seq<Range>): (keys: seq<nat>)
    ensures |keys| == |slots|
    ensures forall i | 0 <= i < |slots| :: keys[i] == if 0 <= slots[i] < |entries| then entries[slots[i]].address else 0
  {
    seq(|slots|, i requires 0 <= i < |slots| => if 0 <= slots[i] < |entries| then entries[slots[i]].address else 0)
  }

  /** The entries have addresses, all different. */
  ghost predicate Proper(entries: seq<Range>) {
    && (forall p | 0 <= p < |entries| :: entries[p].address != 0)
    && (forall p, q | 0 <= p < q < |entries| :: entries[p].address != entries[q].address)
  }

  /** The index holds the pointers of the set, and no others. */
  ghost predicate Indexes(slots: seq<int>, entries: seq<Range>, hash: nat -> nat, pointers: set<int>) {
    && (slots == [] || |slots| >= INITIAL_SIZE)
    && (forall i | 0 <= i < |slots| :: slots[i] == NONE || slots[i] in pointers)
    && (forall p | p in pointers :: 0 <= p < |entries| && p in slots)
    && Grouped(Keys(slots, entries), hash)
  }

  lemma EmptyIndexes(slots: seq<int>, entries: seq<Range>, hash: nat -> nat)
    requires slots == [] || |slots| >= INITIAL_SIZE
    requires forall i | 0 <= i < |slots| :: slots[i] == NONE
    ensures Indexes(slots, entries, hash, {})
  {
    var keys := Keys(slots, entries);
    forall i | 0 <= i < |keys| ensures InGroup(keys, hash, i) {}
  }

  /** A pointer put into the slot for its address. */
  lemma PutIndexes(slots: seq<int>, entries: seq<Range>, hash: nat -> nat, pointers: set<int>, p: int, i: int)
    requires Indexes(slots, entries, hash, pointers) && Proper(entries) && 0 <= p < |entries| && p !in pointers
    requires SlotFor(Keys(slots, entries), hash, entries[p].address, i)
    ensures Indexes(slots[i := p], entries, hash, pointers + {p})
  {
    var keys, after := Keys(slots, entries), slots[i := p];
    PutKeepsGrouped(keys, hash, entries[p].address, i);
    assert Keys(after, entries) == keys[i := entries[p].address];
    assert slots[i] == NONE;
    forall q | q in pointers + {p} ensures q in after {
      if q == p {
        assert after[i] == p;
      } else {
        var k :| 0 <= k < |slots| && slots[k] == q;
        assert after[k] == q;
      }
    }
  }

  /** The index does not depend on entries that it does not point to. */
  lemma OtherEntries(slots: seq<int>, before: seq<Range>, after: seq<Range>, hash: nat -> nat, pointers: set<int>)
    requires Indexes(slots, before, hash, pointers)
    requires forall p | p in pointers :: 0 <= p < |after| && after[p] == before[p]
    ensures Indexes(slots, after, hash, pointers)
  {
    assert Keys(slots, after) == Keys(slots, before);
  }

  class HashList {
    const hash: nat -> nat
    const maxSize: nat         // the size to which the index may grow
    const growth: nat
    var slots: seq<int>
    var entries: seq<Range>
    var maximum: nat

    ghost predicate Holds(pointers: set<int>)
      reads this`slots, this`entries
    {
      Indexes(slots, entries, hash, pointers)
    }

    ghost predicate Valid()
      reads this`slots, this`entries
    {
      Proper(entries) && Holds(Up(|entries|))
    }

    static ghost function Up(n: int): (s: set<int>)
      ensures forall i :: i in s <==> 0 <= i < n
      decreases n
    {
      if n <= 0 then {} else Up(n - 1) + {n - 1}
    }

    constructor (hash: nat -> nat, maxSize: nat, growth: nat)
      requires growth > 0
      ensures Valid() && entries == [] && this.hash == hash && this.maxSize == maxSize && this.growth == growth
    {
      this.hash, this.maxSize, this.growth := hash, maxSize, growth;
      slots, entries, maximum := [], [], 0;
      new;
      EmptyIndexes(slots, entries, hash);
    }

    /** The slot where an address is or belongs, or NONE. */
    method FindSlot(address: nat) returns (slot: int)
      requires slots == [] || |slots| >= INITIAL_SIZE
      ensures slot != NONE ==> SlotFor(Keys(slots, entries), hash, address, slot)
      ensures slot == NONE ==> slots == [] || NoSlot(Keys(slots, entries), hash, address)
    {
      if slots == [] {
        return NONE;
      }
      ghost var keys := Keys(slots, entries);
      var m := |slots|;
      var h := Home(hash, address, m);
      slot := h;
      var depth := 0;
      hide Home;
      while depth < MAXIMUM_DEPTH
        invariant 0 <= depth <= MAXIMUM_DEPTH && 0 <= slot < m && depth == Dist(h, slot, m)
        invariant forall j | 0 <= j < m && Dist(h, j, m) < depth ::
                    keys[j] != 0 && keys[j] != address && Home(hash, keys[j], m) == h
      {
        if !(0 <= slots[slot] < |entries|) || entries[slots[slot]].address == 0
           || entries[slots[slot]].address == address {
          assert keys[slot] == 0 || keys[slot] == address;
          return;
        }
        if h != Home(hash, entries[slots[slot]].address, m) {
          assert Blocked(keys, hash, address, h, depth);
          return NONE;
        }
        assert forall j | 0 <= j < m && Dist(h, j, m) <= depth :: j == slot || Dist(h, j, m) < depth;
        NextDist(h, slot, m);
        slot := Next(slot, m);
        depth := depth + 1;
      }
      assert Blocked(keys, hash, address, h, depth);
      return NONE;
    }

    /** Finds the entry of an address by the index. */
    method Find(address: nat) returns (p: int)
      requires Valid() && address != 0
      ensures p == NONE ==> forall q | 0 <= q < |entries| :: entries[q].address != address
      ensures p != NONE ==> 0 <= p < |entries| && entries[p].address == address
    {
      ghost var keys := Keys(slots, entries);
      var slot := FindSlot(address);
      p := if slot == NONE then NONE else slots[slot];
      if slot != NONE {
        SlotTells(keys, hash, address, slot);
      } else if slots != [] {
        NoSlotIsAbsent(keys, hash, address);
      }
      forall q | 0 <= q < |entries| ensures entries[q].address in keys {
        assert q in Up(|entries|);
        var k :| 0 <= k < |slots| && slots[k] == q;
        assert keys[k] == entries[q].address;
      }
    }

    /** Puts a pointer into the index if there is a slot for it. */
    method Insert(p: int, ghost pointers: set<int>) returns (ok: bool)
      requires Holds(pointers) && Proper(entries) && 0 <= p < |entries| && p !in pointers
      modifies this`slots
      ensures ok ==> Holds(pointers + {p}) && |slots| == |old(slots)|
      ensures !ok ==> slots == old(slots)
      ensures (exists i :: SlotFor(Keys(old(slots), entries), hash, entries[p].address, i)) ==> ok
    {
      var slot := FindSlot(entries[p].address);
      if slot != NONE {
        PutIndexes(slots, entries, hash, pointers, p, slot);
        slots := slots[slot := p];
        return true;
      }
      if slots != [] {
        SlotOrNone(Keys(slots, entries), hash, entries[p].address);
      }
      return false;
    }

    /** A larger index with the same pointers; it is doubled again while some group has no room in it. */
    method Grow(ghost pointers: set<int>) returns (ok: bool)
      requires Holds(pointers) && Proper(entries)
      modifies this`slots
      ensures ok ==> Holds(pointers) && |old(slots)| < |slots| <= maxSize
    {
      var oldSlots := slots;
      var size := if oldSlots != [] then 2 * |oldSlots| else INITIAL_SIZE;
      while size <= maxSize
        invariant size > |oldSlots| && size >= INITIAL_SIZE
        decreases maxSize - size
      {
        slots := seq(size, _ => NONE);
        ok := Rehash(oldSlots, pointers);
        if ok {
          return;
        }
        size := 2 * size;
      }
      return false;
    }

    method Rehash(oldSlots: seq<int>, ghost pointers: set<int>) returns (ok: bool)
      requires Indexes(oldSlots, entries, hash, pointers) && Proper(entries)
      requires |slots| >= INITIAL_SIZE && forall i | 0 <= i < |slots| :: slots[i] == NONE
      modifies this`slots
      ensures ok ==> Holds(pointers) && |slots| == |old(slots)|
    {
      EmptyIndexes(slots, entries, hash);
      ghost var done: set<int> := {};
      var i := 0;
      while i < |oldSlots|
        invariant 0 <= i <= |oldSlots| && Holds(done) && |slots| == |old(slots)|
        invariant forall p :: p in done <==> p != NONE && p in oldSlots[..i]
      {
        assert oldSlots[..i + 1] == oldSlots[..i] + [oldSlots[i]];
        if oldSlots[i] != NONE {
          NotYet(oldSlots, pointers, i);
          var inserted := Insert(oldSlots[i], done);
          if !inserted {
            return false;
          }
          done := done + {oldSlots[i]};
        }
        i := i + 1;
      }
      assert oldSlots[..i] == oldSlots;
      forall p ensures p in done <==> p in pointers {
        if p in done {
          var k :| 0 <= k < |oldSlots| && oldSlots[k] == p;
        }
      }
      assert done == pointers;
      return true;
    }

    lemma NotYet(oldSlots: seq<int>, pointers: set<int>, i: int)
      requires Indexes(oldSlots, entries, hash, pointers) && Proper(entries) && 0 <= i < |oldSlots|
      requires oldSlots[i] != NONE
      ensures oldSlots[i] !in oldSlots[..i] && 0 <= oldSlots[i] < |entries|
    {
      var keys := Keys(oldSlots, entries);
      assert forall j | 0 <= j < i :: keys[j] != keys[i] || keys[i] == 0;
    }

    /** Puts a pointer into the index, which grows until there is room, and not at all if there is.
        It fails only when the index may not grow further. */
    method AddIndex(p: int, ghost pointers: set<int>) returns (ok: bool)
      requires Holds(pointers) && Proper(entries) && 0 <= p < |entries| && p !in pointers
      modifies this`slots
      ensures ok ==> Holds(pointers + {p})
      ensures (exists i :: SlotFor(Keys(old(slots), entries), hash, entries[p].address, i)) ==>
                ok && |slots| == |old(slots)|
    {
      ok := Insert(p, pointers);
      while !ok
        invariant ok ==> Holds(pointers + {p})
        invariant !ok ==> Holds(pointers)
        invariant (exists i :: SlotFor(Keys(old(slots), entries), hash, entries[p].address, i)) ==>
                    ok && |slots| == |old(slots)|
        decreases !ok, maxSize - |slots|
      {
        var grown := Grow(pointers);
        if !grown {
          return false;
        }
        ok := Insert(p, pointers);
      }
    }

    /** Takes a pointer out of the index; the members of its group behind it move up. */
    method RemoveIndex(p: int, ghost pointers: set<int>) returns (ghost hole: int)
      requires Holds(pointers) && Proper(entries) && p in pointers
      modifies this`slots
      ensures Holds(pointers - {p}) && |slots| == |old(slots)|
      ensures 0 <= p < |entries| && SlotFor(Keys(slots, entries), hash, entries[p].address, hole)
    {
      InRange(p, pointers);
      hide Members, Grouped, SlotFor, Keys, Home, Indexes, Proper, NoSlot;
      var address := entries[p].address;
      var slot := FindSlot(address);
      IsThere(p, pointers, slot);
      var h := Home(hash, address, |slots|);
      hole := CloseGroup(p, pointers, h, slot);
    }

    lemma InRange(p: int, pointers: set<int>)
      requires Holds(pointers) && Proper(entries) && p in pointers
      ensures 0 <= p < |entries| && entries[p].address != 0 && |slots| > 0 && (slots == [] || |slots| >= INITIAL_SIZE)
    {}

    /** Shifts the members of the group of home h behind slot by one, and empties the last one's slot. */
    method CloseGroup(p: int, ghost pointers: set<int>, h: int, s: int) returns (ghost hole: int)
      requires Holds(pointers) && Proper(entries) && p in pointers && 0 <= p < |entries|
      requires 0 <= s < |slots| && slots[s] == p && |slots| > 0 && h == Home(hash, entries[p].address, |slots|)
      requires Dist(h, s, |slots|) < MAXIMUM_DEPTH && Members(Keys(slots, entries), hash, h, Dist(h, s, |slots|))
      modifies this`slots
      ensures Holds(pointers - {p}) && |slots| == |old(slots)|
      ensures SlotFor(Keys(slots, entries), hash, entries[p].address, hole)
    {
      ghost var slots0, before := slots, Keys(slots, entries);
      var m := |slots|;
      var slot := s;
      StartsShift(slots0, before, h, slot);
      var next := Next(slot, m);
      hide Shifted, Members, Grouped, SlotFor, Keys, Home, Indexes, Proper, Dist, Next;
      while true
        invariant |slots| == m && 0 <= slot < m && next == Next(slot, m)
        invariant Dist(h, s, m) <= Dist(h, slot, m) < MAXIMUM_DEPTH
        invariant Shifted(slots0, slots, h, Dist(h, s, m), Dist(h, slot, m))
        invariant Members(before, hash, h, Dist(h, slot, m))
        decreases MAXIMUM_DEPTH - Dist(h, slot, m)
      {
        ShiftRound(slots0, slots, pointers, h, s, slot);
        var oldMember := slots[next];
        if oldMember == NONE || h != Home(hash, entries[oldMember].address, m) {
          Closes(slots0, slots, pointers, p, h, s, slot, next);
          hole := slot;
          slots := slots[slot := NONE];
          return;
        }
        slots := slots[slot := slots[next]];
        slot := next;
        next := Next(slot, m);
      }
    }

    /** The slot behind the hole still holds what it held before the deletion; if that belongs to the
        group, it moves into the hole. */
    lemma ShiftRound(slots0: seq<int>, slots1: seq<int>, pointers: set<int>, h: int, s: int, slot: int)
      requires Indexes(slots0, entries, hash, pointers) && Proper(entries) && 0 <= slot < |slots0| && 0 <= h < |slots0|
      requires |slots1| == |slots0| && Dist(h, s, |slots0|) <= Dist(h, slot, |slots0|) < MAXIMUM_DEPTH
      requires Members(Keys(slots0, entries), hash, h, Dist(h, slot, |slots0|))
      requires Shifted(slots0, slots1, h, Dist(h, s, |slots0|), Dist(h, slot, |slots0|))
      ensures
        var m, n := |slots0|, Next(slot, |slots0|);
        && 0 <= n < m && n != h && Dist(h, n, m) == Dist(h, slot, m) + 1 && slots1[n] == slots0[n]
        && (slots0[n] != NONE ==> 0 <= slots0[n] < |entries|)
        && Shifted(slots0, slots1[slot := slots1[n]], h, Dist(h, s, m), Dist(h, n, m))
        && (slots0[n] != NONE && Home(hash, entries[slots0[n]].address, m) == h ==>
              Dist(h, n, m) < MAXIMUM_DEPTH && Members(Keys(slots0, entries), hash, h, Dist(h, n, m)))
    {
      hide Shifted, Members, Keys, Home, Indexes, Proper;
      NextMember(slots0, pointers, h, slot);
      ShiftOne(slots0, slots1, h, Dist(h, s, |slots0|), slot);
    }

    lemma IsThere(p: int, pointers: set<int>, slot: int)
      requires Holds(pointers) && Proper(entries) && p in pointers && 0 <= p < |entries|
      requires slot != NONE ==> SlotFor(Keys(slots, entries), hash, entries[p].address, slot)
      requires slot == NONE ==> slots == [] || NoSlot(Keys(slots, entries), hash, entries[p].address)
      ensures slot != NONE && 0 <= slot < |slots| && slots[slot] == p
      ensures Dist(Home(hash, entries[p].address, |slots|), slot, |slots|) < MAXIMUM_DEPTH
      ensures
        var h := Home(hash, entries[p].address, |slots|);
        Members(Keys(slots, entries), hash, h, Dist(h, slot, |slots|))
    {
      var keys, h := Keys(slots, entries), Home(hash, entries[p].address, |slots|);
      var k :| 0 <= k < |slots| && slots[k] == p;
      assert keys[k] == entries[p].address;
      if slot == NONE {
        NoSlotIsAbsent(keys, hash, entries[p].address);
      } else {
        SlotTells(keys, hash, entries[p].address, slot);
        forall i | 0 <= i < |keys| && Dist(h, i, |keys|) <= Dist(h, slot, |keys|)
          ensures keys[i] != 0 && Home(hash, keys[i], |keys|) == h
        {
          if Dist(h, i, |keys|) == Dist(h, slot, |keys|) {
            SameDist(h, i, slot, |keys|);
          }
        }
      }
    }

    lemma StartsShift(slots0: seq<int>, before: seq<nat>, h: int, slot: int)
      requires 0 <= h < |slots0| && 0 <= slot < |slots0|
      ensures Shifted(slots0, slots0, h, Dist(h, slot, |slots0|), Dist(h, slot, |slots0|))
    {
      var d := Dist(h, slot, |slots0|);
      forall i | 0 <= i < |slots0| ensures ShiftedAt(slots0, slots0, h, d, d, i) {}
    }

    /** The slot behind the hole, as it was before the deletion, continues the group or does not belong to it. */
    lemma NextMember(slots0: seq<int>, pointers: set<int>, h: int, slot: int)
      requires Indexes(slots0, entries, hash, pointers) && Proper(entries) && 0 <= slot < |slots0| && 0 <= h < |slots0|
      requires Dist(h, slot, |slots0|) < MAXIMUM_DEPTH
      requires Members(Keys(slots0, entries), hash, h, Dist(h, slot, |slots0|))
      ensures
        var m, n := |slots0|, Next(slot, |slots0|);
        && 0 <= n < m && n != h && Dist(h, n, m) == Dist(h, slot, m) + 1
        && (slots0[n] != NONE ==> 0 <= slots0[n] < |entries|)
        && (slots0[n] != NONE && Home(hash, entries[slots0[n]].address, m) == h ==>
              Dist(h, n, m) < MAXIMUM_DEPTH && Members(Keys(slots0, entries), hash, h, Dist(h, n, m)))
    {
      var m, n, keys := |slots0|, Next(slot, |slots0|), Keys(slots0, entries);
      NextDist(h, slot, m);
      if slots0[n] != NONE && Home(hash, entries[slots0[n]].address, m) == h {
        assert InGroup(keys, hash, n);
        forall i | 0 <= i < m && Dist(h, i, m) <= Dist(h, n, m) ensures keys[i] != 0 && Home(hash, keys[i], m) == h {
          if Dist(h, i, m) == Dist(h, n, m) {
            SameDist(h, i, n, m);
          }
        }
      }
    }

    lemma Closes(slots0: seq<int>, slots1: seq<int>, pointers: set<int>, p: int, h: int, s: int, slot: int, n: int)
      requires Indexes(slots0, entries, hash, pointers) && Proper(entries) && p in pointers && 0 <= p < |entries|
      requires 0 <= s < |slots0| && slots0[s] == p && h == Home(hash, entries[p].address, |slots0|)
      requires 0 <= slot < |slots0|
      requires Dist(h, s, |slots0|) <= Dist(h, slot, |slots0|) < MAXIMUM_DEPTH
      requires Shifted(slots0, slots1, h, Dist(h, s, |slots0|), Dist(h, slot, |slots0|))
      requires Members(Keys(slots0, entries), hash, h, Dist(h, slot, |slots0|))
      requires 0 <= n < |slots0| && n != h && n == Next(slot, |slots0|)
      requires slots0[n] != NONE ==>
                 0 <= slots0[n] < |entries| && Home(hash, entries[slots0[n]].address, |slots0|) != h
      ensures Indexes(slots1[slot := NONE], entries, hash, pointers - {p})
      ensures SlotFor(Keys(slots1[slot := NONE], entries), hash, entries[p].address, slot)
    {
      var before, after, closed := Keys(slots0, entries), Keys(slots1, entries), slots1[slot := NONE];
      var from, to := Dist(h, s, |slots0|), Dist(h, slot, |slots0|);
      KeysShift(slots0, slots1, h, from, to);
      assert Keys(closed, entries) == after[slot := 0];
      ClosesGroup(before, after, hash, h, s, slot);
      hide Grouped, SlotFor, Members, Shifted;
      SlotsClosed(slots0, slots1, closed, pointers, p, h, from, to, slot);
      PointersClosed(slots0, closed, pointers, p);
    }

    lemma SlotsClosed(slots0: seq<int>, slots1: seq<int>, closed: seq<int>, pointers: set<int>, p: int, h: int,
            from: int, to: int, slot: int)
      requires forall i | 0 <= i < |slots0| :: slots0[i] == NONE || slots0[i] in pointers
      requires Shifted(slots0, slots1, h, from, to) && 0 <= slot < |slots0| && 0 <= p < |entries|
      requires closed == slots1[slot := NONE] && entries[p].address != 0 && entries[p].address !in Keys(closed, entries)
      ensures forall i | 0 <= i < |slots0| :: closed[i] == NONE || closed[i] in pointers - {p}
    {
      forall i | 0 <= i < |slots0| ensures closed[i] == NONE || closed[i] in pointers - {p} {
        if i != slot {
          assert ShiftedAt(slots0, slots1, h, from, to, i);
          assert Keys(closed, entries)[i] in Keys(closed, entries);
        }
      }
    }

    lemma PointersClosed(slots0: seq<int>, closed: seq<int>, pointers: set<int>, p: int)
      requires Proper(entries) && (forall q | q in pointers :: 0 <= q < |entries| && q in slots0) && p in pointers
      requires forall k: nat | k != 0 && k in Keys(slots0, entries) && k != entries[p].address ::
                 k in Keys(closed, entries)
      ensures forall q | q in pointers - {p} :: q in closed
    {
      forall q | q in pointers - {p} ensures q in closed {
        var k :| 0 <= k < |slots0| && slots0[k] == q;
        assert Keys(slots0, entries)[k] == entries[q].address && entries[q].address in Keys(slots0, entries);
        var j :| 0 <= j < |closed| && Keys(closed, entries)[j] == entries[q].address;
        assert closed[j] == q;
      }
    }

    lemma KeysShift(slots0: seq<int>, slots1: seq<int>, h: int, from: int, to: int)
      requires Shifted(slots0, slots1, h, from, to)
      ensures Shifted(Keys(slots0, entries), Keys(slots1, entries), h, from, to)
    {
      forall i | 0 <= i < |slots0| ensures ShiftedAt(Keys(slots0, entries), Keys(slots1, entries), h, from, to, i) {
        assert ShiftedAt(slots0, slots1, h, from, to, i);
      }
    }

    // ----- the list -----

    /** Appends an entry. When the entries have to be moved, the index is built anew. */
    method Add(entry: Range) returns (ok: bool)
      requires Valid() && growth > 0 && entry.address != 0
      requires forall p | 0 <= p < |entries| :: entries[p].address != entry.address
      modifies this`slots, this`entries, this`maximum
      ensures entries == old(entries) + [entry] && (ok ==> Valid())
    {
      SlotsSize();
      hide Indexes, Proper;
      ok := true;
      if |entries| >= maximum {
        maximum := maximum + growth;
        ok := Rebuild();
      }
      ghost var before := entries;
      entries := entries + [entry];
      if ok {
        AppendProper(before, entry);
        OtherEntries(slots, before, entries, hash, Up(|before|));
        ok := AddIndex(|entries| - 1, Up(|before|));
      }
    }

    lemma SlotsSize()
      requires Valid()
      ensures slots == [] || |slots| >= INITIAL_SIZE
    {}

    lemma AppendProper(before: seq<Range>, entry: Range)
      requires Proper(before) && entry.address != 0
      requires forall p | 0 <= p < |before| :: before[p].address != entry.address
      ensures Proper(before + [entry])
    {}

    /** Clears the index and puts all entries into it again. */
    method Rebuild() returns (ok: bool)
      requires Proper(entries) && (slots == [] || |slots| >= INITIAL_SIZE)
      modifies this`slots
      ensures ok ==> Holds(Up(|entries|))
    {
      ok := true;
      slots := seq(|slots|, _ => NONE);
      EmptyIndexes(slots, entries, hash);
      hide Indexes, Proper;
      var i := 0;
      while i < |entries| && ok
        invariant 0 <= i <= |entries| && (ok ==> Holds(Up(i)))
      {
        ok := AddIndex(i, Up(i));
        i := i + 1;
      }
    }

    /** Removes entry i; the last entry takes its place. The index never has to grow for that. */
    method Remove(i: nat)
      requires Valid() && i < |entries|
      modifies this`slots, this`entries
      ensures Valid() && |slots| == |old(slots)|
      ensures
        var last := |old(entries)| - 1;
        entries == if i == last then old(entries)[..i] else old(entries)[i := old(entries)[last]][..last]
    {
      hide Indexes, Proper, Keys, SlotFor;
      var last := |entries| - 1;
      ghost var before, all := entries, Up(|entries|);
      ghost var hole := RemoveIndex(i, all);
      if i != last {
        hole := RemoveIndex(last, all - {i});
        Swapped(slots, before, hash, i, all - {i} - {last}, hole);
        entries := entries[i := entries[last]][..last];
        var ok := AddIndex(i, all - {i} - {last});
        assert all - {i} - {last} + {i} == Up(last);
      } else {
        Dropped(slots, before, hash, all - {i});
        entries := entries[..last];
        assert all - {i} == Up(last);
      }
    }

    lemma Swapped(slots: seq<int>, before: seq<Range>, hash: nat -> nat, i: int, rest: set<int>, hole: int)
      requires 0 <= i < |before| - 1 && rest == Up(|before|) - {i} - {|before| - 1} && Proper(before)
      requires Indexes(slots, before, hash, rest)
      requires SlotFor(Keys(slots, before), hash, before[|before|-1].address, hole)
      ensures
        var after := before[i := before[|before|-1]][..|before|-1];
        Proper(after) && Indexes(slots, after, hash, rest) && SlotFor(Keys(slots, after), hash, after[i].address, hole)
    {
      var after := before[i := before[|before|-1]][..|before|-1];
      SwapProper(before, i);
      OtherEntries(slots, before, after, hash, rest);
      assert Keys(slots, after) == Keys(slots, before);
    }

    lemma Dropped(slots: seq<int>, before: seq<Range>, hash: nat -> nat, rest: set<int>)
      requires before != [] && rest == Up(|before|) - {|before| - 1} && Proper(before)
      requires Indexes(slots, before, hash, rest)
      ensures Proper(before[..|before|-1]) && Indexes(slots, before[..|before|-1], hash, rest)
    {
      OtherEntries(slots, before, before[..|before|-1], hash, rest);
    }

    lemma SwapProper(before: seq<Range>, i: int)
      requires Proper(before) && 0 <= i < |before| - 1
      ensures Proper(before[i := before[|before|-1]][..|before|-1])
    {}
  }

  lemma SlotOrNone(keys: seq<nat>, hash: nat -> nat, key: nat)
    requires NoSlot(keys, hash, key)
    ensures forall i :: !SlotFor(keys, hash, key, i)
  {
    var h := Home(hash, key, |keys|);
    var d :| Blocked(keys, hash, key, h, d);
    forall i ensures !SlotFor(keys, hash, key, i) {
      if SlotFor(keys, hash, key, i) && d < MAXIMUM_DEPTH {
        var j :| 0 <= j < |keys| && Dist(h, j, |keys|) == d && keys[j] != 0 && Home(hash, keys[j], |keys|) != h;
        if Dist(h, i, |keys|) == d {
          SameDist(h, i, j, |keys|);
        }
      }
    }
  }
}
