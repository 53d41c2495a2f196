/**
 Open addressing with linear probing: positions of a table of m slots, walked upwards and around
 from the slot a key hashes to. A slot whose key is 0 is empty.
 */
module Probing {

  function Next(i: int, m: int): (j: int) {
    if i + 1 == m then 0 else i + 1
  }

  /** How many steps lead from h to i. */
  function Dist(h: int, i: int, m: int): (d: int) {
    if h <= i then i - h else i - h + m
  }

  function Home(hash: nat -> nat, key: nat, m: int): (h: int)
    requires m > 0
    ensures 0 <= h < m
  {
    hash(key) % m
  }

  lemma NextDist(h: int, i: int, m: int)
    requires 0 <= h < m && 0 <= i < m
    ensures 0 <= Next(i, m) < m
    ensures Next(i, m) == h <==> Dist(h, i, m) == m - 1
    ensures Next(i, m) != h ==> Dist(h, Next(i, m), m) == Dist(h, i, m) + 1
  {}

  lemma SameDist(h: int, i: int, j: int, m: int)
    requires 0 <= h < m && 0 <= i < m && 0 <= j < m && Dist(h, i, m) == Dist(h, j, m)
    ensures i == j
  {}

  // ----- counting -----

  ghost function Filled(keys: seq<nat>): (s: set<int>) {
    set i | 0 <= i < |keys| && keys[i] != 0
  }

  lemma FilledPut(keys: seq<nat>, q: int, key: nat)
    requires 0 <= q < |keys| && keys[q] == 0 && key != 0
    ensures |Filled(keys[q := key])| == |Filled(keys)| + 1
  {
    assert Filled(keys[q := key]) == Filled(keys) + {q};
  }

  lemma FilledClear(keys: seq<nat>, q: int)
    requires 0 <= q < |keys| && keys[q] != 0
    ensures |Filled(keys[q := 0])| == |Filled(keys)| - 1
  {
    assert Filled(keys) == Filled(keys[q := 0]) + {q};
  }

  lemma {:induction false} FilledAtMost(keys: seq<nat>)
    ensures |Filled(keys)| <= |keys|
    ensures (forall j | 0 <= j < |keys| :: keys[j] != 0) ==> |Filled(keys)| == |keys|
  {
    if |keys| > 0 {
      var k := |keys| - 1;
      FilledAtMost(keys[..k]);
      assert Filled(keys) == if keys[k] != 0 then Filled(keys[..k]) + {k} else Filled(keys[..k]);
    } else {
      assert Filled(keys) == {};
    }
  }

  /** A table that is not full has an empty slot. */
  lemma HasEmpty(keys: seq<nat>) returns (i: int)
    requires |Filled(keys)| < |keys|
    ensures 0 <= i < |keys| && keys[i] == 0
  {
    FilledAtMost(keys);
    i :| 0 <= i < |keys| && keys[i] == 0;
  }

  // ----- paths -----

  /** No slot on the way from h to i is empty. */
  ghost predicate PathFull(keys: seq<nat>, h: int, i: int) {
    forall j | 0 <= j < |keys| && Dist(h, j, |keys|) < Dist(h, i, |keys|) :: keys[j] != 0
  }

  ghost predicate Reachable(keys: seq<nat>, hash: nat -> nat, i: int)
    requires 0 <= i < |keys|
  {
    keys[i] != 0 ==> PathFull(keys, Home(hash, keys[i], |keys|), i)
  }

  /** Every key can be found from the slot it hashes to without meeting an empty slot. */
  ghost predicate Findable(keys: seq<nat>, hash: nat -> nat) {
    forall i | 0 <= i < |keys| :: Reachable(keys, hash, i)
  }

  /** A key put into the first empty slot from its home. */
  lemma PutKeepsFindable(keys: seq<nat>, hash: nat -> nat, q: int, key: nat)
    requires Findable(keys, hash) && 0 <= q < |keys| && keys[q] == 0 && PathFull(keys, Home(hash, key, |keys|), q)
    ensures Findable(keys[q := key], hash)
  {
    var after := keys[q := key];
    if key == 0 {
      assert after == keys;
    } else {
      forall i | 0 <= i < |after| ensures Reachable(after, hash, i) {
        assert Reachable(keys, hash, i);
      }
    }
  }

  // ----- deletion -----

  /** The state of the repair that follows a deletion. e is the first empty slot behind the deleted
      one; the entries up to slot c have been put where they can be found. */
  ghost predicate Repaired(keys: seq<nat>, hash: nat -> nat, e: int, c: int) {
    && 0 <= e < |keys| && 0 <= c < |keys| && keys[e] == 0
    && (forall j | 0 <= j < |keys| && Dist(e, j, |keys|) > Dist(e, c, |keys|) :: keys[j] != 0)
    && (forall i {:trigger Short(keys, hash, e, i)} | 0 <= i < |keys| && keys[i] != 0 :: Short(keys, hash, e, i))
    && (forall i {:trigger Reachable(keys, hash, i)} | 0 <= i < |keys| && Dist(e, i, |keys|) <= Dist(e, c, |keys|) ::
          Reachable(keys, hash, i))
  }

  /** The way to i does not pass e. */
  ghost predicate Short(keys: seq<nat>, hash: nat -> nat, e: int, i: int)
    requires 0 <= i < |keys|
  {
    0 < Dist(e, Home(hash, keys[i], |keys|), |keys|) <= Dist(e, i, |keys|)
  }

  lemma RepairStarts(keys: seq<nat>, hash: nat -> nat, e: int, x: int)
    requires Findable(keys, hash) && 0 <= e < |keys| && 0 <= x < |keys| && keys[e] == 0 && keys[x] != 0
    requires forall j | 0 <= j < |keys| && Dist(e, j, |keys|) > Dist(e, x, |keys|) :: keys[j] != 0
    ensures Repaired(keys[x := 0], hash, e, x)
  {
    var after := keys[x := 0];
    forall i | 0 <= i < |after| && after[i] != 0 ensures Short(after, hash, e, i) {
      assert Reachable(keys, hash, i);
    }
    forall i | 0 <= i < |after| && Dist(e, i, |after|) <= Dist(e, x, |after|) ensures Reachable(after, hash, i) {
      assert Reachable(keys, hash, i) && (after[i] != 0 ==> Short(after, hash, e, i));
    }
  }

  lemma RepairSlot(keys: seq<nat>, hash: nat -> nat, e: int, c: int, q: int)
    requires Repaired(keys, hash, e, c) && keys[Next(c, |keys|)] != 0 && 0 <= q < |keys|
    requires keys[Next(c, |keys|) := 0][q] == 0
    requires PathFull(keys[Next(c, |keys|) := 0], Home(hash, keys[Next(c, |keys|)], |keys|), q)
    ensures
      var n, h := Next(c, |keys|), Home(hash, keys[Next(c, |keys|)], |keys|);
      && n != e && Dist(e, n, |keys|) == Dist(e, c, |keys|) + 1
      && 0 < Dist(e, h, |keys|) <= Dist(e, q, |keys|) <= Dist(e, n, |keys|)
  {
    var n := Next(c, |keys|);
    NextDist(e, c, |keys|);
    assert Short(keys, hash, e, n);
    assert keys[n := 0][n] == 0;
  }

  lemma RepairStep(keys: seq<nat>, hash: nat -> nat, e: int, c: int, q: int)
    requires Repaired(keys, hash, e, c) && keys[Next(c, |keys|)] != 0 && 0 <= q < |keys|
    requires keys[Next(c, |keys|) := 0][q] == 0
    requires PathFull(keys[Next(c, |keys|) := 0], Home(hash, keys[Next(c, |keys|)], |keys|), q)
    ensures Repaired(keys[Next(c, |keys|) := 0][q := keys[Next(c, |keys|)]], hash, e, Next(c, |keys|))
  {
    var m, n := |keys|, Next(c, |keys|);
    var after := keys[n := 0][q := keys[n]];
    RepairSlot(keys, hash, e, c, q);
    hide Home, PathFull, Next;
    forall i | 0 <= i < m && after[i] != 0 ensures Short(after, hash, e, i) {
      StillShort(keys, hash, e, c, q, i);
    }
    forall i | 0 <= i < m && Dist(e, i, m) <= Dist(e, n, m) ensures Reachable(after, hash, i) {
      StepReachable(keys, hash, e, c, q, i);
    }
    hide Short, Reachable;
    assert forall j | 0 <= j < m && Dist(e, j, m) > Dist(e, n, m) :: after[j] != 0;
  }

  lemma StillShort(keys: seq<nat>, hash: nat -> nat, e: int, c: int, q: int, i: int)
    requires Repaired(keys, hash, e, c) && 0 <= q < |keys| && 0 <= Next(c, |keys|) < |keys| && 0 <= i < |keys|
    requires keys[Next(c, |keys|) := 0][q := keys[Next(c, |keys|)]][i] != 0
    requires 0 < Dist(e, Home(hash, keys[Next(c, |keys|)], |keys|), |keys|) <= Dist(e, q, |keys|)
    ensures Short(keys[Next(c, |keys|) := 0][q := keys[Next(c, |keys|)]], hash, e, i)
  {
    hide Next, Dist, Home;
    if i != q {
      assert Short(keys, hash, e, i);
    }
  }

  lemma StepReachable(keys: seq<nat>, hash: nat -> nat, e: int, c: int, q: int, i: int)
    requires Repaired(keys, hash, e, c) && 0 <= q < |keys| && 0 <= i < |keys| && 0 <= Next(c, |keys|) < |keys|
    requires PathFull(keys[Next(c, |keys|) := 0], Home(hash, keys[Next(c, |keys|)], |keys|), q)
    requires Dist(e, i, |keys|) <= Dist(e, Next(c, |keys|), |keys|) == Dist(e, c, |keys|) + 1
    ensures Reachable(keys[Next(c, |keys|) := 0][q := keys[Next(c, |keys|)]], hash, i)
  {
    var n := Next(c, |keys|);
    if i == q {
      PutReachable(keys[n := 0], hash, q, keys[n]);
    } else if i == n {
      assert keys[n := 0][q := keys[n]][i] == 0;
    } else if keys[i] != 0 {
      if Dist(e, i, |keys|) == Dist(e, n, |keys|) {
        SameDist(e, i, n, |keys|);
      }
      StillReachable(keys, hash, e, c, q, i);
    }
  }

  lemma PutReachable(keys: seq<nat>, hash: nat -> nat, q: int, key: nat)
    requires 0 <= q < |keys| && PathFull(keys, Home(hash, key, |keys|), q)
    ensures Reachable(keys[q := key], hash, q)
  {}

  lemma StillReachable(keys: seq<nat>, hash: nat -> nat, e: int, c: int, q: int, i: int)
    requires Repaired(keys, hash, e, c) && 0 <= q < |keys| && 0 <= i < |keys| && keys[i] != 0 && i != q
    requires Dist(e, i, |keys|) <= Dist(e, c, |keys|) < Dist(e, Next(c, |keys|), |keys|)
    requires 0 <= Next(c, |keys|) < |keys|
    ensures Reachable(keys[Next(c, |keys|) := 0][q := keys[Next(c, |keys|)]], hash, i)
  {
    assert Reachable(keys, hash, i) && Short(keys, hash, e, i);
  }

  lemma RepairEnds(keys: seq<nat>, hash: nat -> nat, e: int, c: int)
    requires Repaired(keys, hash, e, c) && keys[Next(c, |keys|)] == 0
    ensures Findable(keys, hash)
  {
    NextDist(e, c, |keys|);
  }
}
