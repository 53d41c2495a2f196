/**
 The free lists of an admin: doubly linked lists threaded through free memory. A free node keeps
 its links and its size in its first quantum and its size again in its last word, where the
 block that follows it can find it.
 */
module FreeLists {

  datatype Option<T> = None | Some(value: T)

  /** A quantum: its subzone and its index there. */
  datatype Addr = Addr(z: int, q: int)

  const CACHE_SIZE := 65

  /** The links of the i-th node of l; the head of a list is its last element. */
  ghost predicate NodeOk(prev: map<Addr, Option<Addr>>, next: map<Addr, Option<Addr>>, l: seq<Addr>, i: int)
    requires 0 <= i < |l|
  {
    && l[i] in next && next[l[i]] == (if i > 0 then Some(l[i-1]) else None)
    && l[i] in prev && prev[l[i]] == (if i + 1 < |l| then Some(l[i+1]) else None)
  }

  /** Linking the neighbours of the i-th node takes it out of the list. */
  lemma Bypass(prev: map<Addr, Option<Addr>>, next: map<Addr, Option<Addr>>, l: seq<Addr>, i: int, j: int)
    requires 0 <= i < |l| - 1 && forall k | 0 <= k < |l| :: NodeOk(prev, next, l, k)
    requires forall a, b | 0 <= a < b < |l| :: l[a] != l[b]
    requires 0 <= j < |l| - 1
    ensures NodeOk(if i > 0 then prev[l[i-1] := Some(l[i+1])] else prev,
                   next[l[i+1] := if i > 0 then Some(l[i-1]) else None], l[..i] + l[i+1..], j)
  {
    var m := l[..i] + l[i+1..];
    assert NodeOk(prev, next, l, if j < i then j else j + 1);
    if j < i {
      assert m[j] == l[j] && (j > 0 ==> m[j-1] == l[j-1]) && m[j+1] == if j + 1 < i then l[j+1] else l[j+2];
    } else {
      assert m[j] == l[j+1] && (j > i ==> m[j-1] == l[j]) && (j == i && j > 0 ==> m[j-1] == l[j-1]);
      assert j + 1 < |m| ==> m[j+1] == l[j+2];
    }
  }

  class Cache {
    const qsize: int                       // bytes per quantum
    var heads: seq<Option<Addr>>
    var prev: map<Addr, Option<Addr>>      // words of free memory
    var next: map<Addr, Option<Addr>>
    var size: map<Addr, int>
    var footer: map<Addr, int>             // last word of a quantum
    ghost var lists: seq<seq<Addr>>        // the nodes of each list, the head last
    ghost var place: map<Addr, (int, int)> // list and position of each node

    function QuantumCount(bytes: int): (n: int)
      requires qsize > 0
      ensures (n - 1) * qsize < bytes <= n * qsize
    {
      (bytes + qsize - 1) / qsize
    }

    /** The list a node of this size belongs on. */
    function Slot(bytes: int): (k: int)
      requires qsize > 0
    {
      var n := QuantumCount(bytes);
      if n < CACHE_SIZE then n else 0
    }

    ghost predicate NodeLinked(l: seq<Addr>, i: int)
      requires 0 <= i < |l|
      reads this`prev, this`next
    {
      NodeOk(prev, next, l, i)
    }

    ghost predicate Linked(l: seq<Addr>)
      reads this`prev, this`next
    {
      forall i | 0 <= i < |l| :: NodeLinked(l, i)
    }

    ghost predicate Placed(k: int, i: int)
      requires 0 <= k < |lists| && 0 <= i < |lists[k]|
      reads this`lists, this`place
    {
      lists[k][i] in place && place[lists[k][i]] == (k, i)
    }

    ghost predicate Valid()
      reads this
    {
      && qsize > 0 && |heads| == CACHE_SIZE && |lists| == CACHE_SIZE
      && (forall k | 0 <= k < CACHE_SIZE :: heads[k] == if lists[k] == [] then None else Some(lists[k][|lists[k]|-1]))
      && (forall k | 0 <= k < CACHE_SIZE :: Linked(lists[k]))
      && (forall k, i | 0 <= k < CACHE_SIZE && 0 <= i < |lists[k]| :: Placed(k, i))
    }

    ghost predicate Listed(a: Addr)
      reads this`lists
    {
      exists k, i :: 0 <= k < |lists| && 0 <= i < |lists[k]| && lists[k][i] == a
    }

    constructor (qsize: int)
      requires qsize > 0
      ensures Valid() && this.qsize == qsize && lists == seq(CACHE_SIZE, _ => [])
    {
      this.qsize := qsize;
      heads := seq(CACHE_SIZE, _ => None);
      lists := seq(CACHE_SIZE, _ => []);
      prev, next, size, footer, place := map[], map[], map[], map[], map[];
    }

    /** Writes a node of the given size over free memory and makes it the head of list k. */
    method Push(k: int, a: Addr, bytes: int)
      requires Valid() && 0 <= k < CACHE_SIZE && !Listed(a)
      modifies this
      ensures Valid() && lists == old(lists)[k := old(lists)[k] + [a]]
      ensures size == old(size)[a := bytes]
      ensures footer == old(footer)[Addr(a.z, a.q + bytes / qsize - 1) := bytes]
    {
      hide Linked, Listed, Placed;
      ghost var l := lists[k];
      prev, next, size := prev[a := None], next[a := heads[k]], size[a := bytes];
      footer := footer[Addr(a.z, a.q + bytes / qsize - 1) := bytes];
      if heads[k].Some? {
        prev := prev[heads[k].value := Some(a)];
      }
      heads := heads[k := Some(a)];
      place := place[a := (k, |l|)];
      lists := lists[k := l + [a]];
      PushPlaces(k, a);
      PushLinks(k, a);
    }

    twostate lemma PushPlaces(new k: int, new a: Addr)
      requires old(Valid()) && 0 <= k < CACHE_SIZE && !old(Listed(a))
      requires lists == old(lists)[k := old(lists)[k] + [a]] && place == old(place)[a := (k, |old(lists)[k]|)]
      ensures forall k2, i | 0 <= k2 < CACHE_SIZE && 0 <= i < |lists[k2]| :: Placed(k2, i)
    {
      forall k2, i | 0 <= k2 < CACHE_SIZE && 0 <= i < |lists[k2]| ensures Placed(k2, i) {
        if k2 != k || i < |old(lists)[k]| {
          assert old(Placed(k2, i));
        }
      }
    }

    twostate lemma PushLinks(new k: int, new a: Addr)
      requires old(Valid()) && 0 <= k < CACHE_SIZE && !old(Listed(a))
      requires lists == old(lists)[k := old(lists)[k] + [a]] && next == old(next)[a := old(heads)[k]]
      requires var p := old(prev)[a := None];
               prev == if old(heads)[k].Some? then p[old(heads)[k].value := Some(a)] else p
      ensures forall k2 | 0 <= k2 < CACHE_SIZE :: Linked(lists[k2])
    {
      var l := old(lists)[k];
      assert |l| > 0 ==> old(Placed(k, |l| - 1));
      forall k2, i | 0 <= k2 < CACHE_SIZE && 0 <= i < |lists[k2]| ensures NodeLinked(lists[k2], i) {
        if k2 != k || i < |l| {
          assert old(Placed(k2, i)) && old(NodeLinked(lists[k2], i));
        }
      }
    }

    method Pop(k: int) returns (node: Option<Addr>)
      requires Valid() && 0 <= k < CACHE_SIZE
      modifies this
      ensures Valid() && unchanged(`size, `footer)
      ensures node == old(heads)[k]
      ensures node == None ==> lists == old(lists)
      ensures node.Some? ==> old(lists)[k] != [] && node.value == old(lists)[k][|old(lists)[k]|-1]
      ensures node.Some? ==> lists == old(lists)[k := old(lists)[k][..|old(lists)[k]|-1]]
    {
      node := heads[k];
      if node.Some? {
        ghost var l := lists[k];
        ghost var last := |l| - 1;
        assert NodeLinked(l, last);
        heads := heads[k := next[node.value]];
        if heads[k].Some? {
          assert NodeLinked(l, last - 1);
          prev := prev[heads[k].value := None];
        }
        lists := lists[k := l[..last]];
        forall k2, i | 0 <= k2 < CACHE_SIZE && 0 <= i < |lists[k2]| ensures Placed(k2, i) {
          assert old(Placed(k2, i));
        }
        forall k2 | 0 <= k2 < CACHE_SIZE ensures Linked(lists[k2]) {
          forall i | 0 <= i < |lists[k2]| ensures NodeLinked(lists[k2], i) {
            assert old(Placed(k2, i)) && old(NodeLinked(lists[k2], i));
            if last > 0 {
              assert old(Placed(k, last - 1));
            }
          }
        }
      }
    }

    /** The owner of an allocated block writes to it; words that are no free node's may hold anything. */
    method Overwrite(a: Addr, p: Option<Addr>, n: Option<Addr>, first: int, last: int)
      requires Valid() && !Listed(a)
      modifies this`prev, this`next, this`size, this`footer
      ensures Valid() && size == old(size)[a := first] && footer == old(footer)[a := last]
    {
      prev, next, size, footer := prev[a := p], next[a := n], size[a := first], footer[a := last];
      forall k, i | 0 <= k < CACHE_SIZE && 0 <= i < |lists[k]| ensures NodeLinked(lists[k], i) && Placed(k, i) {
        assert old(NodeLinked(lists[k], i)) && old(Placed(k, i));
      }
    }

    /** Takes the i-th node out of list k. */
    method Remove(k: int, node: Addr, ghost i: nat)
      requires Valid() && 0 <= k < CACHE_SIZE && i < |lists[k]| && lists[k][i] == node
      modifies this
      ensures Valid() && unchanged(`size, `footer)
      ensures lists == old(lists)[k := old(lists)[k][..i] + old(lists)[k][i+1..]]
    {
      assert NodeLinked(lists[k], i);
      var p := prev[node];
      if p.Some? {
        Unlink(k, node, i);
      } else {
        var _ := Pop(k);
        assert old(lists)[k][..i] + old(lists)[k][i+1..] == old(lists)[k][..i];
      }
    }

    lemma ListFacts(k: int)
      requires Valid() && 0 <= k < CACHE_SIZE
      ensures forall j | 0 <= j < |lists[k]| :: NodeOk(prev, next, lists[k], j)
      ensures forall a, b | 0 <= a < b < |lists[k]| :: lists[k][a] != lists[k][b]
    {
      forall j | 0 <= j < |lists[k]| ensures NodeOk(prev, next, lists[k], j) {
        assert NodeLinked(lists[k], j);
      }
      forall a, b | 0 <= a < b < |lists[k]| ensures lists[k][a] != lists[k][b] {
        assert Placed(k, a) && Placed(k, b);
      }
    }

    method Unlink(k: int, node: Addr, ghost i: nat)
      requires Valid() && 0 <= k < CACHE_SIZE && i + 1 < |lists[k]| && lists[k][i] == node
      modifies this
      ensures Valid() && unchanged(`size, `footer)
      ensures lists == old(lists)[k := old(lists)[k][..i] + old(lists)[k][i+1..]]
    {
      ghost var m := lists[k][..i] + lists[k][i+1..];
      LinkNeighbours(k, node, i);
      lists := lists[k := m];
      place := map a | a in place :: if place[a].0 == k && place[a].1 > i then (k, place[a].1 - 1) else place[a];
      forall k2, j | 0 <= k2 < CACHE_SIZE && 0 <= j < |lists[k2]| ensures Placed(k2, j) {
        assert old(Placed(k2, if k2 == k && j >= i then j + 1 else j));
      }
    }

    /** Links the neighbours of a node that is not the head. */
    method LinkNeighbours(k: int, node: Addr, ghost i: nat)
      requires Valid() && 0 <= k < CACHE_SIZE && i + 1 < |lists[k]| && lists[k][i] == node
      modifies this`prev, this`next
      ensures forall k2 | 0 <= k2 < CACHE_SIZE && k2 != k :: Linked(lists[k2])
      ensures Linked(lists[k][..i] + lists[k][i+1..])
    {
      ghost var l := lists[k];
      ghost var prev0, next0 := prev, next;
      assert NodeLinked(l, i) && NodeLinked(l, i + 1) && (i > 0 ==> NodeLinked(l, i - 1));
      ListFacts(k);
      var p, n := prev[node], next[node];
      next := next[p.value := n];
      if n.Some? {
        prev := prev[n.value := p];
      }
      ghost var m := l[..i] + l[i+1..];
      forall j | 0 <= j < |m| ensures NodeLinked(m, j) {
        Bypass(prev0, next0, l, i, j);
      }
      assert Placed(k, i + 1) && (i > 0 ==> Placed(k, i - 1));
      forall k2, j | 0 <= k2 < CACHE_SIZE && 0 <= j < |lists[k2]| && k2 != k ensures NodeLinked(lists[k2], j) {
        assert Placed(k2, j) && old(NodeLinked(lists[k2], j));
      }
    }
  }
}
