/**
 An admin: the allocator of one size class. It keeps the free lists, the side data of its
 subzones and, for the subzone added last, the territory that has never been used.
 */
module Allocator {
  import opened FreeLists
  import opened Tiling
  import SideData

  const SMALL_QUANTUM := 16
  const MEDIUM_QUANTUM := 1024
  const NO_SUBZONE := -1

  /** The free list for nodes of n quanta: one list for each size, and list 0 for large clumps. */
  function SlotOf(n: int): (k: int) {
    if n < CACHE_SIZE then n else 0
  }

  /** No two free chunks touch. */
  ghost predicate NoPair(c: Chunks, a: Addr)
    requires a in c
  {
    c[a].free && End(c, a) in c ==> !c[End(c, a)].free
  }

  ghost predicate Merged(c: Chunks) {
    forall a {:trigger NoPair(c, a)} | a in c :: NoPair(c, a)
  }

  /** Only the active subzone has territory left, at least 65 quanta of it, and no free chunk touches it. */
  ghost predicate Territory(c: Chunks, inUse: seq<int>, active: int, limit: int) {
    && NO_SUBZONE <= active < |inUse|
    && (forall z | 0 <= z < |inUse| :: 0 <= inUse[z] <= limit)
    && (forall z | 0 <= z < |inUse| && z != active :: inUse[z] == limit)
    && (active != NO_SUBZONE ==> limit - inUse[active] >= CACHE_SIZE)
    && (forall a | a in c && c[a].free && a.z == active != NO_SUBZONE :: End(c, a).q != inUse[active])
  }

  /** The allocated blocks: address to number of quanta. */
  ghost function BlocksOf(c: Chunks): (m: map<Addr, int>) {
    map a | a in c && !c[a].free :: c[a].len
  }

  /** rows lists the blocks of each subzone. */
  ghost predicate Rows(m: map<Addr, int>, rows: seq<map<int, int>>) {
    forall z, q {:trigger q in rows[z]} | 0 <= z < |rows| ::
      (q in rows[z] <==> Addr(z, q) in m) && (q in rows[z] ==> rows[z][q] == m[Addr(z, q)])
  }

  lemma RowAdded(m: map<Addr, int>, rows: seq<map<int, int>>, a: Addr, n: int)
    requires Rows(m, rows) && 0 <= a.z < |rows|
    ensures Rows(m[a := n], rows[a.z := rows[a.z][a.q := n]])
  {}

  lemma RowRemoved(m: map<Addr, int>, rows: seq<map<int, int>>, a: Addr)
    requires Rows(m, rows) && 0 <= a.z < |rows|
    ensures Rows(m - {a}, rows[a.z := rows[a.z] - {a.q}])
  {}

  // ----- what the operations do to the chunks -----

  /** The first n quanta of the free chunk a become a block. */
  function Taken(c: Chunks, a: Addr, n: int): (d: Chunks)
    requires a in c
  {
    if n < c[a].len then Relabelled(Cut(c, a, n), a, false) else Relabelled(c, a, false)
  }

  lemma TakenTiles(c: Chunks, inUse: seq<int>, a: Addr, n: int)
    requires Tiles(c, inUse) && a in c && c[a].free && 1 <= n <= c[a].len
    ensures Tiles(Taken(c, a, n), inUse)
    ensures n < c[a].len ==> Addr(a.z, a.q + n) !in c
  {
    if n < c[a].len {
      CutTiles(c, inUse, a, n);
      RelabelTiles(Cut(c, a, n), inUse, a, false);
    } else {
      RelabelTiles(c, inUse, a, false);
    }
  }

  lemma TakenMerged(c: Chunks, inUse: seq<int>, a: Addr, n: int)
    requires Tiles(c, inUse) && Merged(c) && a in c && c[a].free && 1 <= n <= c[a].len
    ensures Merged(Taken(c, a, n))
  {
    var d, r := Taken(c, a, n), Addr(a.z, a.q + n);
    TakenTiles(c, inUse, a, n);
    assert NoPair(c, a) && InBounds(c, inUse, a);
    forall b | b in d ensures NoPair(d, b) {
      if b != a && (n == c[a].len || b != r) {
        assert NoPair(c, b) && Followed(c, inUse, b) && InBounds(c, inUse, b);
      }
    }
  }

  lemma TakenTerritory(c: Chunks, inUse: seq<int>, active: int, limit: int, a: Addr, n: int)
    requires Tiles(c, inUse) && Territory(c, inUse, active, limit) && a in c && c[a].free && 1 <= n <= c[a].len
    ensures Territory(Taken(c, a, n), inUse, active, limit)
  {
    var d := Taken(c, a, n);
    forall b | b in d && d[b].free && b.z == active != NO_SUBZONE ensures End(d, b).q != inUse[active] {
      assert b in c || b == Addr(a.z, a.q + n);
    }
  }

  /** There is room for a block of n quanta at a. */
  ghost predicate Room(m: map<Addr, int>, a: Addr, n: int) {
    a !in m && forall b | b in m && b.z == a.z :: b.q + m[b] <= a.q || a.q + n <= b.q
  }

  /** Taking adds one block and changes no other. */
  lemma TakenBlocks(c: Chunks, inUse: seq<int>, a: Addr, n: int)
    requires Tiles(c, inUse) && a in c && c[a].free && 1 <= n <= c[a].len
    ensures BlocksOf(Taken(c, a, n)) == BlocksOf(c)[a := n] && Room(BlocksOf(c), a, n)
  {
    TakenTiles(c, inUse, a, n);
    forall b | b in c && !c[b].free && b.z == a.z ensures b.q + c[b].len <= a.q || a.q + n <= b.q {
      assert Apart(c, b, a) && Apart(c, a, b);
    }
  }

  /** A block of n quanta, and perhaps a free chunk of the rest, at the high water of z. */
  function Grown(c: Chunks, inUse: seq<int>, z: int, n: int, rest: int): (d: Chunks)
    requires 0 <= z < |inUse|
  {
    var d := c[Addr(z, inUse[z]) := Chunk(n, false)];
    if rest == 0 then d else d[Addr(z, inUse[z] + n) := Chunk(rest, true)]
  }

  lemma GrownTiles(c: Chunks, inUse: seq<int>, z: int, n: int, rest: int)
    requires Tiles(c, inUse) && 0 <= z < |inUse| && 0 <= inUse[z] && n >= 1 && rest >= 0
    ensures Tiles(Grown(c, inUse, z, n, rest), inUse[z := inUse[z] + n + rest])
    ensures Addr(z, inUse[z]) !in c && (rest > 0 ==> Addr(z, inUse[z] + n) !in c)
  {
    ExtendTiles(c, inUse, z, n, false);
    if rest > 0 {
      var use := inUse[z := inUse[z] + n];
      ExtendTiles(c[Addr(z, inUse[z]) := Chunk(n, false)], use, z, rest, true);
      assert use[z := use[z] + rest] == inUse[z := inUse[z] + n + rest];
    }
  }

  lemma GrownMerged(c: Chunks, inUse: seq<int>, active: int, limit: int, n: int, rest: int)
    requires Tiles(c, inUse) && Merged(c) && Territory(c, inUse, active, limit) && 0 <= active && n >= 1 && rest >= 0
    ensures Merged(Grown(c, inUse, active, n, rest))
  {
    var d := Grown(c, inUse, active, n, rest);
    GrownTiles(c, inUse, active, n, rest);
    var a, r := Addr(active, inUse[active]), Addr(active, inUse[active] + n);
    forall b | b in d ensures NoPair(d, b) {
      if b != a && (rest == 0 || b != r) {
        assert NoPair(c, b) && InBounds(c, inUse, b);
      } else {
        assert End(d, b) in c ==> InBounds(c, inUse, End(d, b));
      }
    }
  }

  lemma GrownTerritory(c: Chunks, inUse: seq<int>, active: int, limit: int, n: int, rest: int)
    requires Tiles(c, inUse) && Territory(c, inUse, active, limit) && 0 <= active && 1 <= n && rest >= 0
    requires inUse[active] + n + rest <= limit
    ensures inUse[active] + n + rest == limit ==>
              Territory(Grown(c, inUse, active, n, rest), inUse[active := limit], NO_SUBZONE, limit)
    ensures rest == 0 && limit - inUse[active] - n >= CACHE_SIZE ==>
              Territory(Grown(c, inUse, active, n, 0), inUse[active := inUse[active] + n], active, limit)
  {
    var d := Grown(c, inUse, active, n, 0);
    forall b | b in d && d[b].free && b.z == active ensures End(d, b).q != inUse[active] + n {
      assert b in c && InBounds(c, inUse, b);
    }
  }

  lemma GrownBlocks(c: Chunks, inUse: seq<int>, z: int, n: int, rest: int)
    requires Tiles(c, inUse) && 0 <= z < |inUse| && 0 <= inUse[z] && n >= 1 && rest >= 0
    ensures BlocksOf(Grown(c, inUse, z, n, rest)) == BlocksOf(c)[Addr(z, inUse[z]) := n]
    ensures Room(BlocksOf(c), Addr(z, inUse[z]), n)
  {
    GrownTiles(c, inUse, z, n, rest);
    forall b | b in c && b.z == z ensures b.q + c[b].len <= inUse[z] {
      assert InBounds(c, inUse, b);
    }
  }

  /** No side data outside the n quanta at a has changed. */
  ghost predicate BytesKept(before: map<Addr, int>, after: map<Addr, int>, a: Addr, n: int) {
    forall x | x in before && !(x.z == a.z && a.q <= x.q < a.q + n) :: x in after && after[x] == before[x]
  }

  /** New side data has been added. */
  ghost predicate Extends(before: map<Addr, int>, after: map<Addr, int>) {
    forall x | x in before :: x in after && after[x] == before[x]
  }

  lemma BytesKeptTwice(before: map<Addr, int>, between: map<Addr, int>, after: map<Addr, int>, a: Addr, n: int)
    requires Extends(before, between) && BytesKept(between, after, a, n)
    ensures BytesKept(before, after, a, n)
  {}

  class Admin {
    const qsize: int                    // bytes per quantum
    const limit: int                    // quanta per subzone
    const cache: Cache
    var sides: seq<array<int>>          // side data of each subzone
    var inUse: seq<int>                 // high water of each subzone
    var active: int                     // the subzone with unused territory
    var remaining: nat                  // subzones the region can still hand out
    ghost var chunks: Chunks
    ghost var rows: seq<map<int, int>>  // the blocks of each subzone

    ghost function Repr(): (s: set<object>)
      reads this`sides
    {
      {this, cache} + set z | 0 <= z < |sides| :: sides[z]
    }

    ghost predicate Shape()
      reads this`sides, this`inUse
    {
      && qsize in {SMALL_QUANTUM, MEDIUM_QUANTUM} && limit >= CACHE_SIZE && cache.qsize == qsize
      && |sides| == |inUse|
      && (forall z | 0 <= z < |sides| :: sides[z].Length == limit)
      && (forall y, z | 0 <= y < z < |sides| :: sides[y] != sides[z])
    }

    ghost predicate SideOk(z: int)
      requires 0 <= z < |sides| && |rows| == |sides|
      reads this`sides, this`rows, sides[z]
    {
      SideData.Describes(sides[z][..], rows[z])
    }

    ghost predicate SidesOk()
      reads this`sides, this`chunks, this`rows, set z | 0 <= z < |sides| :: sides[z]
    {
      && |rows| == |sides| && Rows(BlocksOf(chunks), rows)
      && forall z | 0 <= z < |sides| :: SideOk(z)
    }

    /** The node of a free chunk: size, footer, links. */
    ghost predicate NodeFor(c: Chunks, a: Addr)
      requires a in c
      reads cache
    {
      && a in cache.size && cache.size[a] == c[a].len * qsize
      && Addr(a.z, a.q + c[a].len - 1) in cache.footer
      && cache.footer[Addr(a.z, a.q + c[a].len - 1)] == c[a].len * qsize
      && a in cache.place && cache.place[a].0 == SlotOf(c[a].len) && 0 <= cache.place[a].0 < |cache.lists|
      && 0 <= cache.place[a].1 < |cache.lists[cache.place[a].0]| && cache.lists[cache.place[a].0][cache.place[a].1] == a
    }

    ghost predicate ListedFor(c: Chunks, loose: set<Addr>, k: int, i: int)
      requires 0 <= k < |cache.lists| && 0 <= i < |cache.lists[k]|
      reads cache
    {
      && cache.lists[k][i] in c && c[cache.lists[k][i]].free && cache.lists[k][i] !in loose
      && k == SlotOf(c[cache.lists[k][i]].len)
    }

    /** The free lists hold exactly the free chunks that are not loose. */
    ghost predicate NodesOk(c: Chunks, loose: set<Addr>)
      reads cache
    {
      && cache.Valid()
      && (forall a {:trigger NodeFor(c, a)} | a in c && c[a].free && a !in loose :: NodeFor(c, a))
      && (forall k, i | 0 <= k < |cache.lists| && 0 <= i < |cache.lists[k]| :: ListedFor(c, loose, k, i))
    }

    ghost predicate Valid()
      reads this, cache, set z | 0 <= z < |sides| :: sides[z]
    {
      && Shape() && Tiles(chunks, inUse) && Merged(chunks) && Territory(chunks, inUse, active, limit)
      && NodesOk(chunks, {}) && SidesOk()
    }

    /** The allocated blocks: address to number of quanta. */
    ghost function Blocks(): (m: map<Addr, int>)
      reads this`chunks
    {
      BlocksOf(chunks)
    }

    constructor (qsize: int, limit: int, remaining: nat)
      requires qsize in {SMALL_QUANTUM, MEDIUM_QUANTUM} && limit >= CACHE_SIZE
      ensures Valid() && fresh(Repr()) && Blocks() == map[] && sides == [] && this.remaining == remaining
      ensures this.qsize == qsize && this.limit == limit
    {
      this.qsize, this.limit, this.remaining := qsize, limit, remaining;
      cache := new Cache(qsize);
      sides, inUse, active, chunks, rows := [], [], NO_SUBZONE, map[], [];
    }

    lemma SizeSlot(n: int)
      requires qsize in {SMALL_QUANTUM, MEDIUM_QUANTUM} && cache.qsize == qsize && n >= 1
      ensures cache.Slot(n * qsize) == SlotOf(n) && (n * qsize) / qsize == n && cache.QuantumCount(n * qsize) == n
    {
      if qsize == SMALL_QUANTUM {
        assert n * qsize == n * 16;
      } else {
        assert n * qsize == n * 1024;
      }
    }

    // ----- taking nodes off the lists -----

    /** The checks made before a free node is used; they never fail. */
    method TestNodeIntegrity(a: Addr) returns (valid: bool)
      requires Shape() && Tiles(chunks, inUse) && SidesOk() && Territory(chunks, inUse, active, limit)
      requires a in chunks && chunks[a].free && NodeFor(chunks, a)
      ensures valid
    {
      assert InBounds(chunks, inUse, a);
      if a.q >= limit {
        return false;
      }
      assert SideOk(a.z);
      var used := SideData.IsUsed(sides[a.z][..], a.q, rows[a.z]);
      FreeIsUnused(a, a.q);
      if used {
        return false;
      }
      SizeSlot(chunks[a].len);
      return cache.size[a] == cache.footer[Addr(a.z, a.q + cache.size[a] / qsize - 1)];
    }

    lemma FreeIsUnused(a: Addr, q: int)
      requires Tiles(chunks, inUse) && a in chunks && chunks[a].free && a.q <= q < a.q + chunks[a].len
      requires 0 <= a.z < |rows| && Rows(BlocksOf(chunks), rows)
      ensures forall p :: !SideData.Within(rows[a.z], p, q)
    {
      forall p ensures !SideData.Within(rows[a.z], p, q) {
        if SideData.Within(rows[a.z], p, q) {
          QuantumHasOneChunk(chunks, inUse, a, Addr(a.z, p), a.z, q);
        }
      }
    }

    /** A node taken off its list is loose. */
    twostate lemma NodesAfterRemoval(new c: Chunks, new loose: set<Addr>, new looser: set<Addr>, new a: Addr,
            new k: int, new i: int)
      requires old(NodesOk(c, loose)) && cache.Valid() && 0 <= k < CACHE_SIZE && 0 <= i < |old(cache.lists)[k]|
      requires old(cache.lists)[k][i] == a && looser == loose + {a}
      requires cache.size == old(cache.size) && cache.footer == old(cache.footer)
      requires cache.lists == old(cache.lists)[k := old(cache.lists)[k][..i] + old(cache.lists)[k][i+1..]]
      ensures NodesOk(c, looser)
    {
      forall b | b in c && c[b].free && b !in looser ensures NodeFor(c, b) {
        assert old(NodeFor(c, b));
        var k2, j := old(cache.place)[b].0, old(cache.place)[b].1;
        assert cache.Placed(k2, if k2 == k && j > i then j - 1 else j);
      }
      forall k2, j | 0 <= k2 < |cache.lists| && 0 <= j < |cache.lists[k2]| ensures ListedFor(c, looser, k2, j) {
        var j0 := if k2 == k && j >= i then j + 1 else j;
        assert old(ListedFor(c, loose, k2, j0)) && old(cache.Placed(k2, j0)) && old(cache.Placed(k, i));
      }
    }

    method PopHead(k: int) returns (a: Addr)
      requires NodesOk(chunks, {}) && 0 <= k < CACHE_SIZE && cache.lists[k] != []
      modifies cache
      ensures old(cache.heads)[k] == Some(a) && a in chunks && chunks[a].free && SlotOf(chunks[a].len) == k
      ensures NodesOk(chunks, {a}) && a in cache.size && cache.size[a] == chunks[a].len * qsize
    {
      ghost var l := cache.lists[k];
      assert ListedFor(chunks, {}, k, |l| - 1) && NodeFor(chunks, l[|l|-1]);
      var node := cache.Pop(k);
      a := node.value;
      WithoutLast(l);
      NodesAfterRemoval(chunks, {}, {a}, a, k, |l| - 1);
    }

    method PopNode(k: int) returns (node: Option<Addr>)
      requires Valid() && 0 <= k < CACHE_SIZE
      modifies cache
      ensures node == None ==> NodesOk(chunks, {}) && cache.lists == old(cache.lists) && cache.lists[k] == []
      ensures node.Some? ==> node.value in chunks && chunks[node.value].free && SlotOf(chunks[node.value].len) == k
      ensures node.Some? ==> chunks[node.value].len >= 1
      ensures node.Some? ==> NodesOk(chunks, {node.value}) && node.value in cache.size
      ensures node.Some? ==> cache.size[node.value] == chunks[node.value].len * qsize
      ensures Shape() && Tiles(chunks, inUse) && Merged(chunks) && Territory(chunks, inUse, active, limit) && SidesOk()
    {
      assert forall a | a in chunks :: InBounds(chunks, inUse, a) && chunks[a].len >= 1;
      var head := cache.heads[k];
      if head == None {
        return None;
      }
      assert ListedFor(chunks, {}, k, |cache.lists[k]| - 1) && NodeFor(chunks, head.value);
      var valid := TestNodeIntegrity(head.value);
      if !valid {
        return None;
      }
      var a := PopHead(k);
      return Some(a);
    }

    // ----- putting nodes on the lists -----

    ghost function Last(c: Chunks, a: Addr): (l: Addr)
      requires a in c
    {
      Addr(a.z, a.q + c[a].len - 1)
    }

    /** d has the same listed chunks as c, and the free chunk r besides. */
    ghost predicate OneMore(c: Chunks, loose: set<Addr>, d: Chunks, r: Addr) {
      && r in d && d[r].free && d[r].len >= 1 && (r in c ==> r in loose || !c[r].free)
      && (forall b | b in d && d[b].free && b != r ::
            b in c && c[b].free && b !in loose && d[b] == c[b] && Last(c, b) != Last(d, r))
      && (forall b | b in c && c[b].free && b !in loose :: b in d && d[b] == c[b] && b != r)
    }

    method PushFree(r: Addr, bytes: int, ghost c: Chunks, ghost loose: set<Addr>, ghost d: Chunks)
      requires Shape() && NodesOk(c, loose) && OneMore(c, loose, d, r) && bytes == d[r].len * qsize
      modifies cache
      ensures NodesOk(d, {})
    {
      SizeSlot(d[r].len);
      assert !cache.Listed(r) by {
        forall k, i | 0 <= k < |cache.lists| && 0 <= i < |cache.lists[k]| ensures cache.lists[k][i] != r {
          assert ListedFor(c, loose, k, i);
        }
      }
      cache.Push(cache.Slot(bytes), r, bytes);
      NodesAfterPush(c, loose, d, r);
    }

    twostate lemma NodesAfterPush(new c: Chunks, new loose: set<Addr>, new d: Chunks, new r: Addr)
      requires Shape() && old(NodesOk(c, loose)) && cache.Valid() && OneMore(c, loose, d, r)
      requires 0 <= SlotOf(d[r].len) < CACHE_SIZE
      requires cache.lists == old(cache.lists)[SlotOf(d[r].len) := old(cache.lists)[SlotOf(d[r].len)] + [r]]
      requires cache.size == old(cache.size)[r := d[r].len * qsize]
      requires cache.footer == old(cache.footer)[Last(d, r) := d[r].len * qsize]
      ensures NodesOk(d, {})
    {
      var k := SlotOf(d[r].len);
      forall b | b in d && d[b].free ensures NodeFor(d, b) {
        if b == r {
          assert cache.Placed(k, |old(cache.lists)[k]|);
        } else {
          assert old(NodeFor(c, b));
          assert cache.Placed(old(cache.place)[b].0, old(cache.place)[b].1);
        }
      }
      forall k2, i | 0 <= k2 < |cache.lists| && 0 <= i < |cache.lists[k2]| ensures ListedFor(d, {}, k2, i) {
        if k2 != k || i < |old(cache.lists)[k]| {
          assert old(ListedFor(c, loose, k2, i));
        }
      }
    }

    lemma RemainderIsOneMore(a: Addr, n: int)
      requires Tiles(chunks, inUse) && a in chunks && chunks[a].free && 1 <= n < chunks[a].len
      ensures OneMore(chunks, {a}, Taken(chunks, a, n), Addr(a.z, a.q + n))
    {
      var d, r := Taken(chunks, a, n), Addr(a.z, a.q + n);
      TakenTiles(chunks, inUse, a, n);
      forall b | b in d && d[b].free && b != r ensures Last(chunks, b) != Last(d, r) {
        SameEnd(chunks, inUse, a, b);
      }
    }

    /** Makes a block of the first n quanta of a node that was taken off the lists. */
    method Take(a: Addr, n: int, layout: nat, refcountIsOne: bool)
      requires Parts() && NodesOk(chunks, {a}) && a in chunks && chunks[a].free && SizeKnown(a)
      requires 1 <= n <= chunks[a].len && n < CACHE_SIZE && layout < 4
      modifies this`chunks, this`rows, cache, set z | 0 <= z < |sides| :: sides[z]
      ensures Valid() && a !in old(Blocks()) && Blocks() == old(Blocks())[a := n]
      ensures Labelled(a, layout, refcountIsOne) && BytesKept(old(Bytes()), Bytes(), a, n)
    {
      hide Labelled, BytesKept, Bytes, Tiles, Merged, Territory, NodesOk, SidesOk, BlocksOf, Taken;
      TakenValid(a, n);
      SplitNode(a, n);
      MarkAllocated(a, n, layout, refcountIsOne, Taken(chunks, a, n));
    }

    /** What is left of a node that is only partly used goes onto a free list. */
    method SplitNode(a: Addr, n: int)
      requires Shape() && Tiles(chunks, inUse) && NodesOk(chunks, {a}) && a in chunks && chunks[a].free && SizeKnown(a)
      requires 1 <= n <= chunks[a].len
      modifies cache
      ensures NodesOk(Taken(chunks, a, n), {})
    {
      hide Tiles, NodesOk, OneMore;
      var bytes := cache.size[a] - n * qsize;
      assert bytes == (chunks[a].len - n) * qsize;
      if bytes != 0 {
        assert n < chunks[a].len;
        TakenTiles(chunks, inUse, a, n);
        RemainderIsOneMore(a, n);
        PushFree(Addr(a.z, a.q + n), bytes, chunks, {a}, Taken(chunks, a, n));
      } else {
        assert n < chunks[a].len ==> bytes >= qsize;
        NothingLeft(a, n);
      }
    }

    lemma TakenValid(a: Addr, n: int)
      requires Shape() && Tiles(chunks, inUse) && Merged(chunks) && Territory(chunks, inUse, active, limit)
      requires a in chunks && chunks[a].free && 1 <= n <= chunks[a].len
      ensures Tiles(Taken(chunks, a, n), inUse) && Merged(Taken(chunks, a, n))
      ensures Territory(Taken(chunks, a, n), inUse, active, limit)
      ensures BlocksOf(Taken(chunks, a, n)) == BlocksOf(chunks)[a := n] && Room(BlocksOf(chunks), a, n)
      ensures 0 <= a.z < |sides| && 0 <= a.q && a.q + n <= limit
    {
      TakenTiles(chunks, inUse, a, n);
      TakenMerged(chunks, inUse, a, n);
      TakenTerritory(chunks, inUse, active, limit, a, n);
      TakenBlocks(chunks, inUse, a, n);
      assert InBounds(chunks, inUse, a);
    }

    lemma NothingLeft(a: Addr, n: int)
      requires NodesOk(chunks, {a}) && a in chunks && chunks[a].free && n == chunks[a].len
      ensures NodesOk(Taken(chunks, a, n), {})
    {
      var d := Taken(chunks, a, n);
      forall b | b in d && d[b].free ensures NodeFor(d, b) {
        assert NodeFor(chunks, b);
      }
      forall k, i | 0 <= k < |cache.lists| && 0 <= i < |cache.lists[k]| ensures ListedFor(d, {}, k, i) {
        assert ListedFor(chunks, {a}, k, i);
      }
    }

    /** The first byte of a new block: the youngest age, the reference count asked for, the layout. */
    ghost predicate Labelled(a: Addr, layout: nat, refcountIsOne: bool)
      reads this`sides, set z | 0 <= z < |sides| :: sides[z]
    {
      && 0 <= a.z < |sides| && 0 <= a.q < sides[a.z].Length && sides[a.z][a.q] % 4 == layout
      && SideData.AgeRef(sides[a.z][a.q]) == if refcountIsOne then SideData.R1_A5 else SideData.R0_A5
    }

    /** All side data. */
    ghost function Bytes(): (m: map<Addr, int>)
      reads this`sides, set z | 0 <= z < |sides| :: sides[z]
    {
      map z, q | 0 <= z < |sides| && 0 <= q < sides[z].Length :: Addr(z, q) := sides[z][q]
    }

    /** Side data has been written in one subzone only, and there only in the block. */
    twostate lemma OneSideWritten(new a: Addr, new n: int)
      requires sides == old(sides) && 0 <= a.z < |sides|
      requires forall z | 0 <= z < |sides| && z != a.z :: sides[z][..] == old(sides[z][..])
      requires forall i | 0 <= i < sides[a.z].Length && !(a.q <= i < a.q + n) :: sides[a.z][i] == old(sides[a.z][i])
      ensures BytesKept(old(Bytes()), Bytes(), a, n)
    {
      forall x | x in old(Bytes()) && !(x.z == a.z && a.q <= x.q < a.q + n)
        ensures x in Bytes() && Bytes()[x] == old(Bytes())[x]
      {
        if x.z != a.z {
          assert sides[x.z][..][x.q] == old(sides[x.z][..])[x.q];
        }
      }
    }

    /** The other subzones are still described by their rows. */
    twostate lemma OtherSides(a: Addr)
      requires sides == old(sides) && 0 <= a.z < |sides| && |rows| == |old(rows)| == |sides|
      requires forall z | 0 <= z < |sides| && z != a.z ::
                 sides[z][..] == old(sides[z][..]) && rows[z] == old(rows)[z] && old(SideOk(z))
      ensures forall z | 0 <= z < |sides| && z != a.z :: SideOk(z)
    {}

    lemma IsLabelled(a: Addr, layout: nat, refcountIsOne: bool)
      requires 0 <= a.z < |sides| && 0 <= a.q < sides[a.z].Length && sides[a.z][a.q] % 4 == layout
      requires SideData.AgeRef(sides[a.z][a.q]) == if refcountIsOne then SideData.R1_A5 else SideData.R0_A5
      ensures Labelled(a, layout, refcountIsOne)
    {}

    /** Writes the side data of the new block. */
    method MarkAllocated(a: Addr, n: int, layout: nat, refcountIsOne: bool, ghost d: Chunks)
      requires Shape() && SidesOk() && 0 <= a.z < |sides| && 0 <= a.q && 1 <= n < CACHE_SIZE && a.q + n <= limit
      requires layout < 4
      requires Room(Blocks(), a, n) && BlocksOf(d) == Blocks()[a := n]
      modifies this`chunks, this`rows, sides[a.z]
      ensures chunks == d && SidesOk() && Labelled(a, layout, refcountIsOne) && BytesKept(old(Bytes()), Bytes(), a, n)
    {
      hide Labelled, Bytes, BytesKept;
      assert SideOk(a.z);
      RowAdded(Blocks(), rows, a, n);
      forall p | p in rows[a.z] ensures p + rows[a.z][p] <= a.q || a.q + n <= p {
        assert Addr(a.z, p) in Blocks();
      }
      hide BlocksOf, Room, Rows, SideData.Describes;
      WriteSide(a, n, layout, refcountIsOne, rows[a.z]);
      chunks := d;
      rows := rows[a.z := rows[a.z][a.q := n]];
      OtherSides(a);
    }

    method WriteSide(a: Addr, n: int, layout: nat, refcountIsOne: bool, ghost row: map<int, int>)
      requires Shape() && 0 <= a.z < |sides| && 0 <= a.q && 1 <= n < CACHE_SIZE && a.q + n <= limit && layout < 4
      requires SideData.Describes(sides[a.z][..], row) && forall p | p in row :: p + row[p] <= a.q || a.q + n <= p
      modifies sides[a.z]
      ensures SideData.Describes(sides[a.z][..], row[a.q := n])
      ensures forall z | 0 <= z < |sides| && z != a.z :: sides[z][..] == old(sides[z][..])
      ensures Labelled(a, layout, refcountIsOne) && BytesKept(old(Bytes()), Bytes(), a, n)
    {
      hide SideData.Describes, Bytes, BytesKept, Labelled;
      SideData.Allocate(sides[a.z], a.q, n, layout, refcountIsOne, row);
      IsLabelled(a, layout, refcountIsOne);
      OneSideWritten(a, n);
    }

    // ----- allocation -----

    /** Parts of the invariant that hold between taking a node and using it. */
    ghost predicate Parts()
      reads this, cache, set z | 0 <= z < |sides| :: sides[z]
    {
      Shape() && Tiles(chunks, inUse) && Merged(chunks) && Territory(chunks, inUse, active, limit) && SidesOk()
    }

    /** No free chunk has n quanta. */
    ghost predicate NothingFits(n: int)
      reads this`chunks
    {
      forall a | a in chunks && chunks[a].free :: chunks[a].len < n
    }

    /** Uses territory at the high water of the active subzone. */
    method Grow(n: int, layout: nat, refcountIsOne: bool) returns (a: Addr)
      requires Valid() && active != NO_SUBZONE && 1 <= n < CACHE_SIZE && layout < 4
      modifies this`chunks, this`rows, this`inUse, this`active, cache, set z | 0 <= z < |sides| :: sides[z]
      ensures Valid() && a !in old(Blocks()) && Blocks() == old(Blocks())[a := n]
      ensures Labelled(a, layout, refcountIsOne) && BytesKept(old(Bytes()), Bytes(), a, n)
    {
      hide Valid, Tiles, Merged, Territory, BlocksOf, NodesOk, SidesOk, Grown, Labelled, BytesKept, Bytes, CanRaise;
      ActiveInRange();
      var top := inUse[active];
      var unused := limit - top - n;
      a := Addr(active, top);
      var rest := if 0 < unused < CACHE_SIZE then unused else 0;
      ghost var d := Grown(chunks, inUse, active, n, rest);
      PrepareGrowth(n, rest);
      Raise(a, n, n + rest, layout, refcountIsOne, d);
    }

    /** d is what chunks becomes when the high water of the active subzone rises, with a block of n
        quanta at a. */
    ghost predicate CanRaise(a: Addr, n: int, rise: int, d: Chunks)
      reads this, cache, set z | 0 <= z < |sides| :: sides[z]
    {
      && Shape() && SidesOk() && 0 <= active < |inUse|
      && 0 <= a.z < |sides| && 0 <= a.q && a.q + n <= limit && Room(Blocks(), a, n) && BlocksOf(d) == Blocks()[a := n]
      && NodesOk(d, {}) && Tiles(d, inUse[active := inUse[active] + rise]) && Merged(d)
      && Territory(d, inUse[active := inUse[active] + rise],
                   if limit - inUse[active] - n < CACHE_SIZE then NO_SUBZONE else active, limit)
    }

    method PrepareGrowth(n: int, rest: int)
      requires Valid() && active != NO_SUBZONE && 1 <= n < CACHE_SIZE && 0 <= active < |inUse|
      requires rest == var unused := limit - inUse[active] - n; if 0 < unused < CACHE_SIZE then unused else 0
      modifies cache
      ensures CanRaise(Addr(active, inUse[active]), n, n + rest, Grown(chunks, inUse, active, n, rest))
      ensures Addr(active, inUse[active]) !in Blocks()
    {
      hide Tiles, Merged, Territory, BlocksOf, NodesOk, SidesOk, Grown;
      GrowthValid(n, rest);
      PushRest(n, rest);
    }

    lemma ActiveInRange()
      requires Valid() && active != NO_SUBZONE
      ensures 0 <= active < |inUse| == |sides| && Shape() && SidesOk()
    {}

    /** Raises the high water of the active subzone and makes the block at a there. */
    method Raise(a: Addr, n: int, rise: int, layout: nat, refcountIsOne: bool, ghost d: Chunks)
      requires CanRaise(a, n, rise, d) && 1 <= n < CACHE_SIZE && layout < 4
      modifies this`chunks, this`rows, this`inUse, this`active, cache, set z | 0 <= z < |sides| :: sides[z]
      ensures Valid() && Blocks() == old(Blocks())[a := n] && Labelled(a, layout, refcountIsOne)
      ensures BytesKept(old(Bytes()), Bytes(), a, n)
    {
      hide Tiles, Merged, Territory, BlocksOf, Room, SidesOk, NodesOk, Labelled, BytesKept, Bytes;
      var unused := limit - inUse[active] - n;
      inUse := inUse[active := inUse[active] + rise];
      if unused < CACHE_SIZE {
        active := NO_SUBZONE;
      }
      MarkAllocated(a, n, layout, refcountIsOne, d);
    }

    /** Territory too small to serve every request goes onto a free list. */
    method PushRest(n: int, rest: int)
      requires Valid() && active != NO_SUBZONE && 1 <= n && 0 <= rest
      modifies cache
      ensures NodesOk(Grown(chunks, inUse, active, n, rest), {})
    {
      GrownTiles(chunks, inUse, active, n, rest);
      if rest == 0 {
        NothingAdded(chunks, Grown(chunks, inUse, active, n, 0), Addr(active, inUse[active]), n);
        return;
      }
      GrownIsOneMore(chunks, inUse, active, n, rest);
      PushFree(Addr(active, inUse[active] + n), rest * qsize, chunks, {}, Grown(chunks, inUse, active, n, rest));
    }

    lemma GrowthValid(n: int, rest: int)
      requires Valid() && active != NO_SUBZONE && 1 <= n < CACHE_SIZE
      requires rest == var unused := limit - inUse[active] - n; if 0 < unused < CACHE_SIZE then unused else 0
      ensures
        var z, d := active, Grown(chunks, inUse, active, n, rest);
        var use := inUse[z := inUse[z] + n + rest];
        && Tiles(d, use) && Merged(d)
        && Territory(d, use, if limit - inUse[z] - n < CACHE_SIZE then NO_SUBZONE else z, limit)
        && BlocksOf(d) == Blocks()[Addr(z, inUse[z]) := n] && Room(Blocks(), Addr(z, inUse[z]), n)
        && Addr(z, inUse[z]) !in chunks && 0 <= z < |sides| && 0 <= inUse[z] && inUse[z] + n <= limit
        && (rest == 0 ==> d == chunks[Addr(z, inUse[z]) := Chunk(n, false)])
    {
      hide Tiles, Merged, BlocksOf, Room, NodesOk, SidesOk;
      GrownTiles(chunks, inUse, active, n, rest);
      GrownMerged(chunks, inUse, active, limit, n, rest);
      GrownTerritory(chunks, inUse, active, limit, n, rest);
      GrownBlocks(chunks, inUse, active, n, rest);
    }

    lemma NothingAdded(c: Chunks, d: Chunks, a: Addr, n: int)
      requires NodesOk(c, {}) && d == c[a := Chunk(n, false)] && a !in c
      ensures NodesOk(d, {})
    {
      forall b | b in d && d[b].free ensures NodeFor(d, b) {
        assert NodeFor(c, b);
      }
      forall k, i | 0 <= k < |cache.lists| && 0 <= i < |cache.lists[k]| ensures ListedFor(d, {}, k, i) {
        assert ListedFor(c, {}, k, i);
      }
    }

    lemma GrownIsOneMore(c: Chunks, use: seq<int>, z: int, n: int, rest: int)
      requires Tiles(c, use) && 0 <= z < |use| && 0 <= use[z] && n >= 1 && rest >= 1
      ensures OneMore(c, {}, Grown(c, use, z, n, rest), Addr(z, use[z] + n))
    {
      GrownTiles(c, use, z, n, rest);
      forall b | b in c ensures Last(c, b) != Addr(z, use[z] + n + rest - 1) {
        assert InBounds(c, use, b);
      }
    }

    /** Finds n quanta: a node of exactly that size, else the first larger size, else a large
        clump, else territory. */
    method FindAllocation(bytes: int, layout: nat, refcountIsOne: bool) returns (r: Option<Addr>, didGrow: bool)
      requires Valid() && 1 <= bytes <= (CACHE_SIZE - 1) * qsize && layout < 4
      modifies this`chunks, this`rows, this`inUse, this`active, cache, set z | 0 <= z < |sides| :: sides[z]
      ensures Valid()
      ensures r.Some? ==> r.value !in old(Blocks()) && Blocks() == old(Blocks())[r.value := cache.QuantumCount(bytes)]
      ensures r.Some? ==> r.value in Blocks() && RoundedUp(Blocks()[r.value], bytes)
      ensures r.Some? ==> Labelled(r.value, layout, refcountIsOne)
      ensures r.Some? ==> BytesKept(old(Bytes()), Bytes(), r.value, cache.QuantumCount(bytes))
      ensures r == None ==>
                Bytes() == old(Bytes()) && chunks == old(chunks) && inUse == old(inUse) && active == old(active)
      ensures r == None <==> old(NothingFits(cache.QuantumCount(bytes))) && old(active) == NO_SUBZONE
      ensures didGrow <==> old(NothingFits(cache.QuantumCount(bytes))) && old(active) != NO_SUBZONE
    {
      hide Labelled, BytesKept, Bytes, RoundedUp;
      didGrow := false;
      var n := cache.QuantumCount(bytes);
      SizeServed(bytes);
      var node := FindNode(n);
      if node.Some? {
        Take(node.value, n, layout, refcountIsOne);
        return Some(node.value), false;
      }
      if active != NO_SUBZONE {
        var a := Grow(n, layout, refcountIsOne);
        return Some(a), true;
      }
      return None, false;
    }

    /** So many quanta are enough for the bytes, and one less is not. */
    ghost predicate RoundedUp(n: int, bytes: int) {
      (n - 1) * qsize < bytes <= n * qsize
    }

    /** The sizes that are served have a list of their own. */
    lemma SizeServed(bytes: int)
      requires Shape() && 1 <= bytes <= (CACHE_SIZE - 1) * qsize
      ensures 1 <= cache.QuantumCount(bytes) < CACHE_SIZE && RoundedUp(cache.QuantumCount(bytes), bytes)
    {}

    /** Nothing fits exactly when each free chunk has fewer bytes than are requested. */
    lemma NothingFitsBytes(bytes: int)
      requires Shape()
      ensures NothingFits(cache.QuantumCount(bytes)) <==>
              forall a | a in chunks && chunks[a].free :: chunks[a].len * qsize < bytes
    {
      forall a | a in chunks && chunks[a].free
        ensures chunks[a].len < cache.QuantumCount(bytes) <==> chunks[a].len * qsize < bytes
      {
        CountTells(chunks[a].len, bytes);
      }
    }

    lemma CountTells(n: int, bytes: int)
      requires Shape()
      ensures n < cache.QuantumCount(bytes) <==> n * qsize < bytes
    {}

    ghost predicate SizeKnown(a: Addr)
      requires a in chunks
      reads this`chunks, cache
    {
      a in cache.size && cache.size[a] == chunks[a].len * qsize
    }

    /** The lists are tried from n upwards, the list of large clumps last. */
    method FindNode(n: int) returns (node: Option<Addr>)
      requires Valid() && 1 <= n < CACHE_SIZE
      modifies cache
      ensures Parts()
      ensures node == None <==> NothingFits(n)
      ensures node == None ==> NodesOk(chunks, {})
      ensures node.Some? ==> node.value in chunks && chunks[node.value].free && chunks[node.value].len >= n
      ensures node.Some? ==> NodesOk(chunks, {node.value}) && SizeKnown(node.value)
      ensures node.Some? ==> BestFit(chunks, node.value, n)
    {
      hide Tiles, Merged, Territory, SidesOk;
      node := PopNode(n);
      var i := n + 1;
      while node == None && i < CACHE_SIZE
        invariant n < i <= CACHE_SIZE
        invariant Parts()
        invariant node == None ==> NodesOk(chunks, {}) && forall k | n <= k < i :: cache.lists[k] == []
        invariant node.Some? ==> node.value in chunks && chunks[node.value].free && chunks[node.value].len >= n
        invariant node.Some? ==> NodesOk(chunks, {node.value}) && SizeKnown(node.value)
        invariant node.Some? ==> BestFit(chunks, node.value, n)
      {
        EmptyLists(n, i);
        node := PopNode(i);
        i := i + 1;
      }
      if node == None {
        node := FindClump(n);
      }
    }

    /** The list of large clumps is the last to be tried. */
    method FindClump(n: int) returns (node: Option<Addr>)
      requires Valid() && 1 <= n < CACHE_SIZE && forall k | n <= k < CACHE_SIZE :: cache.lists[k] == []
      modifies cache
      ensures Parts()
      ensures node == None <==> NothingFits(n)
      ensures node == None ==> NodesOk(chunks, {})
      ensures node.Some? ==> node.value in chunks && chunks[node.value].free && chunks[node.value].len >= n
      ensures node.Some? ==> NodesOk(chunks, {node.value}) && SizeKnown(node.value)
      ensures node.Some? ==> BestFit(chunks, node.value, n)
    {
      hide Tiles, Merged, Territory, SidesOk;
      EmptyLists(n, CACHE_SIZE);
      node := PopNode(0);
      if node == None {
        NoneFits(n);
      }
    }

    /** Among the free chunks of fewer than 65 quanta, none that is smaller than a would do. */
    ghost predicate BestFit(c: Chunks, a: Addr, n: int)
      requires a in c
    {
      forall b | b in c && c[b].free && n <= c[b].len < CACHE_SIZE :: c[a].len < CACHE_SIZE && c[a].len <= c[b].len
    }

    lemma EmptyLists(n: int, i: int)
      requires NodesOk(chunks, {}) && 1 <= n <= i <= CACHE_SIZE && forall k | n <= k < i :: cache.lists[k] == []
      ensures forall b | b in chunks && chunks[b].free && n <= chunks[b].len < CACHE_SIZE :: i <= chunks[b].len
    {
      forall b | b in chunks && chunks[b].free && n <= chunks[b].len < CACHE_SIZE ensures i <= chunks[b].len {
        assert NodeFor(chunks, b);
      }
    }

    lemma NoneFits(n: int)
      requires NodesOk(chunks, {}) && 1 <= n < CACHE_SIZE && cache.lists[0] == []
      requires forall b | b in chunks && chunks[b].free && n <= chunks[b].len < CACHE_SIZE ::
                 CACHE_SIZE <= chunks[b].len
      ensures NothingFits(n)
    {
      forall b | b in chunks && chunks[b].free ensures chunks[b].len < n {
        assert NodeFor(chunks, b);
      }
    }

    // ----- deallocation -----

    /** All neighbours but those of s are merged. */
    ghost predicate MergedBut(c: Chunks, s: Addr) {
      forall a {:trigger NoPair(c, a)} | a in c && a != s && End(c, a) != s :: NoPair(c, a)
    }

    ghost predicate AwayFromTerritory(c: Chunks, s: Addr)
      reads this`inUse, this`active
    {
      forall a | a in c && c[a].free && a != s && a.z == active && 0 <= active < |inUse| :: End(c, a).q != inUse[active]
    }

    /** c is being rebuilt around the free chunk s, the only one that is not on a list. */
    ghost predicate Around(c: Chunks, s: Addr)
      reads this`inUse, this`active, cache
    {
      Tiles(c, inUse) && s in c && c[s].free && MergedBut(c, s) && AwayFromTerritory(c, s) && NodesOk(c, {s})
    }

    ghost predicate NextUsed(c: Chunks, s: Addr)
      requires s in c
    {
      End(c, s) in c ==> !c[End(c, s)].free
    }

    ghost predicate PriorUsed(c: Chunks, s: Addr) {
      forall p | p in c && End(c, p) == s :: !c[p].free
    }

    /** The byte at the start of a chunk, and the byte before it, tell whether the neighbours are free. */
    lemma StartByteTells(b: Addr)
      requires Parts() && b in chunks
      ensures 0 <= b.z < |sides| && 0 <= b.q < limit && (sides[b.z][b.q] == 0 <==> chunks[b].free)
    {
      assert InBounds(chunks, inUse, b) && SideOk(b.z);
      if chunks[b].free {
        FreeIsUnused(b, b.q);
      } else {
        SideData.EndsAreNonzero(sides[b.z][..], rows[b.z], b.q);
      }
    }

    lemma EndByteTells(b: Addr)
      requires Parts() && b in chunks
      ensures 0 <= b.z < |sides| && 0 <= b.q && b.q + chunks[b].len <= limit && chunks[b].len >= 1
      ensures sides[b.z][b.q + chunks[b].len - 1] == 0 <==> chunks[b].free
    {
      hide Merged, NodesOk, SideData.Describes, BlocksOf, Rows;
      assert InBounds(chunks, inUse, b) && SideOk(b.z);
      var e := b.q + chunks[b].len - 1;
      if chunks[b].free {
        FreeIsUnused(b, e);
        UnusedByte(b.z, e);
      } else {
        UsedEnd(b);
      }
    }

    lemma UnusedByte(z: int, q: int)
      requires 0 <= z < |sides| && |rows| == |sides| && SideOk(z) && 0 <= q < sides[z].Length
      requires forall p :: !SideData.Within(rows[z], p, q)
      ensures sides[z][q] == 0
    {}

    lemma UsedEnd(b: Addr)
      requires SidesOk() && 0 <= b.z < |sides| && b in chunks && !chunks[b].free
      ensures 0 <= b.q && 1 <= chunks[b].len && b.q + chunks[b].len <= sides[b.z].Length
      ensures sides[b.z][b.q + chunks[b].len - 1] != 0
    {
      assert SideOk(b.z) && b.q in rows[b.z] && rows[b.z][b.q] == chunks[b].len;
      SideData.EndsAreNonzero(sides[b.z][..], rows[b.z], b.q);
    }

    /** A block that is being freed, still with its side data. */
    lemma StartFreeing(a: Addr)
      requires Valid() && a in Blocks()
      ensures Around(Relabelled(chunks, a, true), a)
      ensures BlocksOf(Relabelled(chunks, a, true)) == Blocks() - {a}
    {
      var c := Relabelled(chunks, a, true);
      RelabelTiles(chunks, inUse, a, true);
      forall b | b in c && b != a && End(c, b) != a ensures NoPair(c, b) {
        assert NoPair(chunks, b);
      }
      forall b | b in c && c[b].free && b != a ensures NodeFor(c, b) {
        assert NodeFor(chunks, b);
      }
      forall k, i | 0 <= k < |cache.lists| && 0 <= i < |cache.lists[k]| ensures ListedFor(c, {a}, k, i) {
        assert ListedFor(chunks, {}, k, i);
      }
    }

    /** Takes a listed free chunk off its list. */
    method Unlist(b: Addr, ghost c: Chunks, ghost s: Addr) returns (bytes: int)
      requires Shape() && NodesOk(c, {s}) && b in c && c[b].free && b != s && c[b].len >= 1
      modifies cache
      ensures NodesOk(c, {s, b}) && bytes == c[b].len * qsize
    {
      assert NodeFor(c, b);
      bytes := cache.size[b];
      SizeSlot(c[b].len);
      ghost var i := cache.place[b].1;
      var k := cache.Slot(bytes);
      cache.Remove(k, b, i);
      NodesAfterRemoval(c, {s}, {s, b}, b, k, i);
    }

    /** Joining two free chunks that are off the lists. */
    lemma JoinAround(c: Chunks, s: Addr, x: Addr)
      requires Tiles(c, inUse) && x in c && c[x].free && End(c, x) in c && c[End(c, x)].free
      requires s == x || s == End(c, x)
      requires MergedBut(c, s) && AwayFromTerritory(c, s) && NodesOk(c, {x, End(c, x)})
      ensures Around(Join(c, x), x) && BlocksOf(Join(c, x)) == BlocksOf(c)
      ensures End(Join(c, x), x) == End(c, End(c, x)) && Join(c, x)[x].len == c[x].len + c[End(c, x)].len
    {
      var d, y := Join(c, x), End(c, x);
      JoinTiles(c, inUse, x);
      forall b | b in d && b != x && End(d, b) != x ensures NoPair(d, b) {
        SameEnd(c, inUse, b, x);
        assert NoPair(c, b);
      }
      forall b | b in d && d[b].free && b != x ensures NodeFor(d, b) {
        assert NodeFor(c, b);
      }
      forall k, i | 0 <= k < |cache.lists| && 0 <= i < |cache.lists[k]| ensures ListedFor(d, {x}, k, i) {
        assert ListedFor(c, {x, y}, k, i);
      }
    }

    /** The end of the freed chunk is not the edge of the territory, or it is where the block ended. */
    ghost predicate EdgeKnown(c: Chunks, a: Addr, s: Addr)
      requires s in c && a in chunks && 0 <= a.z < |inUse|
      reads this`inUse, this`active, this`chunks
    {
      && (End(chunks, a).q == inUse[a.z] ==> End(c, s).q == inUse[a.z])
      && (End(chunks, a).q != inUse[a.z] && a.z == active ==> End(c, s).q != inUse[a.z])
    }

    /** Merges the block at a, just freed, with a free chunk that follows it. */
    method MergeNext(a: Addr, n: int) returns (bytes: int, ghost c: Chunks)
      requires Parts() && a in Blocks() && n == chunks[a].len && Around(Relabelled(chunks, a, true), a)
      requires forall b | b in chunks && chunks[b].free :: NodeFor(chunks, b)
      modifies cache
      ensures Around(c, a) && BlocksOf(c) == BlocksOf(Relabelled(chunks, a, true)) && NextUsed(c, a)
      ensures bytes == c[a].len * qsize
      ensures SameBefore(c, a) && 0 <= a.z < |inUse| && EdgeKnown(c, a, a)
    {
      hide Merged, Territory, NodesOk, BlocksOf, MergedBut, AwayFromTerritory;
      var next := Addr(a.z, a.q + n);
      IsChunk(a);
      assert InBounds(chunks, inUse, a) && Followed(chunks, inUse, a) && next == End(chunks, a);
      if a.q + n < inUse[a.z] {
        StartByteTells(next);
        if sides[a.z][a.q + n] == 0 {
          var valid := TestNodeIntegrity(next);
          bytes, c := AbsorbNext(a, n, next);
          return;
        }
      } else {
        EndNotStart(a);
      }
      c := Relabelled(chunks, a, true);
      bytes := n * qsize;
    }

    lemma IsChunk(a: Addr)
      requires a in Blocks()
      ensures a in chunks && !chunks[a].free
    {}

    method AbsorbNext(a: Addr, n: int, next: Addr) returns (bytes: int, ghost c: Chunks)
      requires Shape() && Tiles(chunks, inUse) && Merged(chunks) && Territory(chunks, inUse, active, limit)
      requires a in chunks && !chunks[a].free && n == chunks[a].len && Around(Relabelled(chunks, a, true), a)
      requires next == End(chunks, a) && next in chunks && chunks[next].free && 0 <= a.z < |inUse|
      modifies cache
      ensures Around(c, a) && BlocksOf(c) == BlocksOf(Relabelled(chunks, a, true)) && NextUsed(c, a)
      ensures bytes == c[a].len * qsize
      ensures SameBefore(c, a) && EdgeKnown(c, a, a)
    {
      hide Merged, BlocksOf, Territory, SameBefore, EdgeKnown, NextUsed, PriorUsed, MergedBut, AwayFromTerritory;
      ghost var c0 := Relabelled(chunks, a, true);
      assert InBounds(chunks, inUse, next);
      NextJoined(a, next);
      hide Tiles;
      var more := Unlist(next, c0, a);
      hide NodesOk;
      JoinAround(c0, a, a);
      c := Join(c0, a);
      bytes := n * qsize + more;
      assert bytes == c[a].len * qsize;
    }

    /** What follows the chunk behind a freed block is not free, and nothing before the block changes. */
    lemma NextJoined(a: Addr, next: Addr)
      requires Tiles(chunks, inUse) && Merged(chunks) && Territory(chunks, inUse, active, limit)
      requires a in chunks && next == End(chunks, a) && next in chunks && chunks[next].free && 0 <= a.z < |inUse|
      ensures
        var c := Join(Relabelled(chunks, a, true), a);
        a in c && NextUsed(c, a) && SameBefore(c, a) && EdgeKnown(c, a, a)
    {
      assert InBounds(chunks, inUse, next) && InBounds(chunks, inUse, a) && NoPair(chunks, next);
      hide Merged, Tiles;
    }

    lemma EndNotStart(a: Addr)
      requires Tiles(chunks, inUse) && a in chunks && 0 <= a.z < |inUse| && End(chunks, a).q == inUse[a.z]
      ensures End(chunks, a) !in chunks
    {
      assert End(chunks, a) in chunks ==> InBounds(chunks, inUse, End(chunks, a));
    }

    /** Below a, c is still what chunks was. */
    ghost predicate SameBefore(c: Chunks, a: Addr)
      reads this`chunks
    {
      forall b: Addr | b.z == a.z && b.q < a.q :: (b in c <==> b in chunks) && (b in c ==> c[b] == chunks[b])
    }

    /** Merges the freed chunk at a with a free chunk that ends where it starts. */
    method MergePrior(a: Addr, bytes: int, ghost c: Chunks) returns (s: Addr, total: int, ghost d: Chunks)
      requires Parts() && a in chunks && Around(c, a) && SameBefore(c, a) && NextUsed(c, a)
      requires 0 <= a.z < |inUse| && EdgeKnown(c, a, a) && bytes == c[a].len * qsize
      modifies cache
      ensures Around(d, s) && BlocksOf(d) == BlocksOf(c) && NextUsed(d, s) && PriorUsed(d, s)
      ensures s.z == a.z && total == d[s].len * qsize && EdgeKnown(d, a, s)
    {
      assert InBounds(chunks, inUse, a) && InBounds(c, inUse, a);
      if a.q > 0 {
        ghost var p := Prior(chunks, inUse, a);
        EndByteTells(p);
        if sides[a.z][a.q - 1] == 0 {
          s, total, d := MergeFreePrior(a, bytes, c, p);
          return;
        }
        hide NodesOk, Merged, Territory, SidesOk, MergedBut, AwayFromTerritory;
        NoPriorMerge(a, c, p);
      } else {
        NothingBefore(a, c);
      }
      s, total, d := a, bytes, c;
    }

    method MergeFreePrior(a: Addr, bytes: int, ghost c: Chunks, ghost p: Addr)
      returns (s: Addr, total: int, ghost d: Chunks)
      requires Parts() && a in chunks && Around(c, a) && SameBefore(c, a) && NextUsed(c, a) && a.q > 0
      requires 0 <= a.z < |inUse| && EdgeKnown(c, a, a) && bytes == c[a].len * qsize
      requires p in chunks && chunks[p].free && End(chunks, p) == a
      modifies cache
      ensures Around(d, s) && BlocksOf(d) == BlocksOf(c) && NextUsed(d, s) && PriorUsed(d, s)
      ensures s.z == a.z && total == d[s].len * qsize && EdgeKnown(d, a, s)
    {
      PriorInBoth(a, c, p);
      hide Tiles, Merged, Territory, SidesOk, BlocksOf, MergedBut, AwayFromTerritory, EdgeKnown, SameBefore, NextUsed,
        PriorUsed;
      FooterTells(a, c, p);
      hide NodesOk;
      s := Addr(a.z, a.q - cache.footer[Addr(a.z, a.q - 1)] / qsize);
      var valid := TestNodeIntegrity(s);
      total, d := AbsorbPrior(a, bytes, c, s);
    }

    lemma PriorInBoth(a: Addr, c: Chunks, p: Addr)
      requires Tiles(chunks, inUse) && SameBefore(c, a) && p in chunks && End(chunks, p) == a
      ensures p in c && c[p] == chunks[p] && End(c, p) == a && p != a && chunks[p].len >= 1
    {
      assert InBounds(chunks, inUse, p);
    }

    /** The footer in front of a leads to the free node that ends there. */
    lemma FooterTells(a: Addr, c: Chunks, p: Addr)
      requires Shape() && NodesOk(c, {a}) && p in c && c[p].free && p != a && End(c, p) == a && c[p].len >= 1
      requires p in chunks && chunks[p] == c[p]
      ensures Addr(a.z, a.q - 1) in cache.footer
      ensures Addr(a.z, a.q - cache.footer[Addr(a.z, a.q - 1)] / qsize) == p && NodeFor(chunks, p)
    {
      assert NodeFor(c, p);
      SizeSlot(c[p].len);
    }

    lemma NothingBefore(a: Addr, c: Chunks)
      requires Tiles(c, inUse) && a.q == 0
      ensures PriorUsed(c, a)
    {
      forall p | p in c && End(c, p) == a ensures !c[p].free {
        assert InBounds(c, inUse, p);
      }
    }

    lemma NoPriorMerge(a: Addr, c: Chunks, p: Addr)
      requires Tiles(chunks, inUse) && Tiles(c, inUse) && SameBefore(c, a) && p in chunks && End(chunks, p) == a
      requires !chunks[p].free
      ensures PriorUsed(c, a)
    {
      forall x | x in c && End(c, x) == a ensures !c[x].free {
        assert InBounds(c, inUse, x);
        SameEnd(chunks, inUse, x, p);
      }
    }

    method AbsorbPrior(a: Addr, bytes: int, ghost c: Chunks, p: Addr) returns (total: int, ghost d: Chunks)
      requires Shape() && Tiles(chunks, inUse) && Merged(chunks) && Around(c, a) && SameBefore(c, a) && NextUsed(c, a)
      requires a in chunks && p in c && p in chunks && c[p] == chunks[p] && c[p].free && End(c, p) == a
      requires 0 <= a.z < |inUse| && EdgeKnown(c, a, a) && bytes == c[a].len * qsize
      modifies cache
      ensures Around(d, p) && BlocksOf(d) == BlocksOf(c) && NextUsed(d, p) && PriorUsed(d, p)
      ensures p.z == a.z && total == d[p].len * qsize && EdgeKnown(d, a, p)
    {
      assert InBounds(c, inUse, p);
      PriorOfPrior(a, c, p);
      hide BlocksOf, Merged;
      var more := Unlist(p, c, a);
      assert {a, p} == {p, End(c, p)};
      JoinAround(c, a, p);
      d := Join(c, p);
      total := bytes + more;
      assert total == d[p].len * qsize;
      hide NodesOk, Tiles;
      assert PriorUsed(d, p) by {
        forall x | x in d && End(d, x) == p ensures !d[x].free {
          assert x in c;
        }
      }
    }

    /** What ends where the free chunk p starts is not free. */
    lemma PriorOfPrior(a: Addr, c: Chunks, p: Addr)
      requires Tiles(c, inUse) && Merged(chunks) && SameBefore(c, a)
      requires p in c && p in chunks && c[p] == chunks[p] && c[p].free && End(c, p) == a
      ensures p != a && PriorUsed(c, p) && forall x | x in c && End(c, x) == p :: x != a && x != p
    {
      assert InBounds(c, inUse, p);
      forall x | x in c && End(c, x) == p ensures !c[x].free && x != a && x != p {
        assert InBounds(c, inUse, x) && (x in chunks ==> NoPair(chunks, x));
      }
    }

    /** Frees a block: it is merged with a free neighbour on either side; at the edge of the
        territory it becomes territory, otherwise a node. Freeing what is already free changes nothing. */
    method Deallocate(a: Addr)
      requires Valid() && 0 <= a.z < |sides| && 0 <= a.q < limit && (a in Blocks() || sides[a.z][a.q] == 0)
      modifies this`chunks, this`rows, this`inUse, cache, set z | 0 <= z < |sides| :: sides[z]
      ensures Valid() && Blocks() == old(Blocks()) - {a}
      ensures BytesKept(old(Bytes()), Bytes(), a, if a in old(Blocks()) then old(Blocks())[a] else 0)
    {
      hide Bytes, BytesKept;
      StartTells(a);
      if sides[a.z][a.q] == 0 {
        assert a !in Blocks();
        SameBytes(Bytes(), a);
        return;
      }
      LengthTells(a);
      var n := SideData.Length(sides[a.z][..], a.q);
      FreeBlock(a, n);
    }

    lemma SameBytes(m: map<Addr, int>, a: Addr)
      ensures BytesKept(m, m, a, 0)
    {}

    lemma StartTells(a: Addr)
      requires Valid() && 0 <= a.z < |sides| && 0 <= a.q < limit && (a in Blocks() || sides[a.z][a.q] == 0)
      ensures sides[a.z][a.q] == 0 <==> a !in Blocks()
    {
      if a in chunks {
        StartByteTells(a);
      }
    }

    lemma LengthTells(a: Addr)
      requires Parts() && a in Blocks() && 0 <= a.z < |sides|
      ensures 0 <= a.q < limit && (SideData.HasSize(sides[a.z][a.q]) ==> a.q + 1 < limit)
      ensures SideData.Length(sides[a.z][..], a.q) == chunks[a].len
    {
      assert SideOk(a.z) && a.q in rows[a.z];
      SideData.LengthIs(sides[a.z][..], rows[a.z], a.q);
    }

    method FreeBlock(a: Addr, n: int)
      requires Valid() && a in Blocks() && n == chunks[a].len && 0 <= a.z < |sides|
      modifies this`chunks, this`rows, this`inUse, cache, set z | 0 <= z < |sides| :: sides[z]
      ensures Valid() && Blocks() == old(Blocks()) - {a} && BytesKept(old(Bytes()), Bytes(), a, n)
    {
      hide BytesKept, Bytes, NodesOk, SidesOk, Merged, Territory, Tiles, SameBefore, EdgeKnown, NextUsed, PriorUsed,
        Around, NodeFor;
      StartFreeing(a);
      FreeNodes();
      BlockStays(a);
      var highwater := inUse[a.z];
      var bytes, c := MergeNext(a, n);
      var s, total, d := MergePrior(a, bytes, c);
      Settle(a, n, highwater, s, total, d);
    }

    lemma BlockStays(a: Addr)
      requires a in Blocks()
      ensures a in chunks && !chunks[a].free && Blocks()[a] == chunks[a].len
    {}

    lemma FreeNodes()
      requires NodesOk(chunks, {})
      ensures forall b | b in chunks && chunks[b].free :: NodeFor(chunks, b)
    {
      forall b | b in chunks && chunks[b].free ensures NodeFor(chunks, b) {}
    }

    lemma SettledMerged(d: Chunks, s: Addr)
      requires MergedBut(d, s) && s in d && NextUsed(d, s) && PriorUsed(d, s)
      ensures Merged(d)
    {
      forall b | b in d ensures NoPair(d, b) {
        if b != s && End(d, b) != s {
          assert NoPair(d, b);
        }
      }
    }

    lemma LooseIsOneMore(d: Chunks, s: Addr)
      requires Tiles(d, inUse) && s in d && d[s].free
      ensures OneMore(d, {s}, d, s)
    {
      assert InBounds(d, inUse, s);
      forall b | b in d && d[b].free && b != s ensures Last(d, b) != Last(d, s) {
        SameEnd(d, inUse, b, s);
      }
    }

    /** A freed chunk that does not reach the territory. */
    lemma SettledTerritory(d: Chunks, a: Addr, s: Addr)
      requires Territory(chunks, inUse, active, limit) && AwayFromTerritory(d, s) && a in chunks && s in d && s.z == a.z
      requires 0 <= a.z < |inUse| && EdgeKnown(d, a, s) && (End(chunks, a).q != inUse[a.z] || inUse[a.z] >= limit)
      ensures Territory(d, inUse, active, limit)
    {}

    /** A freed chunk at the high water of the active subzone. */
    lemma BecomesTerritory(d: Chunks, s: Addr)
      requires Territory(chunks, inUse, active, limit) && Around(d, s) && Merged(d) && PriorUsed(d, s)
      requires 0 <= s.z < |inUse| && End(d, s).q == inUse[s.z] < limit
      ensures Tiles(d - {s}, inUse[s.z := s.q]) && Merged(d - {s})
      ensures Territory(d - {s}, inUse[s.z := s.q], active, limit)
      ensures NodesOk(d - {s}, {}) && BlocksOf(d - {s}) == BlocksOf(d)
    {
      var e := d - {s};
      assert InBounds(d, inUse, s);
      DropTiles(d, inUse, s);
      forall b | b in e ensures NoPair(e, b) {
        assert NoPair(d, b);
      }
      forall b | b in e && e[b].free ensures NodeFor(e, b) {
        assert NodeFor(d, b);
      }
      forall k, i | 0 <= k < |cache.lists| && 0 <= i < |cache.lists[k]| ensures ListedFor(e, {}, k, i) {
        assert ListedFor(d, {s}, k, i);
      }
    }

    /** Clears the side data of a freed block. */
    method ClearSide(a: Addr, n: int, ghost d: Chunks)
      requires Shape() && SidesOk() && 0 <= a.z < |sides| && a in Blocks() && n == Blocks()[a]
      requires BlocksOf(d) == Blocks() - {a}
      modifies this`chunks, this`rows, sides[a.z]
      ensures chunks == d && SidesOk() && BytesKept(old(Bytes()), Bytes(), a, n)
    {
      hide BlocksOf, SideData.Describes, Bytes, BytesKept;
      assert SideOk(a.z);
      RowOf(a);
      RowRemoved(Blocks(), rows, a);
      hide Rows;
      EraseSide(a, n, rows[a.z]);
      chunks := d;
      rows := rows[a.z := rows[a.z] - {a.q}];
      OtherSides(a);
    }

    lemma RowOf(a: Addr)
      requires SidesOk() && 0 <= a.z < |sides| && a in Blocks()
      ensures a.q in rows[a.z] && rows[a.z][a.q] == Blocks()[a]
    {
      hide BlocksOf;
    }

    method EraseSide(a: Addr, n: int, ghost row: map<int, int>)
      requires Shape() && 0 <= a.z < |sides| && SideData.Describes(sides[a.z][..], row) && a.q in row && row[a.q] == n
      modifies sides[a.z]
      ensures SideData.Describes(sides[a.z][..], row - {a.q})
      ensures forall z | 0 <= z < |sides| && z != a.z :: sides[z][..] == old(sides[z][..])
      ensures BytesKept(old(Bytes()), Bytes(), a, n)
    {
      InRow(sides[a.z][..], row, a.q);
      hide SideData.Describes, Bytes, BytesKept;
      SideData.Deallocate(sides[a.z], a.q, n, row);
      OneSideWritten(a, n);
    }

    lemma InRow(side: seq<int>, row: map<int, int>, q: int)
      requires SideData.Describes(side, row) && q in row
      ensures 0 <= q && 1 <= row[q] && q + row[q] <= |side|
    {}

    /** The merged chunk s becomes territory or a node; the side data of the block is cleared. */
    method Settle(a: Addr, n: int, highwater: int, s: Addr, bytes: int, ghost d: Chunks)
      requires Parts() && a in Blocks() && n == chunks[a].len && 0 <= a.z < |inUse| && highwater == inUse[a.z]
      requires Around(d, s) && BlocksOf(d) == Blocks() - {a} && NextUsed(d, s) && PriorUsed(d, s)
      requires s.z == a.z && bytes == d[s].len * qsize && EdgeKnown(d, a, s)
      modifies this`chunks, this`rows, this`inUse, cache, set z | 0 <= z < |sides| :: sides[z]
      ensures Valid() && Blocks() == old(Blocks()) - {a} && BytesKept(old(Bytes()), Bytes(), a, n)
    {
      hide BytesKept, Bytes, Tiles, Merged, Territory, BlocksOf, SidesOk, NodesOk, MergedBut, Shape, Valid,
        AwayFromTerritory;
      SettledMerged(d, s);
      BlockEnd(a, n);
      if a.q + n == highwater && highwater < limit {
        GiveBack(a, n, s, bytes, d);
      } else {
        PutAside(a, n, s, bytes, d);
      }
    }

    lemma BlockEnd(a: Addr, n: int)
      requires a in Blocks() && n == chunks[a].len
      ensures a in chunks && End(chunks, a) == Addr(a.z, a.q + n) && Blocks()[a] == n
    {}

    /** The merged chunk at the high water becomes territory. */
    method GiveBack(a: Addr, n: int, s: Addr, bytes: int, ghost d: Chunks)
      requires Parts() && a in Blocks() && n == Blocks()[a] && 0 <= a.z < |inUse|
      requires Around(d, s) && BlocksOf(d) == Blocks() - {a} && Merged(d) && PriorUsed(d, s)
      requires s.z == a.z && bytes == d[s].len * qsize && End(d, s).q == inUse[a.z] < limit
      modifies this`chunks, this`rows, this`inUse, cache, set z | 0 <= z < |sides| :: sides[z]
      ensures Valid() && Blocks() == old(Blocks()) - {a} && BytesKept(old(Bytes()), Bytes(), a, n)
    {
      hide BytesKept, Bytes, Tiles, Merged, Territory, BlocksOf, SidesOk, NodesOk, MergedBut, AwayFromTerritory;
      BecomesTerritory(d, s);
      Lower(s, bytes, d);
      hide Around, PriorUsed;
      ClearSide(a, n, d - {s});
    }

    method Lower(s: Addr, bytes: int, ghost d: Chunks)
      requires Shape() && SidesOk() && Around(d, s) && 0 <= s.z < |inUse| && End(d, s).q == inUse[s.z]
      requires bytes == d[s].len * qsize
      modifies this`inUse
      ensures Shape() && SidesOk() && inUse == old(inUse)[s.z := s.q]
    {
      assert InBounds(d, inUse, s);
      hide Tiles, SidesOk, NodesOk, MergedBut, AwayFromTerritory;
      SizeSlot(d[s].len);
      inUse := inUse[s.z := inUse[s.z] - cache.QuantumCount(bytes)];
    }

    /** The merged chunk goes onto a free list. */
    method PutAside(a: Addr, n: int, s: Addr, bytes: int, ghost d: Chunks)
      requires Parts() && a in Blocks() && n == Blocks()[a] && 0 <= a.z < |inUse| && a in chunks
      requires Around(d, s) && BlocksOf(d) == Blocks() - {a} && Merged(d)
      requires s.z == a.z && bytes == d[s].len * qsize && EdgeKnown(d, a, s)
      requires End(chunks, a).q != inUse[a.z] || inUse[a.z] >= limit
      modifies this`chunks, this`rows, this`inUse, cache, set z | 0 <= z < |sides| :: sides[z]
      ensures Valid() && Blocks() == old(Blocks()) - {a} && BytesKept(old(Bytes()), Bytes(), a, n)
    {
      hide BytesKept, Bytes, Tiles, Merged, Territory, BlocksOf, SidesOk, NodesOk, MergedBut, AwayFromTerritory,
        EdgeKnown;
      SettledTerritory(d, a, s);
      LooseIsOneMore(d, s);
      hide OneMore;
      PushFree(s, bytes, d, {s}, d);
      hide Around;
      ClearSide(a, n, d);
    }

    // ----- free space -----

    /** What free_space has passed when it has left the nodes above position i of list m behind. */
    ghost predicate Passed(a: Addr, m: int, i: int)
      reads cache`place
    {
      a in cache.place && (cache.place[a].0 < m || (cache.place[a].0 == m && cache.place[a].1 > i))
    }

    ghost predicate Seen(seen: set<Addr>, m: int, i: int)
      reads this`chunks, cache`place
    {
      forall a :: a in seen <==> a in chunks && chunks[a].free && Passed(a, m, i)
    }

    /** The sum of the sizes of all nodes is the space of all free quanta. */
    method FreeSpace() returns (bytes: int)
      requires Valid()
      ensures bytes == |Quanta(chunks, FreeChunks(chunks))| * qsize
    {
      bytes := 0;
      ghost var seen: set<Addr> := {};
      FreeNodes();
      assert Quanta(chunks, {}) == {};
      var m := 0;
      while m < CACHE_SIZE
        invariant 0 <= m <= CACHE_SIZE && Seen(seen, m, |if m < CACHE_SIZE then cache.lists[m] else []|)
        invariant bytes == |Quanta(chunks, seen)| * qsize
      {
        bytes, seen := ListSpace(m, bytes, seen);
        m := m + 1;
      }
      AllSeen(seen);
    }

    method ListSpace(m: int, before: int, ghost seen: set<Addr>) returns (bytes: int, ghost now: set<Addr>)
      requires Valid() && 0 <= m < CACHE_SIZE && Seen(seen, m, |cache.lists[m]|)
      requires before == |Quanta(chunks, seen)| * qsize
      ensures Seen(now, m + 1, |if m + 1 < CACHE_SIZE then cache.lists[m + 1] else []|)
      ensures bytes == |Quanta(chunks, now)| * qsize
    {
      bytes, now := before, seen;
      var node := cache.heads[m];
      ghost var i := |cache.lists[m]| - 1;
      SeenNone(seen, m);
      hide Seen, Quanta, Valid;
      while node.Some?
        invariant -1 <= i < |cache.lists[m]| && node == if i >= 0 then Some(cache.lists[m][i]) else None
        invariant Seen(now, m, i) && bytes == |Quanta(chunks, now)| * qsize
        decreases i
      {
        bytes, now, node := PassNode(node.value, m, i, bytes, now);
        i := i - 1;
      }
      SeenList(now, m);
    }

    /** Adds the size of one node and goes on to the next. */
    method PassNode(a: Addr, m: int, ghost i: int, before: int, ghost seen: set<Addr>)
      returns (bytes: int, ghost now: set<Addr>, node: Option<Addr>)
      requires Valid() && 0 <= m < CACHE_SIZE && 0 <= i < |cache.lists[m]| && Seen(seen, m, i)
      requires a == cache.lists[m][i] && before == |Quanta(chunks, seen)| * qsize
      ensures node == if i > 0 then Some(cache.lists[m][i - 1]) else None
      ensures Seen(now, m, i - 1) && bytes == |Quanta(chunks, now)| * qsize
    {
      hide Seen, Quanta, Tiles, Merged, Territory, SidesOk;
      SeenOneMore(seen, m, i);
      assert cache.NodeLinked(cache.lists[m], i);
      bytes, now := before + cache.size[a], seen + {a};
      node := cache.next[a];
    }

    lemma SeenNone(seen: set<Addr>, m: int)
      requires Valid() && 0 <= m < CACHE_SIZE && Seen(seen, m, |cache.lists[m]|)
      ensures Seen(seen, m, |cache.lists[m]| - 1)
    {
      forall a | a in chunks && chunks[a].free
        ensures Passed(a, m, |cache.lists[m]|) <==> Passed(a, m, |cache.lists[m]| - 1)
      {
        assert NodeFor(chunks, a);
      }
    }

    lemma SeenList(seen: set<Addr>, m: int)
      requires Valid() && 0 <= m < CACHE_SIZE && Seen(seen, m, -1)
      ensures Seen(seen, m + 1, |if m + 1 < CACHE_SIZE then cache.lists[m + 1] else []|)
    {
      forall a | a in chunks && chunks[a].free
        ensures Passed(a, m, -1) <==> Passed(a, m + 1, |if m + 1 < CACHE_SIZE then cache.lists[m + 1] else []|)
      {
        assert NodeFor(chunks, a);
      }
    }

    lemma SeenOneMore(seen: set<Addr>, m: int, i: int)
      requires Valid() && 0 <= m < CACHE_SIZE && 0 <= i < |cache.lists[m]| && Seen(seen, m, i)
      ensures
        var a := cache.lists[m][i];
        && a in cache.size && cache.size[a] + |Quanta(chunks, seen)| * qsize == |Quanta(chunks, seen + {a})| * qsize
        && Seen(seen + {a}, m, i - 1)
    {
      var a := cache.lists[m][i];
      assert ListedFor(chunks, {}, m, i) && cache.Placed(m, i) && NodeFor(chunks, a);
      OneMoreChunk(chunks, inUse, seen, a);
      Distributes(|Quanta(chunks, seen)|, chunks[a].len, qsize);
      forall b | b in chunks && chunks[b].free && b != a ensures Passed(b, m, i) <==> Passed(b, m, i - 1) {
        assert NodeFor(chunks, b);
      }
    }

    lemma AllSeen(seen: set<Addr>)
      requires Valid() && Seen(seen, CACHE_SIZE, 0)
      ensures seen == FreeChunks(chunks)
    {
      forall a | a in chunks && chunks[a].free ensures a in seen {
        assert NodeFor(chunks, a);
      }
    }

    /** Blocks, free space and territory always add up to the memory of the subzones. */
    lemma BytesConserved(free: int)
      requires Valid() && free == |Quanta(chunks, FreeChunks(chunks))| * qsize
      ensures |Quanta(chunks, UsedChunks(chunks))| * qsize + free + |Unused(inUse, limit)| * qsize
              == |sides| * limit * qsize
    {
      Conservation(chunks, inUse, limit);
    }

    // ----- memory that is in use -----

    /** Whatever is written into an allocated block, the free lists stay as they are. */
    method Overwrite(a: Addr, q: int, prev: Option<Addr>, next: Option<Addr>, first: int, last: int)
      requires Valid() && a in Blocks() && Holds(chunks, a, a.z, q)
      modifies cache`prev, cache`next, cache`size, cache`footer
      ensures Valid() && Blocks() == old(Blocks())
    {
      var x := Addr(a.z, q);
      assert !cache.Listed(x) by {
        forall k, i | 0 <= k < |cache.lists| && 0 <= i < |cache.lists[k]| ensures cache.lists[k][i] != x {
          assert ListedFor(chunks, {}, k, i);
          NotOverwritten(a, q, cache.lists[k][i]);
        }
      }
      cache.Overwrite(x, prev, next, first, last);
      forall b | b in chunks && chunks[b].free ensures NodeFor(chunks, b) {
        assert old(NodeFor(chunks, b));
        NotOverwritten(a, q, b);
      }
      forall k, i | 0 <= k < |cache.lists| && 0 <= i < |cache.lists[k]| ensures ListedFor(chunks, {}, k, i) {
        assert old(ListedFor(chunks, {}, k, i));
      }
    }

    lemma NotOverwritten(a: Addr, q: int, b: Addr)
      requires Tiles(chunks, inUse) && a in Blocks() && Holds(chunks, a, a.z, q) && b in chunks && chunks[b].free
      ensures b != Addr(a.z, q) && Last(chunks, b) != Addr(a.z, q)
    {
      assert InBounds(chunks, inUse, b);
      if b.z == a.z && Holds(chunks, b, a.z, q) {
        QuantumHasOneChunk(chunks, inUse, a, b, a.z, q);
      }
    }

    // ----- subzones -----

    /** Gives the admin a new subzone of territory unless it still has some. */
    method AddSubzone() returns (added: bool)
      requires Valid()
      modifies this`sides, this`inUse, this`active, this`rows, this`remaining
      ensures Valid() && chunks == old(chunks)
      ensures added <==> old(active) != NO_SUBZONE || old(remaining) > 0
      ensures added ==> active != NO_SUBZONE
      ensures !added ==> remaining == 0
      ensures |sides| >= |old(sides)| && sides[..|old(sides)|] == old(sides)
      ensures forall z | |old(sides)| <= z < |sides| :: fresh(sides[z])
      ensures added && old(active) == NO_SUBZONE ==> remaining == old(remaining) - 1
      ensures old(active) != NO_SUBZONE ==> remaining == old(remaining)
      ensures Extends(old(Bytes()), Bytes())
    {
      hide Valid, Extends, Bytes;
      SameExtends(Bytes());
      if active != NO_SUBZONE {
        return true;
      }
      if remaining == 0 {
        return false;
      }
      Activate();
      return true;
    }

    lemma SameExtends(m: map<Addr, int>)
      ensures Extends(m, m)
    {}

    /** Makes a new subzone the active one. */
    method Activate()
      requires Valid() && active == NO_SUBZONE && remaining > 0
      modifies this`sides, this`inUse, this`active, this`rows, this`remaining
      ensures Valid() && active != NO_SUBZONE && remaining == old(remaining) - 1
      ensures |sides| == |old(sides)| + 1 && sides[..|old(sides)|] == old(sides) && fresh(sides[|old(sides)|])
      ensures Extends(old(Bytes()), Bytes())
    {
      hide Extends, Bytes, Tiles, Merged, BlocksOf, NodesOk, Territory, Rows, SideOk, SideData.Describes;
      NewSubzoneTiles(chunks, inUse);
      NewTerritory();
      var side := new int[limit](_ => 0);
      NothingDescribed(side[..]);
      remaining := remaining - 1;
      active := |sides|;
      sides, inUse, rows := sides + [side], inUse + [0], rows + [map[]];
      SidesAdded(side);
    }

    lemma NothingDescribed(side: seq<int>)
      requires forall i | 0 <= i < |side| :: side[i] == 0
      ensures SideData.Describes(side, map[])
    {}

    twostate lemma SidesAdded(new side: array<int>)
      requires sides == old(sides) + [side] && rows == old(rows) + [map[]] && |old(sides)| == |old(rows)|
      requires forall z | 0 <= z < |old(sides)| :: sides[z][..] == old(sides[z][..]) && old(SideOk(z))
      requires SideData.Describes(side[..], map[])
      ensures Extends(old(Bytes()), Bytes()) && forall z | 0 <= z < |sides| :: SideOk(z)
    {
      forall x | x in old(Bytes()) ensures x in Bytes() && Bytes()[x] == old(Bytes())[x] {
        assert sides[x.z][..][x.q] == old(sides[x.z][..])[x.q];
      }
      forall z | 0 <= z < |sides| ensures SideOk(z) {
        assert z < |old(sides)| ==> old(SideOk(z)) && sides[z][..] == old(sides[z][..]);
      }
    }

    lemma NewTerritory()
      requires Valid() && active == NO_SUBZONE
      ensures Territory(chunks, inUse + [0], |inUse|, limit) && Rows(Blocks(), rows + [map[]])
    {
      forall a | a in chunks ensures 0 <= a.z < |inUse| {
        assert InBounds(chunks, inUse, a);
      }
    }

    /** The region's retry loop. A request fails only when no free chunk is large enough, there is no
        territory and no subzone can be added. */
    method Allocate(bytes: int, layout: nat, refcountIsOne: bool) returns (r: Option<Addr>)
      requires Valid() && 1 <= bytes <= (CACHE_SIZE - 1) * qsize && layout < 4
      modifies this, cache, set z | 0 <= z < |sides| :: sides[z]
      ensures Valid()
      ensures r.Some? ==> r.value !in old(Blocks()) && Blocks() == old(Blocks())[r.value := cache.QuantumCount(bytes)]
      ensures r.Some? ==> r.value in Blocks() && RoundedUp(Blocks()[r.value], bytes)
      ensures r.Some? ==> Labelled(r.value, layout, refcountIsOne)
      ensures r.Some? ==> BytesKept(old(Bytes()), Bytes(), r.value, cache.QuantumCount(bytes))
      ensures r == None ==> chunks == old(chunks)
      ensures r == None <==>
                old(NothingFits(cache.QuantumCount(bytes))) && old(active) == NO_SUBZONE && old(remaining) == 0
    {
      var n := cache.QuantumCount(bytes);
      SizeServed(bytes);
      hide Valid, NothingFits, Labelled, BytesKept, Bytes, Extends, RoundedUp;
      var grew: bool;
      r, grew := FindAllocation(bytes, layout, refcountIsOne);
      while r == None
        invariant Valid()
        invariant r == None ==>
                    chunks == old(chunks) && sides == old(sides) && active == NO_SUBZONE && remaining == old(remaining)
        invariant r == None ==>
                    Bytes() == old(Bytes()) && old(NothingFits(n)) && NothingFits(n) && old(active) == NO_SUBZONE
        invariant r.Some? ==> r.value !in old(Blocks()) && Blocks() == old(Blocks())[r.value := n]
        invariant r.Some? ==> Labelled(r.value, layout, refcountIsOne) && BytesKept(old(Bytes()), Bytes(), r.value, n)
        invariant r.Some? ==> !(old(NothingFits(n)) && old(active) == NO_SUBZONE && old(remaining) == 0)
        decreases r == None
      {
        var added;
        added, r := AddAndTry(bytes, layout, refcountIsOne);
        if !added {
          return None;
        }
      }
    }

    /** One round of the loop: a new subzone serves any request. */
    method AddAndTry(bytes: int, layout: nat, refcountIsOne: bool) returns (added: bool, r: Option<Addr>)
      requires Valid() && active == NO_SUBZONE && 1 <= bytes <= (CACHE_SIZE - 1) * qsize && layout < 4
      modifies this, cache, set z | 0 <= z < |sides| :: sides[z]
      ensures Valid() && (added <==> old(remaining) > 0) && (added <==> r.Some?)
      ensures !added ==> chunks == old(chunks)
      ensures r.Some? ==> r.value !in old(Blocks()) && Blocks() == old(Blocks())[r.value := cache.QuantumCount(bytes)]
      ensures r.Some? ==> r.value in Blocks() && RoundedUp(Blocks()[r.value], bytes)
      ensures r.Some? ==> Labelled(r.value, layout, refcountIsOne)
      ensures r.Some? ==> BytesKept(old(Bytes()), Bytes(), r.value, cache.QuantumCount(bytes))
    {
      var n := cache.QuantumCount(bytes);
      SizeServed(bytes);
      hide Valid, NothingFits, Labelled, BytesKept, Bytes, Extends, RoundedUp;
      added := AddSubzone();
      if !added {
        return false, None;
      }
      ghost var between := Bytes();
      var grew: bool;
      r, grew := FindAllocation(bytes, layout, refcountIsOne);
      BytesKeptTwice(old(Bytes()), between, Bytes(), r.value, n);
    }
  }

  lemma Distributes(x: int, y: int, k: int)
    ensures (x + y) * k == x * k + y * k
  {}

  lemma WithoutLast<T>(l: seq<T>)
    requires |l| > 0
    ensures l[..|l|-1] + l[|l|-1+1..] == l[..|l|-1]
  {}
}
