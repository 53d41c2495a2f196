/**
 How subzones are divided: every quantum below a subzone's high water belongs to exactly one
 chunk, a block or a free node.
 */
module Tiling {
  import opened FreeLists

  datatype Chunk = Chunk(len: int, free: bool)

  type Chunks = map<Addr, Chunk>

  function End(chunks: Chunks, a: Addr): (e: Addr)
    requires a in chunks
  {
    Addr(a.z, a.q + chunks[a].len)
  }

  ghost predicate InBounds(chunks: Chunks, inUse: seq<int>, a: Addr)
    requires a in chunks
  {
    0 <= a.z < |inUse| && 0 <= a.q && chunks[a].len >= 1 && a.q + chunks[a].len <= inUse[a.z]
  }

  ghost predicate Apart(chunks: Chunks, a: Addr, b: Addr)
    requires a in chunks && b in chunks
  {
    a.z == b.z && a.q < b.q ==> a.q + chunks[a].len <= b.q
  }

  /** a reaches the high water or another chunk. */
  ghost predicate Followed(chunks: Chunks, inUse: seq<int>, a: Addr)
    requires a in chunks
  {
    (0 <= a.z < |inUse| && End(chunks, a).q == inUse[a.z]) || End(chunks, a) in chunks
  }

  /** The chunks of a subzone follow one another from its first quantum to its high water. */
  ghost predicate Tiles(chunks: Chunks, inUse: seq<int>) {
    && (forall a {:trigger InBounds(chunks, inUse, a)} | a in chunks :: InBounds(chunks, inUse, a))
    && (forall a, b | a in chunks && b in chunks :: Apart(chunks, a, b))
    && (forall z | 0 <= z < |inUse| && inUse[z] > 0 :: Addr(z, 0) in chunks)
    && (forall a {:trigger Followed(chunks, inUse, a)} | a in chunks :: Followed(chunks, inUse, a))
  }

  predicate Holds(chunks: Chunks, a: Addr, z: int, q: int) {
    a in chunks && a.z == z && a.q <= q < a.q + chunks[a].len
  }

  /** Every quantum below the high water is in some chunk. */
  lemma {:induction false} QuantumHasChunk(chunks: Chunks, inUse: seq<int>, z: int, q: int) returns (a: Addr)
    requires Tiles(chunks, inUse) && 0 <= z < |inUse| && 0 <= q < inUse[z]
    ensures Holds(chunks, a, z, q)
    decreases q
  {
    if q == 0 {
      a := Addr(z, 0);
      assert InBounds(chunks, inUse, a);
    } else {
      a := QuantumHasChunk(chunks, inUse, z, q - 1);
      assert InBounds(chunks, inUse, a) && Followed(chunks, inUse, a);
      if q >= a.q + chunks[a].len {
        a := End(chunks, a);
        assert InBounds(chunks, inUse, a);
      }
    }
  }

  /** ... and in no other. */
  lemma QuantumHasOneChunk(chunks: Chunks, inUse: seq<int>, a: Addr, b: Addr, z: int, q: int)
    requires Tiles(chunks, inUse) && Holds(chunks, a, z, q) && Holds(chunks, b, z, q)
    ensures a == b
  {
    assert Apart(chunks, a, b) && Apart(chunks, b, a);
  }

  /** The chunk that ends where a starts. */
  lemma Prior(chunks: Chunks, inUse: seq<int>, a: Addr) returns (p: Addr)
    requires Tiles(chunks, inUse) && a in chunks && a.q > 0
    ensures p in chunks && End(chunks, p) == a && p != a
  {
    assert InBounds(chunks, inUse, a);
    p := QuantumHasChunk(chunks, inUse, a.z, a.q - 1);
    assert InBounds(chunks, inUse, p) && Apart(chunks, p, a);
  }

  // ----- edits -----

  function Relabelled(chunks: Chunks, a: Addr, free: bool): (after: Chunks)
    requires a in chunks
  {
    chunks[a := Chunk(chunks[a].len, free)]
  }

  lemma RelabelTiles(chunks: Chunks, inUse: seq<int>, a: Addr, free: bool)
    requires Tiles(chunks, inUse) && a in chunks
    ensures Tiles(Relabelled(chunks, a, free), inUse)
  {
    var after := Relabelled(chunks, a, free);
    forall b | b in after ensures InBounds(after, inUse, b) && Followed(after, inUse, b) {
      assert InBounds(chunks, inUse, b) && Followed(chunks, inUse, b);
    }
    forall b, c | b in after && c in after ensures Apart(after, b, c) {
      assert Apart(chunks, b, c);
    }
  }

  /** a is cut after n quanta. */
  function Cut(chunks: Chunks, a: Addr, n: int): (after: Chunks)
    requires a in chunks
  {
    chunks[a := Chunk(n, chunks[a].free)][Addr(a.z, a.q + n) := Chunk(chunks[a].len - n, chunks[a].free)]
  }

  lemma CutTiles(chunks: Chunks, inUse: seq<int>, a: Addr, n: int)
    requires Tiles(chunks, inUse) && a in chunks && 0 < n < chunks[a].len
    ensures Tiles(Cut(chunks, a, n), inUse)
    ensures Addr(a.z, a.q + n) !in chunks
  {
    var after, m := Cut(chunks, a, n), Addr(a.z, a.q + n);
    assert InBounds(chunks, inUse, a) && Followed(chunks, inUse, a);
    assert m in chunks ==> Apart(chunks, a, m);
    forall b | b in after ensures InBounds(after, inUse, b) && Followed(after, inUse, b) {
      if b != m {
        assert InBounds(chunks, inUse, b) && Followed(chunks, inUse, b);
      }
    }
    forall b, c | b in after && c in after ensures Apart(after, b, c) {
      var b0, c0 := if b == m then a else b, if c == m then a else c;
      assert Apart(chunks, b0, c0) && Apart(chunks, c0, b0);
      assert b0 != a ==> InBounds(chunks, inUse, b0);
      assert c0 != a ==> InBounds(chunks, inUse, c0);
    }
  }

  /** a and the chunk that follows it become one. */
  function Join(chunks: Chunks, a: Addr): (after: Chunks)
    requires a in chunks && End(chunks, a) in chunks
  {
    var b := End(chunks, a);
    (chunks - {b})[a := Chunk(chunks[a].len + chunks[b].len, chunks[a].free)]
  }

  /** Chunks that end at the same place are the same. */
  lemma SameEnd(chunks: Chunks, inUse: seq<int>, a: Addr, c: Addr)
    requires Tiles(chunks, inUse) && a in chunks && c in chunks
    ensures End(chunks, a) == End(chunks, c) ==> a == c
  {
    assert Apart(chunks, c, a) && Apart(chunks, a, c);
    assert InBounds(chunks, inUse, a) && InBounds(chunks, inUse, c);
  }

  lemma JoinApart(chunks: Chunks, inUse: seq<int>, a: Addr, c: Addr, d: Addr)
    requires Tiles(chunks, inUse) && a in chunks && End(chunks, a) in chunks
    requires c in Join(chunks, a) && d in Join(chunks, a)
    ensures Apart(Join(chunks, a), c, d)
  {
    assert Apart(chunks, c, d);
    if c == a {
      assert Apart(chunks, End(chunks, a), d) && InBounds(chunks, inUse, d);
    }
  }

  lemma JoinFollowed(chunks: Chunks, inUse: seq<int>, a: Addr, c: Addr)
    requires Tiles(chunks, inUse) && a in chunks && End(chunks, a) in chunks && c in Join(chunks, a)
    ensures InBounds(Join(chunks, a), inUse, c) && Followed(Join(chunks, a), inUse, c)
  {
    var b := End(chunks, a);
    assert InBounds(chunks, inUse, c) && Followed(chunks, inUse, c);
    assert InBounds(chunks, inUse, b) && Followed(chunks, inUse, b);
    SameEnd(chunks, inUse, a, c);
  }

  lemma JoinTiles(chunks: Chunks, inUse: seq<int>, a: Addr)
    requires Tiles(chunks, inUse) && a in chunks && End(chunks, a) in chunks
    ensures Tiles(Join(chunks, a), inUse) && End(chunks, a) != a
    ensures End(Join(chunks, a), a) == End(chunks, End(chunks, a))
  {
    var after := Join(chunks, a);
    assert InBounds(chunks, inUse, a) && InBounds(chunks, inUse, End(chunks, a));
    hide InBounds, Followed, Apart;
    forall c | c in after ensures InBounds(after, inUse, c) && Followed(after, inUse, c) {
      JoinFollowed(chunks, inUse, a, c);
    }
    forall c, d | c in after && d in after ensures Apart(after, c, d) {
      JoinApart(chunks, inUse, a, c, d);
    }
    forall z | 0 <= z < |inUse| && inUse[z] > 0 ensures Addr(z, 0) in after {
      FirstStays(chunks, inUse, a, z);
    }
  }

  lemma FirstStays(chunks: Chunks, inUse: seq<int>, a: Addr, z: int)
    requires Tiles(chunks, inUse) && a in chunks && End(chunks, a) in chunks && 0 <= z < |inUse| && inUse[z] > 0
    ensures Addr(z, 0) in Join(chunks, a)
  {
    assert InBounds(chunks, inUse, a);
  }

  /** Territory at the high water of z becomes a chunk. */
  lemma ExtendTiles(chunks: Chunks, inUse: seq<int>, z: int, n: int, free: bool)
    requires Tiles(chunks, inUse) && 0 <= z < |inUse| && n > 0 && inUse[z] >= 0
    ensures Tiles(chunks[Addr(z, inUse[z]) := Chunk(n, free)], inUse[z := inUse[z] + n])
    ensures Addr(z, inUse[z]) !in chunks
  {
    var a := Addr(z, inUse[z]);
    var after, use := chunks[a := Chunk(n, free)], inUse[z := inUse[z] + n];
    assert a in chunks ==> InBounds(chunks, inUse, a);
    forall c | c in after ensures InBounds(after, use, c) && Followed(after, use, c) {
      if c != a {
        assert InBounds(chunks, inUse, c) && Followed(chunks, inUse, c);
      }
    }
    forall c, d | c in after && d in after ensures Apart(after, c, d) {
      if c != a {
        assert InBounds(chunks, inUse, c);
      }
      if d != a {
        assert InBounds(chunks, inUse, d);
      }
      if c != a && d != a {
        assert Apart(chunks, c, d);
      }
    }
  }

  /** The last chunk of its subzone becomes territory again. */
  lemma DropTiles(chunks: Chunks, inUse: seq<int>, a: Addr)
    requires Tiles(chunks, inUse) && a in chunks && 0 <= a.z < |inUse| && End(chunks, a).q == inUse[a.z]
    ensures Tiles(chunks - {a}, inUse[a.z := a.q])
  {
    var after, use := chunks - {a}, inUse[a.z := a.q];
    assert InBounds(chunks, inUse, a);
    forall c | c in after ensures InBounds(after, use, c) && Followed(after, use, c) {
      assert InBounds(chunks, inUse, c) && Followed(chunks, inUse, c);
      assert Apart(chunks, c, a) && Apart(chunks, a, c);
    }
    forall c, d | c in after && d in after ensures Apart(after, c, d) {
      assert Apart(chunks, c, d);
    }
  }

  lemma NewSubzoneTiles(chunks: Chunks, inUse: seq<int>)
    requires Tiles(chunks, inUse)
    ensures Tiles(chunks, inUse + [0])
  {
    forall c | c in chunks ensures InBounds(chunks, inUse + [0], c) && Followed(chunks, inUse + [0], c) {
      assert InBounds(chunks, inUse, c) && Followed(chunks, inUse, c);
    }
    assert forall c, d | c in chunks && d in chunks :: Apart(chunks, c, d);
  }

  // ----- counting -----

  /** The quanta of one chunk. */
  ghost function Span(z: int, q: int, n: int): (s: set<Addr>) {
    set i | q <= i < q + n :: Addr(z, i)
  }

  lemma {:induction false} SpanSize(z: int, q: int, n: nat)
    ensures |Span(z, q, n)| == n
    decreases n
  {
    if n == 0 {
      assert Span(z, q, 0) == {};
    } else {
      SpanSize(z, q, n - 1);
      assert Span(z, q, n) == Span(z, q, n - 1) + {Addr(z, q + n - 1)};
    }
  }

  /** The quanta of some of the chunks. */
  ghost function Quanta(chunks: Chunks, some: set<Addr>): (s: set<Addr>) {
    set a, q | a in some && a in chunks && a.q <= q < a.q + chunks[a].len :: Addr(a.z, q)
  }

  lemma InQuanta(chunks: Chunks, some: set<Addr>, x: Addr)
    ensures x in Quanta(chunks, some) <==> exists a :: a in some && Holds(chunks, a, x.z, x.q)
  {
    if a :| a in some && Holds(chunks, a, x.z, x.q) {
      assert Addr(a.z, x.q) == x;
    }
  }

  lemma OneMoreChunk(chunks: Chunks, inUse: seq<int>, some: set<Addr>, a: Addr)
    requires Tiles(chunks, inUse) && a in chunks && a !in some
    ensures |Quanta(chunks, some + {a})| == |Quanta(chunks, some)| + chunks[a].len
  {
    assert InBounds(chunks, inUse, a);
    var before, span := Quanta(chunks, some), Span(a.z, a.q, chunks[a].len);
    SpanSize(a.z, a.q, chunks[a].len);
    hide Quanta, Tiles;
    forall x ensures x in Quanta(chunks, some + {a}) <==> x in before || x in span {
      InQuanta(chunks, some, x);
      InQuanta(chunks, some + {a}, x);
      assert x in span <==> Holds(chunks, a, x.z, x.q);
    }
    forall x | x in before ensures x !in span {
      InQuanta(chunks, some, x);
      var b :| b in some && Holds(chunks, b, x.z, x.q);
      if x in span {
        QuantumHasOneChunk(chunks, inUse, a, b, x.z, x.q);
      }
    }
    assert Quanta(chunks, some + {a}) == before + span && before !! span;
  }

  ghost function FreeChunks(chunks: Chunks): (s: set<Addr>) {
    set a | a in chunks && chunks[a].free
  }

  ghost function UsedChunks(chunks: Chunks): (s: set<Addr>) {
    set a | a in chunks && !chunks[a].free
  }

  /** The quanta at or above the high waters. */
  ghost function Unused(inUse: seq<int>, limit: int): (s: set<Addr>) {
    set z, q | 0 <= z < |inUse| && inUse[z] <= q < limit :: Addr(z, q)
  }

  ghost function All(zones: int, limit: int): (s: set<Addr>) {
    set z, q | 0 <= z < zones && 0 <= q < limit :: Addr(z, q)
  }

  lemma {:induction false} AllSize(zones: nat, limit: nat)
    ensures |All(zones, limit)| == zones * limit
    decreases zones
  {
    if zones == 0 {
      assert All(0, limit) == {};
    } else {
      AllSize(zones - 1, limit);
      SpanSize(zones - 1, 0, limit);
      LastZone(zones, limit);
      assert (zones - 1) * limit + limit == zones * limit;
    }
  }

  lemma LastZone(zones: nat, limit: nat)
    requires zones > 0
    ensures |All(zones, limit)| == |All(zones - 1, limit)| + |Span(zones - 1, 0, limit)|
  {
    assert All(zones, limit) == All(zones - 1, limit) + Span(zones - 1, 0, limit);
    assert All(zones - 1, limit) !! Span(zones - 1, 0, limit);
  }

  /** Every quantum is in one block, in one free chunk or unused: none is lost and none is shared. */
  lemma Conservation(chunks: Chunks, inUse: seq<int>, limit: nat)
    requires Tiles(chunks, inUse) && forall z | 0 <= z < |inUse| :: 0 <= inUse[z] <= limit
    ensures |Quanta(chunks, UsedChunks(chunks))| + |Quanta(chunks, FreeChunks(chunks))| + |Unused(inUse, limit)|
            == |inUse| * limit
  {
    var used, free := Quanta(chunks, UsedChunks(chunks)), Quanta(chunks, FreeChunks(chunks));
    var unused := Unused(inUse, limit);
    AllSize(|inUse|, limit);
    hide Quanta, All, Unused, Tiles;
    forall x ensures x in used ==> x !in free {
      UsedNotFree(chunks, inUse, x);
    }
    forall x ensures x in All(|inUse|, limit) <==> x in used || x in free || x in unused {
      Accounted(chunks, inUse, limit, x);
    }
    forall x ensures x in used || x in free ==> x !in unused {
      Accounted(chunks, inUse, limit, x);
    }
    Partition(All(|inUse|, limit), used, free, unused);
  }

  lemma Partition(all: set<Addr>, a: set<Addr>, b: set<Addr>, c: set<Addr>)
    requires forall x :: x in all <==> x in a || x in b || x in c
    requires (forall x | x in a :: x !in b) && (forall x | x in a || x in b :: x !in c)
    ensures |a| + |b| + |c| == |all|
  {
    assert all == (a + b) + c && a !! b && (a + b) !! c;
  }

  lemma UsedNotFree(chunks: Chunks, inUse: seq<int>, x: Addr)
    requires Tiles(chunks, inUse)
    ensures x in Quanta(chunks, UsedChunks(chunks)) ==> x !in Quanta(chunks, FreeChunks(chunks))
  {
    var used, free := UsedChunks(chunks), FreeChunks(chunks);
    InQuanta(chunks, used, x);
    InQuanta(chunks, free, x);
    hide Quanta, Tiles;
    if x in Quanta(chunks, used) && x in Quanta(chunks, free) {
      var a :| a in used && Holds(chunks, a, x.z, x.q);
      var b :| b in free && Holds(chunks, b, x.z, x.q);
      QuantumHasOneChunk(chunks, inUse, a, b, x.z, x.q);
    }
  }

  lemma Accounted(chunks: Chunks, inUse: seq<int>, limit: nat, x: Addr)
    requires Tiles(chunks, inUse) && forall z | 0 <= z < |inUse| :: 0 <= inUse[z] <= limit
    ensures
      var inChunk := x in Quanta(chunks, UsedChunks(chunks)) || x in Quanta(chunks, FreeChunks(chunks));
      (x in All(|inUse|, limit) <==> inChunk || x in Unused(inUse, limit)) && !(inChunk && x in Unused(inUse, limit))
  {
    var used, free := UsedChunks(chunks), FreeChunks(chunks);
    InQuanta(chunks, used, x);
    InQuanta(chunks, free, x);
    hide Quanta;
    assert x in All(|inUse|, limit) <==> 0 <= x.z < |inUse| && 0 <= x.q < limit;
    assert x in Unused(inUse, limit) <==> 0 <= x.z < |inUse| && inUse[x.z] <= x.q < limit;
    if a :| a in chunks && Holds(chunks, a, x.z, x.q) {
      assert InBounds(chunks, inUse, a);
      assert a in used || a in free;
    } else if 0 <= x.z < |inUse| && 0 <= x.q < inUse[x.z] {
      var a := QuantumHasChunk(chunks, inUse, x.z, x.q);
    }
  }
}
