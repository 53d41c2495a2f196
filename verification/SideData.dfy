/**
 The side data of a subzone: one byte per quantum. A block's first byte has the start bit; a
 block of several quanta has the size bit there, its length less one in the second byte, and an
 end mark in its last byte. All other bytes are zero.
 */
module SideData {

  const START_BIT := 0x40
  const SIZE_BIT := 0x80
  const MAXIMUM_QUANTA := 64
  const R0_A5 := 0xd
  const R1_A5 := 0xf

  predicate IsStart(byte: int) {
    (byte / START_BIT) % 2 == 1
  }

  predicate HasSize(byte: int) {
    (byte / SIZE_BIT) % 2 == 1
  }

  function AgeRef(byte: int): (code: int) {
    (byte / 4) % 16
  }

  function StartByte(n: nat, ageRef: nat, layout: nat): (byte: int) {
    START_BIT + (if n != 1 then SIZE_BIT else 0) + 4 * ageRef + layout
  }

  lemma StartByteDecodes(n: nat, ageRef: nat, layout: nat)
    requires ageRef < 16 && layout < 4
    ensures
      var b := StartByte(n, ageRef, layout);
      0 < b < 256 && IsStart(b) && (HasSize(b) <==> n != 1) && AgeRef(b) == ageRef && b % 4 == layout
  {}

  /** The byte at offset k of a block of n quanta, other than the first. */
  function TailByte(n: int, k: int): (byte: int)
  {
    if k == 1 then n - 1 else if k == n - 1 then SIZE_BIT else 0
  }

  /** blocks maps the start of every block to its length in quanta. */
  ghost predicate Blocks(limit: nat, blocks: map<int, int>) {
    && (forall q | q in blocks :: 0 <= q && 1 <= blocks[q] <= MAXIMUM_QUANTA && q + blocks[q] <= limit)
    && (forall p, q | p in blocks && q in blocks && p < q :: p + blocks[p] <= q)
  }

  predicate Within(blocks: map<int, int>, q: int, i: int) {
    q in blocks && q <= i < q + blocks[q]
  }

  /** The bytes of a block of n quanta that starts at q. */
  ghost predicate BlockBytes(side: seq<int>, q: int, n: int) {
    && 0 <= q && 1 <= n && q + n <= |side|
    && IsStart(side[q]) && (HasSize(side[q]) <==> n != 1)
    && forall i | q < i < q + n :: side[i] == TailByte(n, i - q)
  }

  /** The bytes are those of the blocks. */
  ghost predicate Describes(side: seq<int>, blocks: map<int, int>) {
    && Blocks(|side|, blocks)
    && (forall q | q in blocks :: BlockBytes(side, q, blocks[q]))
    && (forall i | 0 <= i < |side| && side[i] != 0 :: exists q :: Within(blocks, q, i))
  }

  function Length(side: seq<int>, q: int): (n: int)
    requires 0 <= q < |side| && (HasSize(side[q]) ==> q + 1 < |side|)
  {
    if !HasSize(side[q]) then 1 else side[q + 1] + 1
  }

  lemma LengthIs(side: seq<int>, blocks: map<int, int>, q: int)
    requires Describes(side, blocks) && q in blocks
    ensures 0 <= q < |side| && (HasSize(side[q]) ==> q + 1 < |side|)
    ensures Length(side, q) == blocks[q]
  {
    assert BlockBytes(side, q, blocks[q]);
  }

  lemma TailIsNoStart(n: int, k: int)
    requires 0 < k < n <= MAXIMUM_QUANTA
    ensures !IsStart(TailByte(n, k))
  {}

  /** A start bit is found at block starts and nowhere else: a length byte never looks like one. */
  lemma StartsAreBlocks(side: seq<int>, blocks: map<int, int>, i: int)
    requires Describes(side, blocks) && 0 <= i < |side|
    ensures IsStart(side[i]) <==> i in blocks
  {
    if i in blocks {
      assert BlockBytes(side, i, blocks[i]);
    } else if IsStart(side[i]) {
      var q :| Within(blocks, q, i);
      assert BlockBytes(side, q, blocks[q]);
      TailIsNoStart(blocks[q], i - q);
    }
  }

  /** The first and the last byte of a block are not zero. */
  lemma EndsAreNonzero(side: seq<int>, blocks: map<int, int>, q: int)
    requires Describes(side, blocks) && q in blocks
    ensures 0 <= q && q + blocks[q] <= |side|
    ensures side[q] != 0 && side[q + blocks[q] - 1] != 0
  {
    assert BlockBytes(side, q, blocks[q]);
  }

  method Allocate(side: array<int>, q: nat, n: nat, layout: nat, refcountIsOne: bool, ghost blocks: map<int, int>)
    requires Describes(side[..], blocks) && 1 <= n <= MAXIMUM_QUANTA && q + n <= side.Length && layout < 4
    requires forall p | p in blocks :: p + blocks[p] <= q || q + n <= p
    modifies side
    ensures Describes(side[..], blocks[q := n])
    ensures AgeRef(side[q]) == (if refcountIsOne then R1_A5 else R0_A5) && side[q] % 4 == layout
    ensures forall i | 0 <= i < side.Length && !(q <= i < q + n) :: side[i] == old(side[i])
  {
    ghost var s0 := side[..];
    var ageRef := if refcountIsOne then R1_A5 else R0_A5;
    FreeBytesAreZero(s0, blocks, q, n);
    side[q] := StartByte(n, ageRef, layout);
    if n != 1 {
      side[q + 1] := n - 1;
      if n > 2 {
        side[q + n - 1] := SIZE_BIT;
      }
    }
    StartByteDecodes(n, ageRef, layout);
    AllocateDescribes(s0, side[..], blocks, q, n);
  }

  lemma FreeBytesAreZero(side: seq<int>, blocks: map<int, int>, q: int, n: int)
    requires Describes(side, blocks) && 0 <= q && q + n <= |side|
    requires forall p | p in blocks :: p + blocks[p] <= q || q + n <= p
    ensures forall i | q <= i < q + n :: side[i] == 0
  {}

  /** The bytes of a block are those of its own quanta. */
  lemma SameBytes(s0: seq<int>, s1: seq<int>, q: int, n: int)
    requires BlockBytes(s0, q, n) && |s1| == |s0| && forall i | q <= i < q + n :: s1[i] == s0[i]
    ensures BlockBytes(s1, q, n)
  {
    forall i | q < i < q + n ensures s1[i] == TailByte(n, i - q) {
      assert s0[i] == TailByte(n, i - q);
    }
  }

  lemma AllocateDescribes(s0: seq<int>, s1: seq<int>, blocks: map<int, int>, q: int, n: int)
    requires Describes(s0, blocks) && |s1| == |s0| && n <= MAXIMUM_QUANTA && BlockBytes(s1, q, n)
    requires 0 <= q && 1 <= n && q + n <= |s0|
    requires forall p | p in blocks :: p + blocks[p] <= q || q + n <= p
    requires forall i | 0 <= i < |s0| && !(q <= i < q + n) :: s1[i] == s0[i]
    ensures Describes(s1, blocks[q := n])
  {
    hide BlockBytes;
    var after := blocks[q := n];
    forall p | p in after ensures BlockBytes(s1, p, after[p]) {
      if p != q {
        SameBytes(s0, s1, p, blocks[p]);
      }
    }
    forall i | 0 <= i < |s1| && s1[i] != 0 ensures exists p :: Within(after, p, i) {
      if q <= i < q + n {
        assert Within(after, q, i);
      } else {
        var p :| Within(blocks, p, i);
        assert Within(after, p, i);
      }
    }
  }

  method Deallocate(side: array<int>, q: nat, n: nat, ghost blocks: map<int, int>)
    requires Describes(side[..], blocks) && q in blocks && blocks[q] == n
    modifies side
    ensures Describes(side[..], blocks - {q})
    ensures forall i | 0 <= i < side.Length :: side[i] == if q <= i < q + n then 0 else old(side[i])
  {
    ghost var s0 := side[..];
    assert BlockBytes(s0, q, n);
    if n > 1 {
      side[q + 1] := 0;
      if n > 2 {
        side[q + n - 1] := 0;
      }
    }
    side[q] := 0;
    DeallocateDescribes(s0, side[..], blocks, q);
  }

  lemma DeallocateDescribes(s0: seq<int>, s1: seq<int>, blocks: map<int, int>, q: int)
    requires Describes(s0, blocks) && q in blocks && |s1| == |s0|
    requires forall i | 0 <= i < |s0| :: s1[i] == if q <= i < q + blocks[q] then 0 else s0[i]
    ensures Describes(s1, blocks - {q})
  {
    hide BlockBytes;
    var after := blocks - {q};
    forall p | p in after ensures BlockBytes(s1, p, after[p]) {
      OtherBytes(s0, s1, blocks, q, p);
    }
    forall i | 0 <= i < |s1| && s1[i] != 0 ensures exists p :: Within(after, p, i) {
      UsedElsewhere(s0, blocks, q, i);
    }
  }

  /** Another block does not overlap the one that is freed. */
  lemma OtherBytes(s0: seq<int>, s1: seq<int>, blocks: map<int, int>, q: int, p: int)
    requires Describes(s0, blocks) && q in blocks && p in blocks && p != q && |s1| == |s0|
    requires forall i | 0 <= i < |s0| :: s1[i] == if q <= i < q + blocks[q] then 0 else s0[i]
    ensures BlockBytes(s1, p, blocks[p])
  {
    hide BlockBytes;
    assert p + blocks[p] <= q || q + blocks[q] <= p;
    SameBytes(s0, s1, p, blocks[p]);
  }

  lemma UsedElsewhere(side: seq<int>, blocks: map<int, int>, q: int, i: int)
    requires Describes(side, blocks) && 0 <= i < |side| && side[i] != 0
    requires q in blocks && !(q <= i < q + blocks[q])
    ensures exists p :: Within(blocks - {q}, p, i)
  {
    hide BlockBytes;
    var p :| Within(blocks, p, i);
    assert Within(blocks - {q}, p, i);
  }

  // ----- readers -----

  lemma UsedIsWithin(side: seq<int>, blocks: map<int, int>, i: int)
    requires Describes(side, blocks) && 0 <= i < |side| && side[i] != 0
    ensures exists q :: Within(blocks, q, i)
  {}

  /** The nearest start at or before i decides whether i lies in a block. */
  lemma NearestStart(side: seq<int>, blocks: map<int, int>, s: int, i: int)
    requires Describes(side, blocks) && 0 <= s <= i && s in blocks
    requires forall p | s < p <= i :: p !in blocks
    ensures (exists p :: Within(blocks, p, i)) <==> i - s < blocks[s]
    ensures forall p | Within(blocks, p, i) :: p == s
  {
    if i - s < blocks[s] {
      assert Within(blocks, s, i);
    }
  }

  lemma NoStart(side: seq<int>, blocks: map<int, int>, i: int)
    requires Describes(side, blocks) && forall p | 0 <= p <= i :: p !in blocks
    ensures forall p :: !Within(blocks, p, i)
  {}

  /** Whether quantum q lies in a block. */
  method IsUsed(side: seq<int>, q: nat, ghost blocks: map<int, int>) returns (used: bool)
    requires Describes(side, blocks) && q < |side|
    ensures used <==> exists p :: Within(blocks, p, q)
  {
    hide Describes, IsStart, HasSize, Length;
    if side[q] != 0 {
      UsedIsWithin(side, blocks, q);
      return true;
    }
    var s := q;
    while true
      invariant 0 <= s <= q
      invariant forall p | s < p <= q :: p !in blocks
      decreases s
    {
      StartsAreBlocks(side, blocks, s);
      if IsStart(side[s]) {
        LengthIs(side, blocks, s);
        NearestStart(side, blocks, s, q);
        return q - s < Length(side, s);
      }
      if s == 0 {
        NoStart(side, blocks, q);
        return false;
      }
      s := s - 1;
    }
  }

  /** The start of the block that contains quantum q, or -1. */
  method BlockStart(side: seq<int>, q: nat, ghost blocks: map<int, int>) returns (start: int)
    requires Describes(side, blocks) && q < |side|
    ensures if start >= 0 then Within(blocks, start, q) else forall p :: !Within(blocks, p, q)
  {
    hide Describes, IsStart, HasSize, Length;
    var s: int := q;
    while s >= 0
      invariant -1 <= s <= q
      invariant forall p | s < p <= q :: p !in blocks
    {
      StartsAreBlocks(side, blocks, s);
      if IsStart(side[s]) {
        LengthIs(side, blocks, s);
        NearestStart(side, blocks, s, q);
        return if q - s < Length(side, s) then s else -1;
      }
      s := s - 1;
    }
    NoStart(side, blocks, q);
    return -1;
  }

  /** The next place to look: past the block that starts at q, or the next block start. */
  method NextQuantum(side: seq<int>, q: nat, ghost blocks: map<int, int>) returns (nq: nat)
    requires Describes(side, blocks) && q < |side|
    ensures q < nq <= |side|
    ensures q in blocks ==> nq == q + blocks[q]
    ensures q !in blocks ==> forall p | q < p < nq :: p !in blocks
  {
    StartsAreBlocks(side, blocks, q);
    if IsStart(side[q]) {
      LengthIs(side, blocks, q);
      nq := q + Length(side, q);
    } else {
      nq := NextStart(side, q, blocks);
    }
  }

  method NextStart(side: seq<int>, q: nat, ghost blocks: map<int, int>) returns (nq: nat)
    requires Describes(side, blocks) && q < |side|
    ensures q < nq <= |side| && forall p | q < p < nq :: p !in blocks
  {
    hide Describes, IsStart;
    nq := q + 1;
    while nq < |side| && !IsStart(side[nq])
      invariant q < nq <= |side|
      invariant forall p | q < p < nq :: p !in blocks
    {
      StartsAreBlocks(side, blocks, nq);
      nq := nq + 1;
    }
  }

  /** Outside the blocks met so far, a quantum is used exactly when a block starts there. */
  lemma UsedIsStart(side: seq<int>, blocks: map<int, int>, q: int)
    requires Describes(side, blocks) && 0 <= q < |side|
    requires forall p | p in blocks && p < q :: p + blocks[p] <= q
    ensures side[q] != 0 <==> q in blocks
  {
    if q in blocks {
      EndsAreNonzero(side, blocks, q);
    }
  }

  lemma BlocksInside(side: seq<int>, blocks: map<int, int>)
    requires Describes(side, blocks)
    ensures forall q | q in blocks :: 0 <= q < |side| && q + blocks[q] <= |side|
    ensures forall p, q | p in blocks && q in blocks && p < q :: p + blocks[p] <= q
  {}

  /** The iterator: it visits every block exactly once, in address order. */
  method VisitAllocated(side: seq<int>, ghost blocks: map<int, int>) returns (visited: seq<nat>)
    requires Describes(side, blocks)
    ensures forall q :: q in blocks <==> q in visited
    ensures forall i, j | 0 <= i < j < |visited| :: visited[i] < visited[j]
  {
    hide Describes;
    BlocksInside(side, blocks);
    visited := [];
    var q := 0;
    while q < |side|
      invariant 0 <= q <= |side|
      invariant forall p | p in blocks && p < q :: p in visited && p + blocks[p] <= q
      invariant forall i | 0 <= i < |visited| :: visited[i] < q && visited[i] in blocks
      invariant forall i, j | 0 <= i < j < |visited| :: visited[i] < visited[j]
    {
      UsedIsStart(side, blocks, q);
      if side[q] != 0 {
        visited := visited + [q];
      }
      var nq := NextQuantum(side, q, blocks);
      q := nq;
    }
  }
}
