/**
 The heap as the collector sees it: words of memory, allocated blocks, registered roots,
 thread stacks, associations and the write-barrier cards, together with the reference
 definition of which blocks a collection must keep.

 Addresses are counted in words (4 bytes), so a card of 128 bytes is 32 words and the
 scanner's 1024-byte chunk is 256 words.
 */
module Heap {

  const CARD_WORDS := 32

  /** How the words of a block are scanned: conservatively, through the map of strong slots
      (skip, run nibbles), or through the map of weak slots (run, skip nibbles). */
  datatype Layout = Conservative | StrongMap(bytes: seq<nat>) | WeakMap(bytes: seq<nat>)

  datatype Block = Block(size: nat, scanned: bool, layout: Layout, refcount: nat, isNew: bool)

  /** Smaller values than the lowest managed address, and values that are not aligned to a quantum of
      four words, are never mistaken for blocks. */
  predicate Plausible(lowest: int, v: int) {
    v >= lowest && v % 4 == 0
  }

  /** Words lo, lo+1, ..., hi-1. */
  datatype Range = Range(lo: int, hi: int)

  datatype Heap = Heap(
    mem: map<int, int>,             // contents of every readable word
    blocks: map<int, Block>,        // allocated blocks by start address
    order: seq<int>,                // the order in which the block iterator visits them
    assoc: map<int, seq<int>>,      // associated values by owner
    owners: seq<int>,               // the order in which the owners are visited
    cards: seq<int>,                // write-barrier cards, 0 means unmarked
    roots: seq<int>,                // registered root words
    threads: seq<Range>,            // stacks and registers, first pass
    external: seq<Range>,           // ranges handed in by the external callout
    suspended: seq<seq<Range>>)     // stacks and registers, one entry per suspended thread

  predicate In(r: Range, w: int) {
    r.lo <= w < r.hi
  }

  ghost function Words(r: Range): set<int> {
    set w | r.lo <= w < r.hi && In(r, w)
  }

  ghost function AllWords(rs: seq<Range>): set<int> {
    if rs == [] then {} else Words(rs[0]) + AllWords(rs[1..])
  }

  /** The run one layout byte describes, at position at: a strong map skips the high nibble and
      scans the low one, a weak map scans the high nibble and skips the low one. */
  function Run(strong: bool, byte: nat, at: int): (r: Range) {
    if strong then Range(at + byte / 16, at + byte / 16 + byte % 16) else Range(at, at + byte / 16)
  }

  /** The sub-ranges of a block that its layout map lets the scanner read; what follows the
      last run is read conservatively. */
  function MapRanges(strong: bool, bytes: seq<nat>, at: int, end: int): (rs: seq<Range>)
  {
    if bytes == [] then [Range(at, end)]
    else [Run(strong, bytes[0], at)] + MapRanges(strong, bytes[1..], at + bytes[0] / 16 + bytes[0] % 16, end)
  }

  function LayoutRanges(b: int, k: Block): (rs: seq<Range>) {
    match k.layout
    case Conservative => [Range(b, b + k.size)]
    case StrongMap(bytes) => MapRanges(true, bytes, b, b + k.size)
    case WeakMap(bytes) => MapRanges(false, bytes, b, b + k.size)
  }

  function MapSpan(bytes: seq<nat>): nat {
    if bytes == [] then 0 else bytes[0] / 16 + bytes[0] % 16 + MapSpan(bytes[1..])
  }

  /** A layout map does not describe words past the end of its block. */
  predicate LayoutFits(k: Block) {
    k.layout.Conservative? || MapSpan(k.layout.bytes) <= k.size
  }

  ghost predicate Readable(h: Heap, r: Range) {
    forall w | In(r, w) :: w in h.mem
  }

  ghost predicate AllReadable(h: Heap, rs: seq<Range>) {
    forall i | 0 <= i < |rs| :: rs[i].lo <= rs[i].hi && Readable(h, rs[i])
  }

  ghost predicate ValidHeap(h: Heap) {
    && (forall b :: b in h.blocks <==> b in h.order)
    && (forall b | b in h.blocks ::
          && b > 0 && h.blocks[b].size > 0 && LayoutFits(h.blocks[b])
          && Readable(h, Range(b, b + h.blocks[b].size))
          && b + h.blocks[b].size <= CARD_WORDS * |h.cards|)
    && (forall i | 0 <= i < |h.order| :: h.order[i] in h.blocks)
    && (forall b :: b in h.assoc <==> b in h.owners)
    && (forall i | 0 <= i < |h.roots| :: h.roots[i] in h.mem)
    && AllReadable(h, h.threads)
    && AllReadable(h, h.external)
    && (forall i | 0 <= i < |h.suspended| :: AllReadable(h, h.suspended[i]))
  }

  /** A value the scanner would mark: a block start, and in a partial collection a new one. */
  predicate Eligible(h: Heap, partial: bool, v: int) {
    v in h.blocks && (partial ==> h.blocks[v].isNew)
  }

  predicate CardMarked(h: Heap, w: int) {
    0 <= w && w / CARD_WORDS < |h.cards| && h.cards[w / CARD_WORDS] != 0
  }

  /** The words a collection reads of a block it keeps: what the layout lets it see, and for
      an old block in a partial collection only the words on marked cards. */
  ghost function Traced(h: Heap, partial: bool, b: int): set<int>
    requires b in h.blocks
  {
    var k := h.blocks[b];
    if !k.scanned then {}
    else if partial && !k.isNew then set w | b <= w < b + k.size && CardMarked(h, w)
    else AllWords(LayoutRanges(b, k))
  }

  /** Words read unconditionally: registered roots, stacks, external memory. */
  ghost function RootWords(h: Heap): set<int> {
    (set i | 0 <= i < |h.roots| :: h.roots[i])
    + AllWords(h.threads) + AllWords(h.external)
    + (set i, w | 0 <= i < |h.suspended| && w in AllWords(h.suspended[i]) :: w)
  }

  /** Blocks kept without being referenced. */
  predicate Pinned(h: Heap, partial: bool, queue: seq<int>, b: int)
    requires b in h.blocks
  {
    h.blocks[b].refcount > 0 || (partial && !h.blocks[b].isNew) || b in queue
  }

  /** v is what some traced word of b holds, or one of b's associated values. */
  ghost predicate Refers(h: Heap, partial: bool, b: int, v: int) {
    b in h.blocks &&
    ((exists w :: w in Traced(h, partial, b) && w in h.mem && h.mem[w] == v)
     || (b in h.assoc && v in h.assoc[b]))
  }

  ghost predicate HeldByRoot(h: Heap, v: int) {
    exists w :: w in RootWords(h) && w in h.mem && h.mem[w] == v
  }

  ghost predicate StartsLive(h: Heap, partial: bool, queue: seq<int>, b: int) {
    b in h.blocks && (Pinned(h, partial, queue, b) || (Eligible(h, partial, b) && HeldByRoot(h, b)))
  }

  /** A path of references from a block that is kept anyway. */
  ghost predicate IsTrace(h: Heap, partial: bool, queue: seq<int>, p: seq<int>) {
    && |p| > 0
    && StartsLive(h, partial, queue, p[0])
    && forall i | 0 < i < |p| :: Eligible(h, partial, p[i]) && Refers(h, partial, p[i-1], p[i])
  }

  /** Reference definition of liveness: the blocks some path of references reaches. */
  ghost predicate Live(h: Heap, partial: bool, queue: seq<int>, b: int) {
    exists p :: IsTrace(h, partial, queue, p) && p[|p|-1] == b
  }

  ghost function LiveSet(h: Heap, partial: bool, queue: seq<int>): set<int> {
    set b | b in h.blocks && Live(h, partial, queue, b)
  }

  /** A set of blocks that contains all starting points and whatever its members refer to. */
  ghost predicate Closed(h: Heap, partial: bool, queue: seq<int>, s: set<int>) {
    && (forall b | StartsLive(h, partial, queue, b) :: b in s)
    && (forall b, v | b in s && Eligible(h, partial, v) && Refers(h, partial, b, v) :: v in s)
  }

  /** Adding one reference to a path extends the live set. */
  lemma LiveExtends(h: Heap, partial: bool, queue: seq<int>, b: int, v: int)
    requires Live(h, partial, queue, b) && Eligible(h, partial, v) && Refers(h, partial, b, v)
    ensures Live(h, partial, queue, v)
  {
    var p :| IsTrace(h, partial, queue, p) && p[|p|-1] == b;
    var q := p + [v];
    assert IsTrace(h, partial, queue, q) && q[|q|-1] == v;
  }

  lemma StartIsLive(h: Heap, partial: bool, queue: seq<int>, b: int)
    requires StartsLive(h, partial, queue, b)
    ensures Live(h, partial, queue, b)
  {
    assert IsTrace(h, partial, queue, [b]) && [b][|[b]|-1] == b;
  }

  lemma LiveSetClosed(h: Heap, partial: bool, queue: seq<int>)
    ensures Closed(h, partial, queue, LiveSet(h, partial, queue))
  {
    forall b | StartsLive(h, partial, queue, b) ensures b in LiveSet(h, partial, queue) {
      StartIsLive(h, partial, queue, b);
    }
    forall b, v | b in LiveSet(h, partial, queue) && Eligible(h, partial, v) && Refers(h, partial, b, v)
      ensures v in LiveSet(h, partial, queue)
    {
      LiveExtends(h, partial, queue, b, v);
    }
  }

  lemma {:induction false} TraceStaysInside(h: Heap, partial: bool, queue: seq<int>, p: seq<int>, s: set<int>)
    requires IsTrace(h, partial, queue, p) && Closed(h, partial, queue, s)
    ensures p[|p|-1] in s
    decreases |p|
  {
    if |p| > 1 {
      var q := p[..|p|-1];
      assert IsTrace(h, partial, queue, q);
      TraceStaysInside(h, partial, queue, q, s);
    }
  }

  /** The live set is the least closed set. */
  lemma LiveSetLeast(h: Heap, partial: bool, queue: seq<int>, s: set<int>)
    requires Closed(h, partial, queue, s)
    ensures LiveSet(h, partial, queue) <= s
  {
    forall b | b in LiveSet(h, partial, queue) ensures b in s {
      var p :| IsTrace(h, partial, queue, p) && p[|p|-1] == b;
      TraceStaysInside(h, partial, queue, p, s);
    }
  }
}
