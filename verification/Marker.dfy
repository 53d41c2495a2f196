/**
 The sequential marker: a bounded scan stack of tagged cells, the fallback to pending bits
 when it overflows, exact and conservative scanning, card scanning for partial collections,
 the enlivening queue and the associative references.
 */
module Marker {
  import opened Heap

  const CHUNK_WORDS := 256

  /** What the cells of the scan stack stand for. */
  datatype Entry = BlockEntry(b: int) | RangeEntry(r: Range)

  /** A block is one cell holding its address; a range is its end below its start with the low bit set. */
  function Encode(e: Entry): (cells: seq<int>) {
    match e
    case BlockEntry(b) => [4 * b]
    case RangeEntry(r) => [4 * r.hi, 4 * r.lo + 1]
  }

  function EncodeAll(es: seq<Entry>): (cells: seq<int>) {
    if es == [] then [] else EncodeAll(es[..|es|-1]) + Encode(es[|es|-1])
  }

  lemma EncodePush(es: seq<Entry>, e: Entry)
    ensures EncodeAll(es + [e]) == EncodeAll(es) + Encode(e)
  {
    assert (es + [e])[..|es|] == es;
  }

  lemma {:induction false} TopCell(es: seq<Entry>)
    requires EncodeAll(es) != []
    ensures es != []
    ensures (EncodeAll(es)[|EncodeAll(es)|-1] % 2 == 1) == es[|es|-1].RangeEntry?
  {
    var below := EncodeAll(es[..|es|-1]);
    match es[|es|-1]
    case BlockEntry(b) => assert EncodeAll(es) == below + [4 * b];
    case RangeEntry(r) => assert EncodeAll(es) == below + [4 * r.hi, 4 * r.lo + 1];
  }

  /** The work an entry stands for: more than the cells it takes and the words it leads to. */
  ghost function EntryWeight(h: Heap, e: Entry): nat {
    match e
    case BlockEntry(b) => BlockWeight(h, b)
    case RangeEntry(r) => if r.lo <= r.hi then r.hi - r.lo + 2 else 2
  }

  function BlockWeight(h: Heap, b: int): nat {
    if b in h.blocks then h.blocks[b].size + 1 else 1
  }

  /** Work left on the stack. */
  ghost function Weight(h: Heap, es: seq<Entry>): nat {
    if es == [] then 0 else Weight(h, es[..|es|-1]) + EntryWeight(h, es[|es|-1])
  }

  lemma WeightPush(h: Heap, es: seq<Entry>, e: Entry)
    ensures Weight(h, es + [e]) == Weight(h, es) + EntryWeight(h, e)
  {
    assert (es + [e])[..|es|] == es;
  }

  lemma {:induction false} CellsWithinWeight(h: Heap, es: seq<Entry>)
    ensures |es| <= |EncodeAll(es)| <= Weight(h, es)
  {
    if es != [] {
      CellsWithinWeight(h, es[..|es|-1]);
    }
  }

  /** The work that marking the blocks not marked yet can put on the stack. */
  function Unreached(h: Heap, order: seq<int>, marked: set<int>): nat {
    if order == [] then 0
    else
      var b := order[|order|-1];
      Unreached(h, order[..|order|-1], marked) + if b in marked then 0 else BlockWeight(h, b)
  }

  lemma {:induction false} UnreachedShrinks(h: Heap, order: seq<int>, marked: set<int>, more: set<int>)
    requires marked <= more
    ensures Unreached(h, order, more) <= Unreached(h, order, marked)
  {
    if order != [] {
      UnreachedShrinks(h, order[..|order|-1], marked, more);
    }
  }

  /** Marking a block frees the work it stood for. */
  lemma {:induction false} MarkedIsReached(h: Heap, order: seq<int>, marked: set<int>, b: int)
    requires b in order && b !in marked
    ensures Unreached(h, order, marked + {b}) + BlockWeight(h, b) <= Unreached(h, order, marked)
  {
    var front, last := order[..|order|-1], order[|order|-1];
    if last == b {
      UnreachedShrinks(h, front, marked, marked + {b});
    } else {
      assert b in front;
      MarkedIsReached(h, front, marked, b);
    }
  }

  function Length(r: Range): nat {
    if r.lo <= r.hi then r.hi - r.lo else 0
  }

  /** The number of words of some ranges. */
  function Lengths(rs: seq<Range>): nat {
    if rs == [] then 0 else Lengths(rs[..|rs|-1]) + Length(rs[|rs|-1])
  }

  function StackLengths(rss: seq<seq<Range>>): nat {
    if rss == [] then 0 else StackLengths(rss[..|rss|-1]) + Lengths(rss[|rss|-1])
  }

  /** The number of words of the old blocks that a partial collection may read through their cards. */
  function OldWords(h: Heap, order: seq<int>): nat {
    if order == [] then 0
    else
      var b := order[|order|-1];
      OldWords(h, order[..|order|-1]) +
      if b in h.blocks && !h.blocks[b].isNew && h.blocks[b].scanned then h.blocks[b].size else 0
  }

  /** A number of cells that a collection of this heap never needs. */
  function StackBound(h: Heap, partial: bool): nat {
    Unreached(h, h.order, {}) + (if partial then OldWords(h, h.order) else 0) + |h.roots|
    + Lengths(h.threads) + Lengths(h.external) + StackLengths(h.suspended)
  }

  /** The retained blocks that have to be scanned. */
  function Retained(h: Heap): set<int> {
    set b | b in h.blocks && h.blocks[b].refcount > 0 && h.blocks[b].scanned
  }

  /** Blocks that are each on the stack take a cell each. */
  lemma {:induction false} EntriesCount(es: seq<Entry>, bs: set<int>)
    requires forall b | b in bs :: BlockEntry(b) in es
    ensures |bs| <= |es|
    decreases |es|
  {
    if es == [] {
      assert forall b :: b !in bs;
      assert bs == {};
    } else {
      var front, last := es[..|es|-1], es[|es|-1];
      if last.BlockEntry? {
        forall b | b in bs - {last.b} ensures BlockEntry(b) in front {
          assert BlockEntry(b) in es;
        }
        EntriesCount(front, bs - {last.b});
      } else {
        forall b | b in bs ensures BlockEntry(b) in front {
          assert BlockEntry(b) in es;
        }
        EntriesCount(front, bs);
      }
    }
  }

  /** The words an entry stands for; cover gives the words scanned of each block. */
  ghost function EntryWords(cover: map<int, set<int>>, e: Entry): set<int> {
    match e
    case BlockEntry(b) => if b in cover then cover[b] else {}
    case RangeEntry(r) => Words(r)
  }

  lemma AllWordsCons(r: Range, rs: seq<Range>)
    ensures AllWords([r] + rs) == Words(r) + AllWords(rs)
  {
    assert ([r] + rs)[1..] == rs;
  }

  lemma {:induction false} AllWordsSplit(rs: seq<Range>, i: nat)
    requires i < |rs|
    ensures AllWords(rs[..i+1]) == AllWords(rs[..i]) + Words(rs[i])
    ensures Words(rs[i]) <= AllWords(rs)
    decreases i
  {
    if i > 0 {
      AllWordsSplit(rs[1..], i - 1);
      assert rs[..i+1][1..] == rs[1..][..i] && rs[..i][1..] == rs[1..][..i-1];
    } else {
      assert rs[..1] == [rs[0]] + [];
      AllWordsCons(rs[0], []);
    }
  }

  lemma EncodeNonEmpty(es: seq<Entry>)
    requires es != []
    ensures EncodeAll(es) != []
  {}

  /** One byte of a layout map. */
  lemma MapStep(strong: bool, bytes: seq<nat>, i: nat, at: int, end: int)
    requires i < |bytes|
    ensures
      var r := Run(strong, bytes[i], at);
      var next := at + bytes[i] / 16 + bytes[i] % 16;
      && at <= r.lo <= r.hi <= next
      && MapSpan(bytes[i..]) == next - at + MapSpan(bytes[i+1..])
      && AllWords(MapRanges(strong, bytes[i..], at, end))
         == Words(r) + AllWords(MapRanges(strong, bytes[i+1..], next, end))
  {
    assert bytes[i..][1..] == bytes[i+1..];
    AllWordsCons(Run(strong, bytes[i], at), MapRanges(strong, bytes[i+1..], at + bytes[i] / 16 + bytes[i] % 16, end));
  }

  lemma MapEnd(strong: bool, at: int, end: int)
    ensures MapSpan([]) == 0 && AllWords(MapRanges(strong, [], at, end)) == Words(Range(at, end))
  {
    AllWordsCons(Range(at, end), []);
  }

  lemma {:induction false} MapInside(strong: bool, bytes: seq<nat>, at: int, end: int)
    requires at + MapSpan(bytes) <= end
    ensures AllWords(MapRanges(strong, bytes, at, end)) <= Words(Range(at, end))
    decreases |bytes|
  {
    hide MapRanges, MapSpan, AllWords;
    assert bytes[0..] == bytes;
    if bytes == [] {
      MapEnd(strong, at, end);
    } else {
      MapStep(strong, bytes, 0, at, end);
      MapInside(strong, bytes[1..], at + bytes[0] / 16 + bytes[0] % 16, end);
    }
  }

  lemma SpanSplits(bytes: seq<nat>, i: nat)
    requires i <= |bytes|
    ensures MapSpan(bytes[..i]) == if i == 0 then 0 else bytes[0] / 16 + bytes[0] % 16 + MapSpan(bytes[1..][..i-1])
  {
    if i > 0 {
      assert bytes[..i][1..] == bytes[1..][..i-1];
    }
  }

  /** What a layout map lets the scanner read: of the words that one byte describes, a strong map skips
      as many as the high nibble says and reads the rest, a weak map reads as many and skips the rest;
      all words behind the map are read. */
  lemma {:induction false} MapReads(strong: bool, bytes: seq<nat>, at: int, end: int, i: nat, w: int)
    requires at + MapSpan(bytes) <= end && i <= |bytes|
    requires at + MapSpan(bytes[..i]) <= w
    ensures i == |bytes| && w < end ==> w in AllWords(MapRanges(strong, bytes, at, end))
    ensures i < |bytes| && w < at + MapSpan(bytes[..i]) + bytes[i] / 16 + bytes[i] % 16 ==>
              (w in AllWords(MapRanges(strong, bytes, at, end)) <==>
               (strong <==> at + MapSpan(bytes[..i]) + bytes[i] / 16 <= w))
    decreases |bytes|
  {
    hide MapRanges, MapSpan, AllWords;
    assert bytes[0..] == bytes;
    SpanSplits(bytes, i);
    if bytes == [] {
      MapEnd(strong, at, end);
    } else {
      MapStep(strong, bytes, 0, at, end);
      var next := at + bytes[0] / 16 + bytes[0] % 16;
      if i == 0 {
        MapInside(strong, bytes[1..], next, end);
      } else {
        MapReads(strong, bytes[1..], next, end, i - 1, w);
      }
    }
  }

  /** The words of a block that a collection reads through a layout map, byte by byte of the map, and
      behind it. */
  lemma LayoutIsFollowed(h: Heap, partial: bool, b: int, i: nat, w: int)
    requires b in h.blocks && h.blocks[b].scanned && (partial ==> h.blocks[b].isNew)
    requires !h.blocks[b].layout.Conservative? && LayoutFits(h.blocks[b]) && i < |h.blocks[b].layout.bytes|
    ensures
      var bytes := h.blocks[b].layout.bytes;
      var p := b + MapSpan(bytes[..i]);
      && (p <= w < p + bytes[i] / 16 ==> (w in Traced(h, partial, b) <==> h.blocks[b].layout.WeakMap?))
      && (p + bytes[i] / 16 <= w < p + bytes[i] / 16 + bytes[i] % 16 ==>
            (w in Traced(h, partial, b) <==> h.blocks[b].layout.StrongMap?))
      && (b + MapSpan(bytes) <= w < b + h.blocks[b].size ==> w in Traced(h, partial, b))
  {
    hide MapSpan, MapRanges, AllWords;
    var k := h.blocks[b];
    var bytes, strong := k.layout.bytes, k.layout.StrongMap?;
    if b + MapSpan(bytes[..i]) <= w {
      MapReads(strong, bytes, b, b + k.size, i, w);
    }
    if b + MapSpan(bytes) <= w {
      assert bytes[..|bytes|] == bytes;
      MapReads(strong, bytes, b, b + k.size, |bytes|, w);
    }
  }

  /** w is one of the words of block b that the i-th byte of its layout map shows to the scanner, or lies
      behind the map. */
  ghost predicate ShownBy(h: Heap, b: int, i: nat, w: int)
    requires b in h.blocks
  {
    var k := h.blocks[b];
    && k.scanned && !k.layout.Conservative? && i < |k.layout.bytes|
    && var bytes := k.layout.bytes;
       var p := b + MapSpan(bytes[..i]);
       || (k.layout.StrongMap? && p + bytes[i] / 16 <= w < p + bytes[i] / 16 + bytes[i] % 16)
       || (k.layout.WeakMap? && p <= w < p + bytes[i] / 16)
       || b + MapSpan(bytes) <= w < b + k.size
  }

  /** Whatever a member holds in a word that its layout map shows is a member. */
  ghost predicate FollowsMaps(h: Heap, partial: bool, s: set<int>) {
    forall b, i: nat, w | b in s && b in h.blocks && (partial ==> h.blocks[b].isNew) && ShownBy(h, b, i, w) ::
      w in h.mem && (Eligible(h, partial, h.mem[w]) ==> h.mem[w] in s)
  }

  lemma LiveSetFollowsMaps(h: Heap, partial: bool, queue: seq<int>)
    requires ValidHeap(h)
    ensures FollowsMaps(h, partial, LiveSet(h, partial, queue))
  {
    var s := LiveSet(h, partial, queue);
    LiveSetClosed(h, partial, queue);
    forall b, i: nat, w | b in s && b in h.blocks && (partial ==> h.blocks[b].isNew) && ShownBy(h, b, i, w)
      ensures w in h.mem && (Eligible(h, partial, h.mem[w]) ==> h.mem[w] in s)
    {
      ShownIsTraced(h, partial, b, i, w);
      hide LiveSet, ValidHeap, ShownBy, Traced;
      if Eligible(h, partial, h.mem[w]) {
        assert Refers(h, partial, b, h.mem[w]);
      }
    }
  }

  lemma ShownIsTraced(h: Heap, partial: bool, b: int, i: nat, w: int)
    requires ValidHeap(h) && b in h.blocks && (partial ==> h.blocks[b].isNew) && ShownBy(h, b, i, w)
    ensures w in h.mem && w in Traced(h, partial, b)
  {
    LayoutIsFollowed(h, partial, b, i, w);
    var k := h.blocks[b];
    assert w in Traced(h, partial, b);
    MapInside(k.layout.StrongMap?, k.layout.bytes, b, b + k.size);
    hide MapSpan, MapRanges, AllWords;
    assert In(Range(b, b + k.size), w);
  }

  class Collector {
    const h: Heap
    const partial: bool
    const repair: bool                // cards are being repaired: scanned cards with new referents are re-marked
    const capacity: nat               // number of cells of the scan stack
    ghost const cover: map<int, set<int>>  // the words scanned of each block

    var cells: seq<int>               // the scan stack
    ghost var entries: seq<Entry>     // what its cells stand for
    var usePending: bool
    var somePending: bool
    var pending: set<int>
    var marked: set<int>
    var scanningAssoc: bool
    var shouldCoalesce: bool
    var coalesced: Range
    var cards: seq<int>
    var queue: seq<int>               // the enlivening queue
    var garbage: seq<int>
    var ages: map<int, nat>           // collections each block has to survive before it is old
    ghost var live: set<int>          // the set this pass has to mark
    ghost var resolved: set<int>      // words known not to be forgotten
    ghost var risk: set<int>          // words off the schedule and not scanned yet

    ghost predicate Overflow() reads this`cells {
      |cells| == capacity
    }

    /** The iterator visits every block. */
    ghost predicate Listed() {
      forall b | b in h.blocks :: b in h.order
    }

    /** Work on the stack, and work that marking more blocks can put there. */
    ghost function Potential(): nat reads this`entries, this`marked {
      Weight(h, entries) + Unreached(h, h.order, marked)
    }

    /** The potential has grown by x at most, and the stack overflows only if that is too much for it. */
    twostate predicate Spent(x: int)
      reads this`entries, this`marked, this`cells, this`usePending
    {
      !usePending ==>
        && Potential() <= old(Potential()) + x
        && (Overflow() && !old(Overflow()) ==> capacity <= old(Potential()) + x)
    }

    /** The pass has not lost any work. */
    ghost predicate Intact() reads this`cells, this`usePending {
      usePending || !Overflow()
    }

    ghost predicate RangeOk(r: Range) reads this`live {
      && r.lo <= r.hi && Readable(h, r)
      && forall w | In(r, w) && Eligible(h, partial, h.mem[w]) :: h.mem[w] in live
    }

    ghost predicate EntryOk(e: Entry) reads this`live, this`marked {
      match e
      case BlockEntry(b) => b in marked && Eligible(h, partial, b) && h.blocks[b].scanned
      case RangeEntry(r) => RangeOk(r)
    }

    /** The live set of this pass respects the references of eligible blocks. */
    ghost predicate LiveOk() reads this`live {
      && (forall b | b in cover :: cover[b] <= h.mem.Keys)
      && (forall b, w | b in live && Eligible(h, partial, b) && h.blocks[b].scanned && b in cover && w in cover[b]
            && w in h.mem && Eligible(h, partial, h.mem[w]) :: h.mem[w] in live)
      && (forall b, v | b in live && b in h.assoc && v in h.assoc[b] && Eligible(h, partial, v) :: v in live)
    }

    ghost predicate CardsOk() reads this`cards {
      |cards| == |h.cards| && forall i | 0 <= i < |cards| :: (cards[i] != 0) == (h.cards[i] != 0)
    }

    ghost predicate Valid()
      reads this`cells, this`usePending, this`entries, this`marked, this`pending, this`shouldCoalesce, this`coalesced
      reads this`live
    {
      && |cells| <= capacity
      && (usePending || Overflow() || cells == EncodeAll(entries))
      && (forall i | 0 <= i < |entries| :: EntryOk(entries[i]))
      && cover.Keys == h.blocks.Keys && marked <= h.blocks.Keys && marked <= live && Listed()
      && (forall b | b in pending :: EntryOk(BlockEntry(b)))
      && (shouldCoalesce ==> usePending && coalesced.lo >= 0 && RangeOk(coalesced))
      && (!shouldCoalesce ==> coalesced == Range(0, 0))
    }

    /** w is scheduled for scanning. */
    ghost predicate Todo(w: int)
      reads this`usePending, this`pending, this`entries, this`coalesced
    {
      || (if usePending then exists b :: b in pending && b in cover && w in cover[b]
          else exists e :: e in entries && w in EntryWords(cover, e))
      || In(coalesced, w)
    }

    /** The block held by w, if any, is marked or will be when the scheduled words are scanned. */
    ghost predicate Resolved(w: int)
      reads this`usePending, this`pending, this`entries, this`coalesced, this`marked
    {
      w in h.mem && Eligible(h, partial, h.mem[w]) ==> h.mem[w] in marked || Todo(w)
    }

    ghost predicate AssocClosed(b: int)
      reads this`marked
    {
      b in h.assoc ==> forall v | v in h.assoc[b] && Eligible(h, partial, v) :: v in marked
    }

    ghost predicate Pended(b: int)
      reads this`usePending, this`pending, this`entries
    {
      if usePending then b in pending else BlockEntry(b) in entries
    }

    /** Every marked block that has to be scanned is scheduled, unless work has been lost. */
    ghost predicate AllPended()
      reads this`usePending, this`pending, this`entries, this`cells, this`marked
    {
      Intact() ==> forall b | b in marked && Eligible(h, partial, b) && h.blocks[b].scanned :: Pended(b)
    }

    twostate predicate Grew()
      reads this
    {
      && old(marked) <= marked
      && (old(Overflow()) ==> Overflow())
    }

    twostate predicate NewAssocClosed()
      reads this
    {
      scanningAssoc ==> forall b | b in marked && b !in old(marked) :: AssocClosed(b)
    }

    /** Work was only added, and every newly marked block was scheduled. */
    twostate predicate Scheduled()
      reads this
    {
      Intact() ==>
        && (if usePending then old(pending) <= pending else forall e | e in old(entries) :: e in entries)
        && forall b | b in marked && b !in old(marked) && Eligible(h, partial, b) && h.blocks[b].scanned :: Pended(b)
    }

    /** Nothing was lost on the way. */
    twostate predicate Moved()
      reads this
    {
      Grew() && old(resolved) <= resolved && risk == old(risk)
    }

    /** Every word a marked block has to be scanned for is resolved, or at risk: it was taken off
        the schedule and is being scanned. */
    ghost predicate TriOk()
      reads this`marked, this`resolved, this`risk
    {
      Covered(marked, resolved + risk)
    }

    /** The words that blocks have to be scanned for are among these words. */
    ghost predicate Covered(bs: set<int>, words: set<int>) {
      forall b | b in bs && Eligible(h, partial, b) && h.blocks[b].scanned && b in cover :: cover[b] <= words
    }

    /** While associations are scanned, marked blocks have marked associated values. */
    ghost predicate AssocOk()
      reads this`marked, this`scanningAssoc
    {
      scanningAssoc ==> forall b | b in marked :: AssocClosed(b)
    }

    /** Invariant of scanning. */
    ghost predicate Mid()
      reads this
    {
      && Valid() && LiveOk() && CardsOk() && ResolvedOk() && TriOk() && AssocOk()
      && marked <= h.blocks.Keys
    }

    ghost predicate ResolvedOk()
      reads this`usePending, this`pending, this`entries, this`coalesced, this`marked, this`cells, this`resolved
    {
      resolved <= h.mem.Keys && (Intact() ==> forall w | w in resolved :: Resolved(w))
    }

    ghost function NowResolved(): (s: set<int>)
      reads this`usePending, this`pending, this`entries, this`coalesced, this`marked, this`cells
    {
      if Intact() then set w | w in h.mem && Resolved(w) else h.mem.Keys
    }

    twostate predicate KeptFlag()
      reads this
    {
      && (old(somePending) ==> somePending)
      && (somePending || pending <= old(pending))
    }

    /** Scheduling work resolves more words, in particular those of the newly marked blocks. */
    twostate lemma ScheduledResolves()
      requires old(marked) <= marked && coalesced == old(coalesced) && usePending == old(usePending)
      requires old(Overflow()) ==> Overflow()
      requires Scheduled() && LiveOk() && old(ResolvedOk()) && resolved == old(resolved)
      ensures resolved <= NowResolved() && Covered(marked - old(marked), NowResolved())
    {
      if Intact() {
        forall w | w in resolved ensures Resolved(w) {
          assert old(Resolved(w));
        }
        forall b, w | b in marked && b !in old(marked) && Eligible(h, partial, b) && h.blocks[b].scanned
          && b in cover && w in cover[b] ensures Resolved(w) {
          assert Pended(b);
          assert w in EntryWords(cover, BlockEntry(b));
        }
      }
    }

    /** Associated values stay marked. */
    twostate lemma AssocStays()
      requires old(AssocOk()) && NewAssocClosed() && old(marked) <= marked && scanningAssoc == old(scanningAssoc)
      ensures AssocOk()
    {
      if scanningAssoc {
        forall b | b in marked ensures AssocClosed(b) {
          assert b in old(marked) ==> old(AssocClosed(b));
        }
      }
    }

    /** Records that whatever is scheduled now is resolved. */
    ghost method Renew(before: set<int>)
      requires Valid() && LiveOk() && CardsOk() && AssocOk()
      requires resolved <= NowResolved()
      requires Covered(before, resolved + risk) && Covered(marked - before, NowResolved())
      modifies this`resolved
      ensures Mid() && resolved == old(NowResolved())
    {
      hide LiveOk, CardsOk, AssocOk, Resolved, Intact;
      resolved := NowResolved();
    }

    // ----- the scan stack -----

    method Push(cell: int)
      requires |cells| <= capacity
      modifies this`cells
      ensures |cells| <= capacity
      ensures cells == if old(Overflow()) then old(cells) else old(cells) + [cell]
    {
      if |cells| != capacity {
        cells := cells + [cell];
      }
    }

    method PushBlock(b: int)
      requires Valid() && LiveOk() && !usePending && EntryOk(BlockEntry(b))
      modifies this`cells, this`entries
      ensures Valid() && entries == old(entries) + [BlockEntry(b)]
      ensures old(Overflow()) ==> Overflow()
      ensures Spent(BlockWeight(h, b))
    {
      hide Weight, Unreached, Listed, LiveOk, RangeOk, Eligible, EncodeAll;
      Push(4 * b);
      EncodePush(entries, BlockEntry(b));
      WeightPush(h, entries, BlockEntry(b));
      entries := entries + [BlockEntry(b)];
      CellsWithinWeight(h, entries);
    }

    method PushRange(r: Range)
      requires Valid() && LiveOk() && !usePending && RangeOk(r)
      modifies this`cells, this`entries
      ensures Valid() && entries == old(entries) + [RangeEntry(r)]
      ensures old(Overflow()) ==> Overflow()
      ensures Spent(r.hi - r.lo + 2)
    {
      hide Weight, Unreached, Listed, LiveOk, EncodeAll, Readable, Eligible;
      PushEndAndStart(r);
      EncodePush(entries, RangeEntry(r));
      WeightPush(h, entries, RangeEntry(r));
      entries := entries + [RangeEntry(r)];
      CellsWithinWeight(h, entries);
    }

    method PushEndAndStart(r: Range)
      requires |cells| <= capacity
      modifies this`cells
      ensures |cells| <= capacity
      ensures Overflow() || (!old(Overflow()) && cells == old(cells) + Encode(RangeEntry(r)))
      ensures Overflow() ==> capacity <= |old(cells)| + 2
      ensures old(Overflow()) ==> Overflow()
    {
      Push(4 * r.hi);
      Push(4 * r.lo + 1);
    }

    /** The low bit of the top cell tells ranges from blocks. */
    method TopIsRange() returns (isRange: bool)
      requires Valid() && LiveOk() && !usePending && cells != [] && !Overflow()
      ensures entries != [] && isRange == entries[|entries|-1].RangeEntry?
    {
      TopCell(entries);
      isRange := cells[|cells|-1] % 2 == 1;
    }

    method PopBlock() returns (b: int)
      requires Valid() && LiveOk() && !usePending && !Overflow() && entries != [] && entries[|entries|-1].BlockEntry?
      modifies this`cells, this`entries
      ensures Valid() && !Overflow()
      ensures old(entries) == entries + [BlockEntry(b)]
      ensures Potential() + BlockWeight(h, b) == old(Potential())
    {
      b := cells[|cells|-1] / 4;
      cells := cells[..|cells|-1];
      entries := entries[..|entries|-1];
    }

    method PopRange() returns (r: Range)
      requires Valid() && LiveOk() && !usePending && !Overflow() && entries != [] && entries[|entries|-1].RangeEntry?
      modifies this`cells, this`entries
      ensures Valid() && !Overflow()
      ensures old(entries) == entries + [RangeEntry(r)]
      ensures Potential() + (r.hi - r.lo + 2) == old(Potential())
    {
      var start := cells[|cells|-1];
      var end := cells[|cells|-2];
      cells := cells[..|cells|-2];
      r := Range((start - 1) / 4, end / 4);
      entries := entries[..|entries|-1];
    }

    // ----- marking one value -----

    method SetPending(v: int)
      requires Valid() && LiveOk()
      requires Eligible(h, partial, v) ==> v in live
      modifies this`cells, this`entries, this`pending, this`somePending, this`marked
      ensures Valid() && Grew() && NewAssocClosed() && Scheduled() && KeptFlag()
      ensures Eligible(h, partial, v) ==> v in marked
      ensures marked == old(marked) ==> unchanged(`cells, `entries, `pending, `somePending)
      ensures Spent(0)
      decreases h.blocks.Keys - marked, 1
    {
      hide RangeOk, Potential, Listed;
      // not a block start, or old in a partial collection, or marked already
      if v in h.blocks && !(partial && !h.blocks[v].isNew) && v !in marked {
        Mark(v);
        if h.blocks[v].scanned {
          Pend(v);
        }
      }
    }

    method Mark(v: int)
      requires Valid() && LiveOk() && Eligible(h, partial, v) && v in live && v !in marked
      modifies this`cells, this`entries, this`pending, this`somePending, this`marked
      ensures Valid() && Grew() && NewAssocClosed() && KeptFlag() && v in marked
      ensures Intact() ==>
        && (if usePending then old(pending) <= pending else forall e | e in old(entries) :: e in entries)
        && forall b | b in marked && b !in old(marked) && b != v && Eligible(h, partial, b) && h.blocks[b].scanned
             :: Pended(b)
      ensures Spent(0 - BlockWeight(h, v))
      decreases h.blocks.Keys - marked, 0
    {
      hide Weight, Unreached;
      MarkedIsReached(h, h.order, marked, v);
      marked := marked + {v};
      if scanningAssoc {
        PendAssociations(v);
      }
    }

    /** Schedules a marked block: its pending bit or a cell on the stack. */
    method Schedule(b: int)
      requires Valid() && LiveOk() && EntryOk(BlockEntry(b))
      modifies this`cells, this`entries, this`pending
      ensures Valid() && Grew() && NewAssocClosed() && Scheduled()
      ensures Intact() ==> Pended(b)
      ensures !usePending ==> pending == old(pending)
      ensures Spent(BlockWeight(h, b))
    {
      hide Potential, Listed;
      if usePending {
        pending := pending + {b};
      } else {
        PushBlock(b);
      }
    }

    method Pend(b: int)
      requires Valid() && LiveOk() && EntryOk(BlockEntry(b))
      modifies this`cells, this`entries, this`pending, this`somePending
      ensures Valid() && Grew() && NewAssocClosed() && Scheduled() && KeptFlag()
      ensures Intact() ==> Pended(b)
      ensures Spent(BlockWeight(h, b))
    {
      hide Potential, Listed;
      Schedule(b);
      if usePending {
        somePending := true;
      }
    }

    method PendAssociations(b: int)
      requires Valid() && LiveOk() && b in live && b in marked
      modifies this`cells, this`entries, this`pending, this`somePending, this`marked
      ensures Valid() && Grew() && NewAssocClosed() && Scheduled() && KeptFlag()
      ensures AssocClosed(b)
      ensures Spent(0)
      decreases h.blocks.Keys - marked, 2
    {
      hide Potential, Listed;
      if b !in h.assoc {
        return;
      }
      var refs := h.assoc[b];
      var j := 0;
      while j < |refs|
        invariant 0 <= j <= |refs|
        invariant Valid() && Grew() && NewAssocClosed() && Scheduled() && KeptFlag() && Spent(0)
        invariant forall k | 0 <= k < j && Eligible(h, partial, refs[k]) :: refs[k] in marked
      {
        SetPending(refs[j]);
        j := j + 1;
      }
    }

    // ----- scanning -----

    /** Scans a range of words, or puts it off to be merged with the ranges that follow it. */
    method ScanRange(r: Range, repairing: bool := false)
      requires Mid() && RangeOk(r)
      requires shouldCoalesce ==> r.lo >= 0
      requires repairing ==> !shouldCoalesce && forall w | In(r, w) :: CardMarked(h, w)
      modifies this`cells, this`entries, this`pending, this`somePending, this`marked, this`coalesced
      modifies this`cards, this`resolved, this`risk
      ensures Mid() && Moved() && KeptFlag() && Spent(r.hi - r.lo)
      ensures Words(r) <= resolved
      ensures marked == old(marked) ==> unchanged(`somePending, `pending)
      ensures shouldCoalesce ==> coalesced == if old(coalesced).hi == r.lo then Range(old(coalesced).lo, r.hi) else r
    {
      hide Valid, LiveOk, CardsOk, ResolvedOk, TriOk, AssocOk, RangeOk, Potential;
      if !shouldCoalesce {
        ScanNow(r, repairing);
      } else if coalesced.hi == r.lo {
        Merge(r);
      } else {
        Supersede(r);
      }
    }

    /** Extends the range that has been put off. */
    method Merge(r: Range)
      requires Mid() && RangeOk(r) && shouldCoalesce && coalesced.hi == r.lo
      modifies this`coalesced, this`resolved
      ensures Mid() && usePending && resolved == old(resolved) + Words(r)
      ensures coalesced == Range(old(coalesced).lo, r.hi)
    {
      hide LiveOk, CardsOk, AssocOk, Listed;
      coalesced := Range(coalesced.lo, r.hi);
      resolved := resolved + Words(r);
    }

    /** Puts a range off and scans the one that was put off before. */
    method Supersede(r: Range)
      requires Mid() && RangeOk(r) && shouldCoalesce && r.lo >= 0
      modifies this`cells, this`entries, this`pending, this`somePending, this`marked, this`coalesced
      modifies this`cards, this`resolved, this`risk
      ensures Mid() && usePending && Moved() && KeptFlag() && Words(r) <= resolved && coalesced == r
      ensures marked == old(marked) ==> unchanged(`somePending, `pending)
    {
      hide Valid, LiveOk, CardsOk, ResolvedOk, TriOk, AssocOk, RangeOk, Potential;
      var previous := PutOff(r);
      ScanNow(previous, false);
      Secure(old(risk), Words(previous));
    }

    /** Puts a range off in place of another one, whose words are then at risk. */
    method PutOff(r: Range) returns (previous: Range)
      requires Mid() && RangeOk(r) && shouldCoalesce && r.lo >= 0
      modifies this`coalesced, this`resolved, this`risk
      ensures Mid() && usePending && RangeOk(previous) && coalesced == r
      ensures resolved == old(resolved) - Words(previous) + Words(r)
      ensures risk == old(risk) + Words(previous)
    {
      hide LiveOk, CardsOk, AssocOk, Listed;
      previous := coalesced;
      coalesced := r;
      resolved := resolved - Words(previous) + Words(r);
      risk := risk + Words(previous);
    }

    /** Words that have been scanned are no longer at risk. */
    ghost method Secure(before: set<int>, scanned: set<int>)
      requires Mid() && risk == before + scanned && scanned <= resolved
      modifies this`risk
      ensures Mid() && risk == before
    {
      hide Valid, LiveOk, CardsOk, ResolvedOk, AssocOk;
      assert resolved + risk == resolved + before;
      risk := before;
    }

    /** Scans a range, leaving all but the first chunk for later when the stack is in use. */
    method ScanNow(r: Range, repairing: bool)
      requires Mid() && RangeOk(r)
      requires repairing ==> forall w | In(r, w) :: CardMarked(h, w)
      modifies this`cells, this`entries, this`pending, this`somePending, this`marked, this`cards, this`resolved
      ensures Mid() && Moved() && KeptFlag() && Spent(r.hi - r.lo)
      ensures Words(r) <= resolved
      ensures marked == old(marked) ==> unchanged(`somePending, `pending)
    {
      hide Valid, LiveOk, CardsOk, ResolvedOk, TriOk, AssocOk, Potential;
      if r.lo == r.hi {
        return;
      }
      if !usePending && r.hi - r.lo > CHUNK_WORDS {
        PushTail(Range(r.lo + CHUNK_WORDS, r.hi));
        ScanChunk(Range(r.lo, r.lo + CHUNK_WORDS), repairing);
      } else {
        ScanChunk(r, repairing);
      }
    }

    /** Leaves the rest of a long range on the stack. */
    method PushTail(tail: Range)
      requires Mid() && !usePending && RangeOk(tail)
      modifies this`cells, this`entries, this`resolved
      ensures Mid() && Moved() && Spent(tail.hi - tail.lo + 2)
      ensures Words(tail) <= resolved
    {
      hide LiveOk, CardsOk, AssocOk, Potential, Listed;
      PushRange(tail);
      forall w | In(tail, w) ensures Resolved(w) {
        assert w in EntryWords(cover, RangeEntry(tail));
      }
      forall w | w in resolved && Intact() ensures Resolved(w) {
        assert old(Resolved(w));
      }
      resolved := resolved + Words(tail);
    }

    method ScanChunk(r: Range, repairing: bool)
      requires Mid() && RangeOk(r)
      requires repairing ==> forall w | In(r, w) :: CardMarked(h, w)
      modifies this`cells, this`entries, this`pending, this`somePending, this`marked, this`cards, this`resolved
      ensures Mid() && Moved() && KeptFlag() && Spent(0)
      ensures Words(r) <= resolved
      ensures marked == old(marked) ==> unchanged(`somePending, `pending, `entries)
    {
      hide Valid, LiveOk, CardsOk, AssocOk, Covered, Potential, Scheduled, NewAssocClosed, RangeOk;
      ScanWords(r.lo, r.hi, repairing);
      ScheduledResolves();
      AssocStays();
      ScannedResolved(r);
      Renew(old(marked));
    }

    /** Words whose values have been marked are resolved. */
    lemma ScannedResolved(r: Range)
      requires RangeOk(r) && ValuesMarked(r.lo, r.hi)
      ensures Words(r) <= NowResolved()
    {
      forall w | In(r, w) ensures w in NowResolved() {
        assert w in h.mem;
        assert Resolved(w);
      }
    }

    /** Whatever the words lo..hi hold is marked, if it is to be marked at all. */
    ghost predicate ValuesMarked(lo: int, hi: int) reads this`marked {
      forall w | lo <= w < hi && w in h.mem && Eligible(h, partial, h.mem[w]) :: h.mem[w] in marked
    }

    method RepairCard(w: int)
      requires CardsOk() && CardMarked(h, w)
      modifies this`cards
      ensures CardsOk()
    {
      cards := cards[w / CARD_WORDS := 1];
    }

    method ScanWords(lo: int, hi: int, repairing: bool)
      requires Mid() && RangeOk(Range(lo, hi))
      requires repairing ==> forall w | lo <= w < hi :: CardMarked(h, w)
      modifies this`cells, this`entries, this`pending, this`somePending, this`marked, this`cards
      ensures Valid() && CardsOk() && Grew() && NewAssocClosed() && Scheduled() && KeptFlag() && Spent(0)
      ensures ValuesMarked(lo, hi)
      ensures marked == old(marked) ==> unchanged(`somePending, `pending, `entries)
    {
      hide Valid, LiveOk, CardsOk, ResolvedOk, TriOk, AssocOk, Eligible, Potential;
      var x := lo;
      while x < hi
        invariant lo <= x <= hi
        invariant Valid() && CardsOk() && Grew() && NewAssocClosed() && Scheduled() && KeptFlag() && Spent(0)
        invariant ValuesMarked(lo, x)
        invariant marked == old(marked) ==> unchanged(`somePending, `pending, `entries)
      {
        assert In(Range(lo, hi), x);
        ScanWord(x, repairing);
        x := x + 1;
      }
    }

    /** Marks what one word holds. */
    method ScanWord(x: int, repairing: bool)
      requires Valid() && LiveOk() && CardsOk() && x in h.mem && (Eligible(h, partial, h.mem[x]) ==> h.mem[x] in live)
      requires repairing ==> CardMarked(h, x)
      modifies this`cells, this`entries, this`pending, this`somePending, this`marked, this`cards
      ensures Valid() && CardsOk() && Grew() && NewAssocClosed() && Scheduled() && KeptFlag() && Spent(0)
      ensures Eligible(h, partial, h.mem[x]) ==> h.mem[x] in marked
      ensures marked == old(marked) ==> unchanged(`somePending, `pending, `entries)
    {
      hide Valid, LiveOk, CardsOk, Eligible, Potential;
      var v := h.mem[x];
      SetPending(v);
      if repairing && v in h.blocks && h.blocks[v].isNew {
        RepairCard(x);
      }
    }

    /** cover is what the layouts let the scanner read. */
    ghost predicate CoverOk() {
      && ValidHeap(h) && cover.Keys == h.blocks.Keys
      && forall b | b in h.blocks :: b in cover && cover[b] == AllWords(LayoutRanges(b, h.blocks[b]))
    }

    method ScanBlock(b: int)
      requires Mid() && CoverOk() && EntryOk(BlockEntry(b))
      modifies this`cells, this`entries, this`pending, this`somePending, this`marked, this`coalesced
      modifies this`cards, this`resolved, this`risk
      ensures Mid() && Moved() && KeptFlag() && Spent(h.blocks[b].size)
      ensures cover[b] <= resolved
      ensures marked == old(marked) ==> unchanged(`somePending, `pending)
    {
      hide Valid, LiveOk, CardsOk, ResolvedOk, TriOk, AssocOk, Potential;
      var k := h.blocks[b];
      match k.layout
      case Conservative =>
        AllWordsCons(Range(b, b + k.size), []);
        assert [Range(b, b + k.size)] + [] == [Range(b, b + k.size)];
        ScanRun(b, Range(b, b + k.size));
      case StrongMap(bytes) =>
        ScanWithMap(b, true, bytes);
      case WeakMap(bytes) =>
        ScanWithMap(b, false, bytes);
    }

    /** Scans part of a marked block. */
    method ScanRun(b: int, r: Range)
      requires Mid() && EntryOk(BlockEntry(b)) && b > 0 && Readable(h, Range(b, b + h.blocks[b].size))
      requires b <= r.lo <= r.hi <= b + h.blocks[b].size && Words(r) <= cover[b]
      modifies this`cells, this`entries, this`pending, this`somePending, this`marked, this`coalesced
      modifies this`cards, this`resolved, this`risk
      ensures Mid() && Moved() && KeptFlag() && Spent(r.hi - r.lo)
      ensures Words(r) <= resolved
      ensures marked == old(marked) ==> unchanged(`somePending, `pending)
    {
      hide CardsOk, ResolvedOk, TriOk, AssocOk, Potential, Listed;
      assert RangeOk(r) by {
        assert forall w | In(r, w) :: w in Words(r) && In(Range(b, b + h.blocks[b].size), w);
      }
      ScanRange(r);
    }

    static method NextRun(strong: bool, bytes: seq<nat>, i: nat, at: int, ghost end: int) returns (r: Range, next: int)
      requires i < |bytes|
      ensures at <= r.lo <= r.hi <= next
      ensures next + MapSpan(bytes[i+1..]) == at + MapSpan(bytes[i..])
      ensures AllWords(MapRanges(strong, bytes[i..], at, end))
              == Words(r) + AllWords(MapRanges(strong, bytes[i+1..], next, end))
    {
      MapStep(strong, bytes, i, at, end);
      r := Run(strong, bytes[i], at);
      next := at + bytes[i] / 16 + bytes[i] % 16;
    }

    /** Decodes a layout map: each byte is a run to scan and a run to skip, in the order of the map's kind. */
    method ScanWithMap(b: int, strong: bool, bytes: seq<nat>)
      requires Mid() && EntryOk(BlockEntry(b)) && b > 0 && Readable(h, Range(b, b + h.blocks[b].size))
      requires b in cover && cover[b] == AllWords(MapRanges(strong, bytes, b, b + h.blocks[b].size))
      requires MapSpan(bytes) <= h.blocks[b].size
      modifies this`cells, this`entries, this`pending, this`somePending, this`marked, this`coalesced
      modifies this`cards, this`resolved, this`risk
      ensures Mid() && Moved() && KeptFlag() && Spent(h.blocks[b].size)
      ensures cover[b] <= resolved
      ensures marked == old(marked) ==> unchanged(`somePending, `pending)
    {
      hide Valid, LiveOk, CardsOk, ResolvedOk, TriOk, AssocOk, MapRanges, MapSpan, AllWords, Potential;
      var at, end := b, b + h.blocks[b].size;
      var i := 0;
      ghost var seen: set<int> := {};
      while i < |bytes|
        invariant 0 <= i <= |bytes| && b <= at && at + MapSpan(bytes[i..]) <= end
        invariant Mid() && Moved() && KeptFlag() && Spent(at - b)
        invariant cover[b] == seen + AllWords(MapRanges(strong, bytes[i..], at, end))
        invariant seen <= resolved
        invariant marked == old(marked) ==> unchanged(`somePending, `pending)
      {
        var r, next := NextRun(strong, bytes, i, at, end);
        at := next;
        ScanRun(b, r);
        i := i + 1;
        seen := seen + Words(r);
      }
      assert bytes[i..] == [];
      MapEnd(strong, at, end);
      ScanRun(b, Range(at, end));
    }

    /** Finds the next run of marked cards k..e at or after card i. */
    method FindRun(i: int, j: int) returns (k: int, e: int)
      requires 0 <= i <= j + 1 <= |cards| && CardsOk()
      ensures i <= k <= e <= j + 1 && (k <= j ==> k < e)
      ensures forall c | i <= c < k :: h.cards[c] == 0
      ensures forall c | k <= c < e :: h.cards[c] != 0
    {
      k := i;
      while k <= j && cards[k] == 0
        invariant i <= k <= j + 1
        invariant forall c | i <= c < k :: h.cards[c] == 0
      {
        k := k + 1;
      }
      e := k;
      while e <= j && cards[e] != 0
        invariant k <= e <= j + 1
        invariant forall c | k <= c < e :: h.cards[c] != 0
      {
        e := e + 1;
      }
    }

    /** The words of a block that lie on marked cards hold nothing outside the live set. */
    ghost predicate CardWordsOk(r: Range) reads this`live {
      && 0 <= r.lo < r.hi <= CARD_WORDS * |h.cards| && Readable(h, r)
      && forall w | In(r, w) && CardMarked(h, w) && Eligible(h, partial, h.mem[w]) :: h.mem[w] in live
    }

    /** Scans the marked cards of an old block, one run of marked cards at a time. */
    method ScanCards(whole: Range)
      requires Mid() && CardWordsOk(whole) && !shouldCoalesce
      modifies this`cells, this`entries, this`pending, this`somePending, this`marked, this`coalesced
      modifies this`cards, this`resolved, this`risk
      ensures Mid() && Moved() && KeptFlag() && Spent(whole.hi - whole.lo)
      ensures forall w | In(whole, w) && CardMarked(h, w) :: w in resolved
    {
      hide Valid, LiveOk, ResolvedOk, TriOk, AssocOk, ValidHeap, Potential;
      var i, j := whole.lo / CARD_WORDS, (whole.hi - 1) / CARD_WORDS;
      ghost var at := whole.lo;
      while true
        invariant 0 <= i <= j + 1 && whole.lo <= at <= whole.hi && (at == whole.lo || at <= CARD_WORDS * i)
        invariant Mid() && Moved() && KeptFlag() && Spent(at - whole.lo)
        invariant forall w | In(whole, w) && w < CARD_WORDS * i && CardMarked(h, w) :: w in resolved
        decreases j + 1 - i
      {
        var k, e := FindRun(i, j);
        if k > j {
          UnmarkedCards(whole, i, k);
          break;
        }
        var r := Clip(whole, k, e);
        UnmarkedCards(whole, i, k);
        MarkedCards(r, k, e);
        ScanRange(r, repair);
        assert forall w | In(r, w) :: w in Words(r);
        i, at := e, r.hi;
      }
    }

    function Clip(whole: Range, k: int, e: int): (r: Range) {
      Range(if k * CARD_WORDS < whole.lo then whole.lo else k * CARD_WORDS,
            if e * CARD_WORDS > whole.hi then whole.hi else e * CARD_WORDS)
    }

    lemma UnmarkedCards(whole: Range, i: int, k: int)
      requires 0 <= i <= k <= |h.cards| && forall c | i <= c < k :: h.cards[c] == 0
      ensures forall w | In(whole, w) && CARD_WORDS * i <= w < CARD_WORDS * k :: !CardMarked(h, w)
    {}

    lemma MarkedCards(r: Range, k: int, e: int)
      requires 0 <= k && (forall c | k <= c < e :: c < |h.cards| && h.cards[c] != 0)
      requires k * CARD_WORDS <= r.lo && r.hi <= e * CARD_WORDS
      ensures forall w | In(r, w) :: CardMarked(h, w)
    {}

    // ----- phases of a scan -----

    /** The live set of this pass contains everything that is kept without being referenced and
        whatever root words and marked cards of old blocks hold. */
    ghost predicate StartsOk(q: seq<int>) reads this`live {
      && (forall b | b in h.blocks && Pinned(h, partial, q, b) :: b in live)
      && (forall w | w in RootWords(h) && w in h.mem && Eligible(h, partial, h.mem[w]) :: h.mem[w] in live)
      && (partial ==> forall b | b in h.blocks && !h.blocks[b].isNew && h.blocks[b].scanned
            :: CardWordsOk(Range(b, b + h.blocks[b].size)))
    }

    /** Clear pending flag means no pending blocks. */
    ghost predicate FlagOk() reads this`usePending, this`somePending, this`pending {
      usePending && !somePending ==> pending == {}
    }

    /** Invariant of the scan between its phases. */
    ghost predicate Between() reads this {
      Mid() && risk == {} && !shouldCoalesce && FlagOk()
    }

    method ScanAll(rs: seq<Range>)
      requires Between() && AllReadable(h, rs)
      requires forall w | w in AllWords(rs) && w in h.mem && Eligible(h, partial, h.mem[w]) :: h.mem[w] in live
      modifies this`cells, this`entries, this`pending, this`somePending, this`marked, this`coalesced
      modifies this`cards, this`resolved, this`risk
      ensures Between() && Moved() && Spent(Lengths(rs))
      ensures AllWords(rs) <= resolved
    {
      hide Valid, LiveOk, CardsOk, ResolvedOk, TriOk, AssocOk, Potential;
      var i := 0;
      while i < |rs|
        invariant 0 <= i <= |rs|
        invariant Between() && Moved() && Spent(Lengths(rs[..i]))
        invariant AllWords(rs[..i]) <= resolved
      {
        AllWordsSplit(rs, i);
        assert rs[..i+1][..i] == rs[..i];
        assert forall w | In(rs[i], w) :: w in Words(rs[i]);
        ScanRange(rs[i]);
        i := i + 1;
      }
      assert rs[..i] == rs;
    }

    /** Registered roots, one word at a time. */
    method ScanRootRanges()
      requires Between() && ValidHeap(h)
      requires forall i | 0 <= i < |h.roots| && Eligible(h, partial, h.mem[h.roots[i]]) :: h.mem[h.roots[i]] in live
      modifies this`cells, this`entries, this`pending, this`somePending, this`marked, this`coalesced
      modifies this`cards, this`resolved, this`risk
      ensures Between() && Moved() && Spent(|h.roots|)
      ensures forall i | 0 <= i < |h.roots| :: h.roots[i] in resolved
    {
      hide Valid, LiveOk, CardsOk, ResolvedOk, TriOk, AssocOk, Potential;
      var i := 0;
      while i < |h.roots|
        invariant 0 <= i <= |h.roots|
        invariant Between() && Moved() && Spent(i)
        invariant forall k | 0 <= k < i :: h.roots[k] in resolved
      {
        var r := Range(h.roots[i], h.roots[i] + 1);
        assert h.roots[i] in Words(r);
        ScanRange(r);
        i := i + 1;
      }
    }

    /** Marks a block regardless of references and schedules it. */
    method MarkAndSchedule(b: int)
      requires Valid() && LiveOk() && !scanningAssoc
      requires Eligible(h, partial, b) && b in live && b !in marked
      modifies this`cells, this`entries, this`pending, this`marked
      ensures Valid() && Grew() && Scheduled() && Spent(0)
      ensures marked == old(marked) + {b}
      ensures !usePending ==> pending == old(pending)
      ensures !h.blocks[b].scanned ==> pending == old(pending)
    {
      hide Weight, Unreached;
      MarkedIsReached(h, h.order, marked, b);
      marked := marked + {b};
      if h.blocks[b].scanned {
        Schedule(b);
      }
    }

    method MarkUnreferenced(b: int)
      requires Mid() && !scanningAssoc
      requires Eligible(h, partial, b) && b in live && b !in marked
      modifies this`cells, this`entries, this`pending, this`marked, this`resolved
      ensures Mid() && Moved() && Scheduled() && Spent(0) && b in marked
      ensures !usePending ==> pending == old(pending)
      ensures !h.blocks[b].scanned ==> pending == old(pending)
    {
      hide Valid, LiveOk, CardsOk, Covered, Potential;
      MarkAndSchedule(b);
      ScheduledResolves();
      Renew(old(marked));
    }

    /** Marks one retained block. */
    method KeepRetained(b: int)
      requires Mid() && !scanningAssoc
      requires Eligible(h, partial, b) && b in live
      modifies this`cells, this`entries, this`pending, this`marked, this`resolved
      ensures Mid() && Moved() && Scheduled() && Spent(0)
      ensures h.blocks[b].refcount > 0 ==> b in marked
    {
      hide Valid, LiveOk, CardsOk, ResolvedOk, TriOk, Potential;
      if h.blocks[b].refcount > 0 && b !in marked {
        MarkUnreferenced(b);
      }
    }

    /** What has been scheduled before still is. */
    twostate lemma StillPended()
      requires old(AllPended()) && Scheduled() && Grew() && usePending == old(usePending)
      ensures AllPended()
    {
      if Intact() {
        forall b | b in marked && Eligible(h, partial, b) && h.blocks[b].scanned ensures Pended(b) {
          assert b in old(marked) ==> old(Pended(b));
        }
      }
    }

    method ScanRetainedBlocks(ghost q: seq<int>)
      requires Mid() && risk == {} && !shouldCoalesce && ValidHeap(h) && StartsOk(q)
      requires !partial && !scanningAssoc && AllPended()
      modifies this`cells, this`entries, this`pending, this`somePending, this`marked, this`resolved
      ensures Between() && Moved() && AllPended() && Spent(0)
      ensures forall b | b in h.blocks && h.blocks[b].refcount > 0 :: b in marked
    {
      hide Valid, LiveOk, CardsOk, ResolvedOk, TriOk, AssocOk, AllPended, Potential;
      var i := 0;
      while i < |h.order|
        invariant 0 <= i <= |h.order|
        invariant Mid() && Moved() && AllPended() && Spent(0)
        invariant forall j | 0 <= j < i && h.blocks[h.order[j]].refcount > 0 :: h.order[j] in marked
      {
        VisitRetained(h.order[i], q);
        i := i + 1;
      }
      somePending := true;
    }

    /** The visitor of retained blocks. */
    method VisitRetained(b: int, ghost q: seq<int>)
      requires Mid() && StartsOk(q) && b in h.blocks && !partial && !scanningAssoc && AllPended()
      modifies this`cells, this`entries, this`pending, this`marked, this`resolved
      ensures Mid() && Moved() && AllPended() && Spent(0)
      ensures h.blocks[b].refcount > 0 ==> b in marked
    {
      hide Valid, LiveOk, CardsOk, ResolvedOk, TriOk, AssocOk, AllPended, Potential, Scheduled;
      if h.blocks[b].refcount > 0 {
        assert Pinned(h, partial, q, b);
        KeepRetained(b);
        StillPended();
      }
    }

    /** Each of the retained blocks takes a cell, before any is popped. */
    lemma RetainedTakeCells()
      requires Valid() && AllPended() && !usePending && !partial
      requires forall b | b in h.blocks && h.blocks[b].refcount > 0 :: b in marked
      ensures capacity <= |Retained(h)| ==> Overflow()
    {
      if !Overflow() {
        forall b | b in Retained(h) ensures BlockEntry(b) in entries {
          assert Pended(b);
        }
        EntriesCount(entries, Retained(h));
        CellsWithinWeight(h, entries);
      }
    }

    /** The words of an old block on marked cards are resolved. */
    ghost predicate OldResolved(b: int)
      requires b in h.blocks
      reads this`resolved
    {
      !h.blocks[b].isNew && h.blocks[b].scanned ==>
        forall w | In(Range(b, b + h.blocks[b].size), w) && CardMarked(h, w) :: w in resolved
    }

    /** The block is marked if it is retained or old, and an old block has been read where its cards
        are marked. */
    ghost predicate Kept(b: int)
      requires b in h.blocks
      reads this`resolved, this`marked
    {
      (h.blocks[b].refcount > 0 || !h.blocks[b].isNew ==> b in marked) && OldResolved(b)
    }

    twostate lemma StillKept(i: nat)
      requires i <= |h.order| && (forall j | 0 <= j < |h.order| :: h.order[j] in h.blocks)
      requires old(marked) <= marked && old(resolved) <= resolved
      requires forall j | 0 <= j < i :: old(Kept(h.order[j]))
      ensures forall j | 0 <= j < i :: Kept(h.order[j])
    {
      forall j | 0 <= j < i ensures Kept(h.order[j]) {
        assert old(Kept(h.order[j]));
      }
    }

    method ScanRetainedAndOldBlocks(ghost q: seq<int>)
      requires Mid() && risk == {} && !shouldCoalesce && ValidHeap(h) && StartsOk(q)
      requires partial && !scanningAssoc
      modifies this`cells, this`entries, this`pending, this`somePending, this`marked, this`coalesced
      modifies this`cards, this`resolved, this`risk
      ensures Between() && Moved() && Spent(OldWords(h, h.order))
      ensures forall b | b in h.blocks :: Kept(b)
    {
      hide Valid, LiveOk, CardsOk, ResolvedOk, TriOk, AssocOk, Potential, StartsOk, Kept, ValidHeap;
      VisitRetainedAndOld(q);
      SetSomePending();
    }

    method SetSomePending()
      requires Mid() && risk == {} && !shouldCoalesce
      modifies this`somePending
      ensures Between()
    {
      hide Valid, LiveOk, CardsOk, ResolvedOk, TriOk, AssocOk;
      somePending := true;
    }

    method VisitRetainedAndOld(ghost q: seq<int>)
      requires Mid() && !shouldCoalesce && ValidHeap(h) && StartsOk(q) && partial && !scanningAssoc
      modifies this`cells, this`entries, this`pending, this`somePending, this`marked, this`coalesced
      modifies this`cards, this`resolved, this`risk
      ensures Mid() && Moved() && Spent(OldWords(h, h.order))
      ensures forall b | b in h.blocks :: Kept(b)
    {
      hide Valid, LiveOk, CardsOk, ResolvedOk, TriOk, AssocOk, Potential, StartsOk, Kept;
      var i := 0;
      while i < |h.order|
        invariant 0 <= i <= |h.order|
        invariant Mid() && Moved() && Spent(OldWords(h, h.order[..i]))
        invariant forall j | 0 <= j < i :: Kept(h.order[j])
      {
        assert h.order[..i+1][..i] == h.order[..i];
        KeepNext(i, q);
        i := i + 1;
      }
      assert h.order[..i] == h.order;
      AllKept();
    }

    method KeepNext(i: nat, ghost q: seq<int>)
      requires Mid() && !shouldCoalesce && !scanningAssoc && StartsOk(q) && partial
      requires i < |h.order| && forall j | 0 <= j < |h.order| :: h.order[j] in h.blocks
      requires forall j | 0 <= j < i :: Kept(h.order[j])
      modifies this`cells, this`entries, this`pending, this`somePending, this`marked, this`coalesced
      modifies this`cards, this`resolved, this`risk
      ensures Mid() && Moved()
      ensures
        var k := h.blocks[h.order[i]];
        Spent(if !k.isNew && k.scanned then k.size else 0)
      ensures forall j | 0 <= j <= i :: Kept(h.order[j])
    {
      hide Valid, LiveOk, CardsOk, ResolvedOk, TriOk, AssocOk, Potential, StartsOk, Kept;
      KeepRetainedOrOld(h.order[i], q);
      StillKept(i);
    }

    /** The iterator visits every block. */
    lemma AllKept()
      requires ValidHeap(h) && forall j | 0 <= j < |h.order| :: Kept(h.order[j])
      ensures forall b | b in h.blocks :: Kept(b)
    {
      hide Kept;
      forall b | b in h.blocks ensures Kept(b) {
        assert b in h.order;
      }
    }

    lemma StartsGive(q: seq<int>, b: int)
      requires StartsOk(q) && partial && b in h.blocks
      ensures !h.blocks[b].isNew || h.blocks[b].refcount > 0 ==> b in live
      ensures !h.blocks[b].isNew && h.blocks[b].scanned ==> CardWordsOk(Range(b, b + h.blocks[b].size))
    {
      assert Pinned(h, partial, q, b) || (h.blocks[b].isNew && h.blocks[b].refcount == 0);
    }

    /** The visitor of retained and old blocks. */
    method KeepRetainedOrOld(b: int, ghost q: seq<int>)
      requires Mid() && !shouldCoalesce && !scanningAssoc && StartsOk(q) && partial && b in h.blocks
      modifies this`cells, this`entries, this`pending, this`somePending, this`marked, this`coalesced
      modifies this`cards, this`resolved, this`risk
      ensures Mid() && Moved() && Kept(b)
      ensures Spent(if !h.blocks[b].isNew && h.blocks[b].scanned then h.blocks[b].size else 0)
    {
      hide Valid, LiveOk, CardsOk, ResolvedOk, TriOk, AssocOk, Potential, StartsOk, CardWordsOk;
      StartsGive(q, b);
      if !h.blocks[b].isNew {
        KeepOld(b);
      } else if h.blocks[b].refcount > 0 {
        KeepRetained(b);
      }
    }

    /** Marks an old block and scans its marked cards. */
    method KeepOld(b: int)
      requires Mid() && !shouldCoalesce && !scanningAssoc
      requires partial && b in h.blocks && !h.blocks[b].isNew && b in live
      requires h.blocks[b].scanned ==> CardWordsOk(Range(b, b + h.blocks[b].size))
      modifies this`cells, this`entries, this`pending, this`somePending, this`marked, this`coalesced
      modifies this`cards, this`resolved, this`risk
      ensures Mid() && Moved() && b in marked && OldResolved(b)
      ensures Spent(if h.blocks[b].scanned then h.blocks[b].size else 0)
    {
      hide Valid, LiveOk, CardsOk, ResolvedOk, TriOk, AssocOk, Potential, CardWordsOk;
      MarkOld(b);
      if h.blocks[b].scanned {
        ScanCards(Range(b, b + h.blocks[b].size));
      }
    }

    method MarkOld(b: int)
      requires Mid() && partial && b in h.blocks && !h.blocks[b].isNew && b in live && !scanningAssoc
      modifies this`marked
      ensures Mid() && b in marked && Grew() && Spent(0)
    {
      hide LiveOk, CardsOk, RangeOk, Weight, Unreached, Listed;
      UnreachedShrinks(h, h.order, marked, marked + {b});
      marked := marked + {b};
      assert ResolvedOk() by {
        forall w | w in resolved && Intact() ensures Resolved(w) {
          assert old(Resolved(w));
        }
      }
    }

    /** Pops and scans until the stack is empty, or until it has overflowed. */
    method ScanStackUntilDone()
      requires Between() && CoverOk() && !usePending
      modifies this`cells, this`entries, this`pending, this`somePending, this`marked, this`coalesced
      modifies this`cards, this`resolved, this`risk
      ensures Between() && Moved() && Spent(0)
      ensures Overflow() || entries == []
    {
      hide LiveOk, CardsOk, ResolvedOk, TriOk, AssocOk, CoverOk, EntryOk, RangeOk, Listed, Potential;
      while !(|cells| == 0 || |cells| == capacity)
        invariant Between() && Moved() && Spent(0)
        decreases Potential()
      {
        PopAndScan();
      }
      if !Overflow() && entries != [] {
        EncodeNonEmpty(entries);
      }
    }

    method PopAndScan()
      requires Between() && CoverOk() && !usePending && !Overflow() && cells != []
      modifies this`cells, this`entries, this`pending, this`somePending, this`marked, this`coalesced
      modifies this`cards, this`resolved, this`risk
      ensures Between() && Moved() && Spent(-1)
    {
      hide Valid, LiveOk, CardsOk, ResolvedOk, TriOk, AssocOk, Potential;
      var isRange := TopIsRange();
      if isRange {
        PopAndScanRange();
      } else {
        PopAndScanBlock();
      }
    }

    method PopAndScanRange()
      requires Between() && !usePending && !Overflow() && entries != [] && entries[|entries|-1].RangeEntry?
      modifies this`cells, this`entries, this`pending, this`somePending, this`marked, this`coalesced
      modifies this`cards, this`resolved, this`risk
      ensures Between() && Moved() && Spent(-1)
    {
      hide Valid, LiveOk, CardsOk, ResolvedOk, TriOk, AssocOk, Potential;
      var r := TakeRange();
      ScanRange(r);
      Secure({}, Words(r));
    }

    /** Pops a range; its words are at risk until they have been scanned. */
    method TakeRange() returns (r: Range)
      requires Between() && !usePending && !Overflow() && entries != [] && entries[|entries|-1].RangeEntry?
      modifies this`cells, this`entries, this`resolved, this`risk
      ensures Mid() && RangeOk(r) && !Overflow()
      ensures risk == Words(r) && resolved == old(resolved) - Words(r)
      ensures Potential() + (r.hi - r.lo + 2) == old(Potential())
    {
      hide LiveOk, CardsOk, AssocOk, Potential, Listed;
      r := PopRange();
      assert RangeOk(r) by { assert old(EntryOk(RangeEntry(r))); }
      PopKeeps(RangeEntry(r));
      resolved := resolved - Words(r);
      risk := Words(r);
    }

    method PopAndScanBlock()
      requires Between() && CoverOk() && !usePending && !Overflow() && entries != [] && entries[|entries|-1].BlockEntry?
      modifies this`cells, this`entries, this`pending, this`somePending, this`marked, this`coalesced
      modifies this`cards, this`resolved, this`risk
      ensures Between() && Moved() && Spent(-1)
    {
      hide Valid, LiveOk, CardsOk, ResolvedOk, TriOk, AssocOk, CoverOk, Potential;
      var b := TakeBlock();
      ScanBlock(b);
      Secure({}, cover[b]);
    }

    /** Pops a block; its words are at risk until they have been scanned. */
    method TakeBlock() returns (b: int)
      requires Between() && !usePending && !Overflow() && entries != [] && entries[|entries|-1].BlockEntry?
      modifies this`cells, this`entries, this`resolved, this`risk
      ensures Mid() && EntryOk(BlockEntry(b)) && b in cover && !Overflow()
      ensures risk == cover[b] && resolved == old(resolved) - cover[b]
      ensures Potential() + BlockWeight(h, b) == old(Potential())
    {
      hide LiveOk, CardsOk, AssocOk, Potential, Listed;
      b := PopBlock();
      assert EntryOk(BlockEntry(b)) by { assert old(EntryOk(BlockEntry(b))); }
      PopKeeps(BlockEntry(b));
      resolved := resolved - cover[b];
      risk := cover[b];
    }

    /** Popping an entry puts only that entry's words at risk. */
    twostate lemma PopKeeps(e: Entry)
      requires old(ResolvedOk()) && old(Intact()) && !usePending && !old(usePending)
      requires marked == old(marked) && coalesced == old(coalesced) && resolved == old(resolved)
      requires old(entries) == entries + [e]
      ensures forall w | w in resolved && w !in EntryWords(cover, e) :: Resolved(w)
    {
      forall w | w in resolved && w !in EntryWords(cover, e) ensures Resolved(w) {
        assert old(Resolved(w));
      }
    }

    /** One pass over all blocks in address order: pending blocks are scanned, with their ranges
        merged where they touch. */
    method ScanPendingBlocks()
      requires Mid() && risk == {} && !shouldCoalesce && CoverOk() && usePending
      modifies this`cells, this`entries, this`pending, this`somePending, this`marked, this`coalesced
      modifies this`cards, this`resolved, this`risk, this`shouldCoalesce
      ensures Between() && Moved()
      ensures old(somePending) ==> somePending
      ensures marked == old(marked) ==> somePending == old(somePending)
    {
      hide Valid, LiveOk, CardsOk, ResolvedOk, TriOk, AssocOk, CoverOk;
      StartCoalescing();
      VisitPending();
      FlushCoalesced();
      StopCoalescing();
    }

    method VisitPending()
      requires Mid() && risk == {} && shouldCoalesce && CoverOk() && usePending
      modifies this`cells, this`entries, this`pending, this`somePending, this`marked, this`coalesced
      modifies this`cards, this`resolved, this`risk
      ensures Mid() && Moved() && FlagOk()
      ensures old(somePending) ==> somePending
      ensures marked == old(marked) ==> somePending == old(somePending)
    {
      hide LiveOk, CardsOk, ResolvedOk, TriOk, AssocOk, EntryOk, RangeOk;
      var i := 0;
      ghost var seen: set<int> := {};
      while i < |h.order|
        invariant 0 <= i <= |h.order|
        invariant Mid() && Moved()
        invariant old(somePending) ==> somePending
        invariant forall j | 0 <= j < i :: h.order[j] in seen
        invariant somePending || pending !! seen
        invariant marked == old(marked) ==> somePending == old(somePending)
      {
        ScanIfPending(h.order[i]);
        seen := seen + {h.order[i]};
        i := i + 1;
      }
      NonePending(seen);
    }

    /** Every pending block is met by the iterator. */
    lemma NonePending(seen: set<int>)
      requires Valid() && ValidHeap(h) && forall j | 0 <= j < |h.order| :: h.order[j] in seen
      ensures pending !! seen ==> pending == {}
    {
      forall b | b in pending ensures b in seen {
        assert EntryOk(BlockEntry(b));
        assert b in h.order;
      }
    }

    /** Scans the last merged range. */
    method FlushCoalesced()
      requires Mid() && shouldCoalesce && FlagOk() && usePending
      modifies this`cells, this`entries, this`pending, this`somePending, this`marked, this`coalesced
      modifies this`cards, this`resolved, this`risk
      ensures Mid() && Moved() && FlagOk() && coalesced == Range(0, 0)
      ensures old(somePending) ==> somePending
      ensures marked == old(marked) ==> somePending == old(somePending)
    {
      ScanRange(Range(0, 0));
    }

    method StartCoalescing()
      requires Mid() && !shouldCoalesce && usePending
      modifies this`shouldCoalesce
      ensures Mid() && shouldCoalesce
    {
      shouldCoalesce := true;
    }

    method StopCoalescing()
      requires Mid() && coalesced == Range(0, 0)
      modifies this`shouldCoalesce
      ensures Mid() && !shouldCoalesce
    {
      shouldCoalesce := false;
    }

    method ScanIfPending(b: int)
      requires Mid() && risk == {} && shouldCoalesce && CoverOk() && usePending
      modifies this`cells, this`entries, this`pending, this`somePending, this`marked, this`coalesced
      modifies this`cards, this`resolved, this`risk
      ensures Mid() && Moved() && KeptFlag()
      ensures somePending || pending <= old(pending) - {b}
      ensures marked == old(marked) ==> somePending == old(somePending)
    {
      hide Valid, LiveOk, CardsOk, ResolvedOk, TriOk, AssocOk, CoverOk, EntryOk, Potential;
      if b in pending {
        ClearPending(b);
        ScanBlock(b);
        Secure({}, cover[b]);
      }
    }

    /** Takes the pending bit off a block; its words are at risk until they have been scanned. */
    method ClearPending(b: int)
      requires Mid() && risk == {} && usePending && b in pending
      modifies this`pending, this`resolved, this`risk
      ensures Mid() && EntryOk(BlockEntry(b)) && b in cover
      ensures pending == old(pending) - {b}
      ensures risk == cover[b] && resolved == old(resolved) - cover[b]
    {
      hide LiveOk, CardsOk, AssocOk, RangeOk, Listed;
      assert EntryOk(BlockEntry(b));
      pending := pending - {b};
      resolved := resolved - cover[b];
      risk := cover[b];
      assert ResolvedOk() by {
        forall w | w in resolved ensures Resolved(w) {
          assert old(Resolved(w));
        }
      }
    }

    method ScanPendingUntilDone()
      requires Between() && CoverOk()
      modifies this`cells, this`entries, this`pending, this`somePending, this`marked, this`coalesced
      modifies this`cards, this`resolved, this`risk, this`shouldCoalesce
      ensures Between() && Moved() && Spent(0)
      ensures usePending ==> pending == {}
      ensures !usePending ==> Overflow() || entries == []
    {
      hide Valid, LiveOk, CardsOk, ResolvedOk, TriOk, AssocOk, CoverOk, Potential;
      if usePending {
        while somePending
          invariant Between() && Moved()
          decreases h.blocks.Keys - marked, somePending
        {
          somePending := false;
          ScanPendingBlocks();
        }
      } else {
        ScanStackUntilDone();
      }
    }

    /** A value from the enlivening queue is marked whatever its age. */
    method Repend(v: int)
      requires Between() && !scanningAssoc
      requires partial ==> forall b | b in h.blocks && !h.blocks[b].isNew :: b in marked
      requires v in h.blocks ==> v in live
      modifies this`cells, this`entries, this`pending, this`somePending, this`marked, this`resolved
      ensures Between() && Moved() && Spent(0)
      ensures v in h.blocks ==> v in marked
    {
      hide Valid, LiveOk, CardsOk, ResolvedOk, TriOk, Potential;
      if v in h.blocks && v !in marked {
        MarkUnreferenced(v);
        if h.blocks[v].scanned && usePending {
          somePending := true;
        }
      }
    }

    /** Drains the enlivening queue. */
    method ScanBarrier()
      requires Between() && !scanningAssoc
      requires partial ==> forall b | b in h.blocks && !h.blocks[b].isNew :: b in marked
      requires forall i | 0 <= i < |queue| && queue[i] in h.blocks :: queue[i] in live
      modifies this`cells, this`entries, this`pending, this`somePending, this`marked, this`resolved, this`queue
      ensures Between() && Moved() && Spent(0)
      ensures forall i | 0 <= i < |old(queue)| && old(queue)[i] in h.blocks :: old(queue)[i] in marked
      ensures queue == []
    {
      hide Valid, LiveOk, CardsOk, ResolvedOk, TriOk, AssocOk, Potential;
      var i := 0;
      while i < |queue|
        invariant 0 <= i <= |queue| && queue == old(queue)
        invariant Between() && Moved() && Spent(0)
        invariant forall k | 0 <= k < i && queue[k] in h.blocks :: queue[k] in marked
      {
        Repend(queue[i]);
        i := i + 1;
      }
      queue := [];
    }

    /** Visits every owner once; blocks marked on the way pend their own associations. */
    method ScanAssociations()
      requires Between() && CoverOk() && !scanningAssoc
      modifies this`cells, this`entries, this`pending, this`somePending, this`marked, this`coalesced
      modifies this`cards, this`resolved, this`risk, this`shouldCoalesce, this`scanningAssoc
      ensures Between() && Moved() && !scanningAssoc && Spent(0)
      ensures forall b | b in marked :: AssocClosed(b)
      ensures usePending ==> pending == {}
      ensures !usePending ==> Overflow() || entries == []
    {
      hide Valid, LiveOk, CardsOk, ResolvedOk, TriOk, Potential;
      PendAssociationsOfMarked();
      ScanPendingUntilDone();
      EndAssociations();
    }

    method PendAssociationsOfMarked()
      requires Between() && ValidHeap(h) && !scanningAssoc
      modifies this`cells, this`entries, this`pending, this`somePending, this`marked, this`resolved, this`scanningAssoc
      ensures Between() && Moved() && scanningAssoc && Spent(0)
    {
      hide Valid, LiveOk, CardsOk, ResolvedOk, Covered, AssocClosed, Potential, ValidHeap, Scheduled;
      scanningAssoc := true;
      label Visit:
      VisitOwners();
      ScheduledResolves@Visit();
      Renew(old(marked));
    }

    method EndAssociations()
      requires Between()
      modifies this`scanningAssoc
      ensures Between() && !scanningAssoc
    {
      hide Valid, LiveOk, CardsOk, ResolvedOk, TriOk;
      scanningAssoc := false;
    }

    method VisitOwners()
      requires Valid() && LiveOk() && ValidHeap(h) && scanningAssoc
      modifies this`cells, this`entries, this`pending, this`somePending, this`marked
      ensures Valid() && Grew() && NewAssocClosed() && Scheduled() && KeptFlag() && Spent(0)
      ensures forall b | b in marked :: AssocClosed(b)
    {
      hide RangeOk, EntryOk, Eligible, Potential, Listed;
      var i := 0;
      while i < |h.owners|
        invariant 0 <= i <= |h.owners|
        invariant Valid() && Grew() && NewAssocClosed() && Scheduled() && KeptFlag() && Spent(0)
        invariant forall j | 0 <= j < i && h.owners[j] in marked :: AssocClosed(h.owners[j])
      {
        var b := h.owners[i];
        if b in marked {
          PendAssociations(b);
        }
        i := i + 1;
      }
    }

    // ----- a whole collection -----

    /** The iterator visits every block, and each once. */
    ghost predicate VisitsOnce() {
      && (forall b :: b in h.blocks <==> b in h.order)
      && forall i, j | 0 <= i < j < |h.order| :: h.order[i] != h.order[j]
    }

    /** A block is new as long as its age is not zero. */
    ghost predicate AgesOk() reads this`ages {
      VisitsOnce() && ages.Keys == h.blocks.Keys && forall b | b in h.blocks :: h.blocks[b].isNew == (ages[b] > 0)
    }

    constructor (h: Heap, partial: bool, repair: bool, capacity: nat, queue: seq<int>, ages: map<int, nat>)
      requires ValidHeap(h)
      requires ages.Keys == h.blocks.Keys && forall b | b in h.blocks :: h.blocks[b].isNew == (ages[b] > 0)
      requires forall i, j | 0 <= i < j < |h.order| :: h.order[i] != h.order[j]
      ensures this.h == h && this.partial == partial && this.repair == repair && this.capacity == capacity
      ensures this.queue == queue && Fresh() && CoverOk() && cells == [] && !scanningAssoc && CardsOk()
      ensures this.ages == ages && AgesOk()
    {
      this.h, this.partial, this.repair, this.capacity, this.queue := h, partial, repair, capacity, queue;
      this.ages := ages;
      cover := map b | b in h.blocks :: AllWords(LayoutRanges(b, h.blocks[b]));
      cells, entries, marked, pending := [], [], {}, {};
      usePending, somePending, scanningAssoc, shouldCoalesce := false, false, false, false;
      coalesced, cards, garbage := Range(0, 0), h.cards, [];
      live, resolved, risk := {}, {}, {};
    }

    /** Nothing marked, nothing scheduled. */
    ghost predicate Fresh()
      reads this
    {
      && marked == {} && pending == {} && entries == [] && |cells| <= capacity
      && (usePending || Overflow() || cells == [])
      && !shouldCoalesce && coalesced == Range(0, 0)
    }

    /** The live set has the properties a pass relies on. */
    lemma LiveSetRespectsReferences(q: seq<int>)
      requires CoverOk() && live == LiveSet(h, partial, q)
      ensures LiveOk()
    {
      LiveSetClosed(h, partial, q);
      forall b, w | b in live && Eligible(h, partial, b) && h.blocks[b].scanned && b in cover && w in cover[b]
        && w in h.mem && Eligible(h, partial, h.mem[w]) ensures h.mem[w] in live {
        assert w in Traced(h, partial, b);
        assert Refers(h, partial, b, h.mem[w]);
      }
      forall b, v | b in live && b in h.assoc && v in h.assoc[b] && Eligible(h, partial, v) ensures v in live {
        assert Refers(h, partial, b, v);
      }
      forall b | b in cover ensures cover[b] <= h.mem.Keys {
        CoverReadable(b);
      }
    }

    lemma LiveSetHasStarts(q: seq<int>)
      requires ValidHeap(h) && live == LiveSet(h, partial, q)
      ensures StartsOk(q)
    {
      hide LiveSet, RootWords, CardWordsOk, Eligible;
      forall b | b in h.blocks && Pinned(h, partial, q, b) ensures b in live {
        StartLive(q, b);
      }
      RootsLive(q);
      if partial {
        forall b | b in h.blocks && !h.blocks[b].isNew && h.blocks[b].scanned
          ensures CardWordsOk(Range(b, b + h.blocks[b].size)) {
          OldCardsLive(q, b);
        }
      }
    }

    lemma StartLive(q: seq<int>, b: int)
      requires live == LiveSet(h, partial, q) && StartsLive(h, partial, q, b)
      ensures b in live
    {
      StartIsLive(h, partial, q, b);
    }

    lemma RootsLive(q: seq<int>)
      requires live == LiveSet(h, partial, q)
      ensures forall w | w in RootWords(h) && w in h.mem && Eligible(h, partial, h.mem[w]) :: h.mem[w] in live
    {
      hide LiveSet, RootWords;
      forall w | w in RootWords(h) && w in h.mem && Eligible(h, partial, h.mem[w]) ensures h.mem[w] in live {
        assert HeldByRoot(h, h.mem[w]);
        StartLive(q, h.mem[w]);
      }
    }

    lemma OldCardsLive(q: seq<int>, b: int)
      requires ValidHeap(h) && live == LiveSet(h, partial, q)
      requires partial && b in h.blocks && !h.blocks[b].isNew && h.blocks[b].scanned
      ensures CardWordsOk(Range(b, b + h.blocks[b].size))
    {
      LiveSetClosed(h, partial, q);
      assert StartsLive(h, partial, q, b);
      forall w | In(Range(b, b + h.blocks[b].size), w) && CardMarked(h, w) && Eligible(h, partial, h.mem[w])
        ensures h.mem[w] in live {
        assert w in Traced(h, partial, b);
        assert Refers(h, partial, b, h.mem[w]);
      }
    }

    lemma CoverReadable(b: int)
      requires CoverOk() && b in h.blocks
      ensures cover[b] <= h.mem.Keys
    {
      var k := h.blocks[b];
      match k.layout
      case Conservative =>
        AllWordsCons(Range(b, b + k.size), []);
        assert [Range(b, b + k.size)] + [] == [Range(b, b + k.size)];
      case StrongMap(bytes) => MapInside(true, bytes, b, b + k.size);
      case WeakMap(bytes) => MapInside(false, bytes, b, b + k.size);
    }

    /** When nothing is scheduled any more, the marked blocks are closed under references. */
    lemma MarkedClosed(q: seq<int>)
      requires Between() && CoverOk() && Intact() && (if usePending then pending == {} else entries == [])
      requires forall b | b in marked :: AssocClosed(b)
      requires RootWords(h) <= resolved
      requires forall b | b in h.blocks && Pinned(h, partial, q, b) :: b in marked
      requires OldCardsResolved()
      ensures Closed(h, partial, q, marked)
    {
      assert forall w | w in resolved && Eligible(h, partial, h.mem[w]) :: Resolved(w) && h.mem[w] in marked;
      forall b | StartsLive(h, partial, q, b) ensures b in marked {}
      forall b, v | b in marked && Eligible(h, partial, v) && Refers(h, partial, b, v) ensures v in marked {
        if w :| w in Traced(h, partial, b) && w in h.mem && h.mem[w] == v {
          assert w in resolved by {
            if Eligible(h, partial, b) {
              assert cover[b] <= resolved;
            } else {
              assert OldResolved(b) && In(Range(b, b + h.blocks[b].size), w);
            }
          }
        } else {
          assert AssocClosed(b);
        }
      }
    }

    /** Blocks kept whatever refers to them, other than by the queue, are marked. */
    ghost predicate KeptMarked() reads this`marked {
      forall b | b in h.blocks && (h.blocks[b].refcount > 0 || (partial && !h.blocks[b].isNew)) :: b in marked
    }

    ghost predicate OldCardsResolved() reads this`resolved {
      partial ==> forall b | b in h.blocks :: OldResolved(b)
    }

    /** Retained blocks, in a partial collection old ones too, and registered roots; nothing is popped meanwhile. */
    method CheckRoots(ghost q: seq<int>)
      requires Mid() && risk == {} && !shouldCoalesce && ValidHeap(h) && StartsOk(q) && !scanningAssoc && marked == {}
      modifies this`cells, this`entries, this`pending, this`somePending, this`marked, this`coalesced
      modifies this`cards, this`resolved, this`risk
      ensures Between() && Moved() && KeptMarked() && OldCardsResolved()
      ensures forall i | 0 <= i < |h.roots| :: h.roots[i] in resolved
      ensures Spent((if partial then OldWords(h, h.order) else 0) + |h.roots|)
      ensures !usePending && !partial && capacity <= |Retained(h)| ==> Overflow()
    {
      hide Valid, LiveOk, CardsOk, ResolvedOk, TriOk, AssocOk, Potential, Retained;
      if partial {
        ScanRetainedAndOldBlocks(q);
        assert forall b | b in h.blocks :: Kept(b);
      } else {
        ScanRetainedBlocks(q);
        if !usePending {
          RetainedTakeCells();
        }
      }
      forall i | 0 <= i < |h.roots| && Eligible(h, partial, h.mem[h.roots[i]]) ensures h.mem[h.roots[i]] in live {
        RootTargetLive(q, i);
      }
      ScanRootRanges();
    }

    lemma RootTargetLive(q: seq<int>, i: nat)
      requires StartsOk(q) && i < |h.roots| && h.roots[i] in h.mem && Eligible(h, partial, h.mem[h.roots[i]])
      ensures h.mem[h.roots[i]] in live
    {
      var w := h.roots[i];
      assert w in RootWords(h);
      assert h.mem[w] in live;
    }

    method ScanThreadsAndExternal(ghost q: seq<int>)
      requires Between() && CoverOk() && StartsOk(q)
      modifies this`cells, this`entries, this`pending, this`somePending, this`marked, this`coalesced
      modifies this`cards, this`resolved, this`risk, this`shouldCoalesce
      ensures Between() && Moved() && Spent(Lengths(h.threads) + Lengths(h.external))
      ensures AllWords(h.threads) <= resolved && AllWords(h.external) <= resolved
    {
      hide Valid, LiveOk, CardsOk, ResolvedOk, TriOk, AssocOk, Potential;
      ScanAll(h.threads);
      ScanAll(h.external);
      ScanPendingUntilDone();
    }

    /** Threads are suspended one at a time, each scanned and closed under references. */
    method ScanSuspended(ghost q: seq<int>)
      requires Between() && CoverOk() && StartsOk(q)
      modifies this`cells, this`entries, this`pending, this`somePending, this`marked, this`coalesced
      modifies this`cards, this`resolved, this`risk, this`shouldCoalesce
      ensures Between() && Moved() && Spent(StackLengths(h.suspended))
      ensures forall i | 0 <= i < |h.suspended| :: AllWords(h.suspended[i]) <= resolved
    {
      hide Valid, LiveOk, CardsOk, ResolvedOk, TriOk, AssocOk, Potential, CoverOk, StartsOk, AllWords;
      var i := 0;
      while i < |h.suspended|
        invariant 0 <= i <= |h.suspended|
        invariant Between() && Moved() && Spent(StackLengths(h.suspended[..i]))
        invariant forall k | 0 <= k < i :: AllWords(h.suspended[k]) <= resolved
      {
        assert h.suspended[..i+1][..i] == h.suspended[..i];
        ScanOneSuspended(i, q);
        i := i + 1;
      }
      assert h.suspended[..i] == h.suspended;
    }

    method ScanOneSuspended(i: nat, ghost q: seq<int>)
      requires Between() && CoverOk() && StartsOk(q) && i < |h.suspended|
      modifies this`cells, this`entries, this`pending, this`somePending, this`marked, this`coalesced
      modifies this`cards, this`resolved, this`risk, this`shouldCoalesce
      ensures Between() && Moved() && Spent(Lengths(h.suspended[i]))
      ensures AllWords(h.suspended[i]) <= resolved
    {
      hide Valid, LiveOk, CardsOk, ResolvedOk, TriOk, AssocOk, Potential;
      ScanAll(h.suspended[i]);
      ScanPendingUntilDone();
    }

    method ScanQueueAndAssociations(ghost q: seq<int>)
      requires Between() && CoverOk() && StartsOk(q) && !scanningAssoc && KeptMarked() && queue == q
      modifies this`cells, this`entries, this`pending, this`somePending, this`marked, this`coalesced
      modifies this`cards, this`resolved, this`risk, this`shouldCoalesce, this`scanningAssoc, this`queue
      ensures Between() && Moved() && !scanningAssoc && queue == [] && Spent(0)
      ensures forall i | 0 <= i < |q| && q[i] in h.blocks :: q[i] in marked
      ensures forall b | b in marked :: AssocClosed(b)
      ensures usePending ==> pending == {}
      ensures !usePending ==> Overflow() || entries == []
    {
      hide Valid, LiveOk, CardsOk, ResolvedOk, TriOk, Potential;
      forall i | 0 <= i < |queue| && queue[i] in h.blocks ensures queue[i] in live {
        assert Pinned(h, partial, q, queue[i]);
      }
      ScanBarrier();
      ScanAssociations();
    }

    method ScanStacks(ghost q: seq<int>)
      requires Between() && CoverOk() && StartsOk(q)
      modifies this`cells, this`entries, this`pending, this`somePending, this`marked, this`coalesced
      modifies this`cards, this`resolved, this`risk, this`shouldCoalesce
      ensures Between() && Moved()
      ensures Spent(Lengths(h.threads) + Lengths(h.external) + StackLengths(h.suspended))
      ensures AllWords(h.threads) <= resolved && AllWords(h.external) <= resolved
      ensures forall i | 0 <= i < |h.suspended| :: AllWords(h.suspended[i]) <= resolved
    {
      hide Valid, LiveOk, CardsOk, ResolvedOk, TriOk, AssocOk, Potential, CoverOk, StartsOk, AllWords;
      ScanThreadsAndExternal(q);
      ScanSuspended(q);
    }

    /** The phases of a scan. */
    method ScanPhases(ghost q: seq<int>)
      requires Mid() && risk == {} && !shouldCoalesce && !scanningAssoc && CoverOk() && StartsOk(q)
      requires marked == {} && queue == q
      modifies this`cells, this`entries, this`pending, this`somePending, this`marked, this`coalesced
      modifies this`cards, this`resolved, this`risk, this`shouldCoalesce, this`scanningAssoc, this`queue
      ensures Between() && !scanningAssoc && queue == [] && KeptMarked() && OldCardsResolved()
      ensures forall i | 0 <= i < |h.roots| :: h.roots[i] in resolved
      ensures AllWords(h.threads) <= resolved && AllWords(h.external) <= resolved
      ensures forall i | 0 <= i < |h.suspended| :: AllWords(h.suspended[i]) <= resolved
      ensures forall i | 0 <= i < |q| && q[i] in h.blocks :: q[i] in marked
      ensures forall b | b in marked :: AssocClosed(b)
      ensures usePending ==> pending == {}
      ensures !usePending ==> Overflow() || entries == []
      ensures !usePending && !partial && capacity <= |Retained(h)| ==> Overflow()
      ensures Spent(StackBound(h, partial) - Unreached(h, h.order, {}))
    {
      hide Valid, LiveOk, ResolvedOk, TriOk, AssocOk, RootWords, StartsOk, CardsOk, AllWords, KeptFlag, Potential,
        Retained, Unreached, OldWords, Lengths, StackLengths;
      CheckRoots(q);
      ScanStacks(q);
      ScanQueueAndAssociations(q);
    }

    /** One scan of the heap with quiet mutators. */
    method Scan()
      requires Fresh() && CoverOk() && CardsOk() && !scanningAssoc
      modifies this`cells, this`entries, this`pending, this`somePending, this`marked, this`coalesced, this`live
      modifies this`cards, this`resolved, this`risk, this`shouldCoalesce, this`scanningAssoc, this`queue
      ensures marked <= h.blocks.Keys && !scanningAssoc && CardsOk() && |cells| <= capacity
      ensures !shouldCoalesce && coalesced == Range(0, 0) && queue == []
      ensures Intact() ==> marked == LiveSet(h, partial, old(queue))
      ensures !usePending && !partial && capacity <= |Retained(h)| ==> Overflow()
      ensures !usePending && StackBound(h, partial) < capacity && !old(Overflow()) ==> !Overflow()
    {
      hide Valid, LiveOk, ResolvedOk, TriOk, AssocOk, RootWords, StartsOk, CardsOk, LiveSet, AllWords, KeptFlag,
        Potential, Retained, StackBound, Unreached, KeptMarked, OldCardsResolved, Lengths, CoverOk;
      ghost var q := queue;
      BeginPass(q);
      ScanPhases(q);
      EndPass(q);
    }

    ghost method BeginPass(q: seq<int>)
      requires Fresh() && CoverOk() && CardsOk() && !scanningAssoc
      modifies this`live, this`resolved, this`risk
      ensures Mid() && risk == {} && StartsOk(q) && live == LiveSet(h, partial, q)
      ensures Potential() == Unreached(h, h.order, {})
    {
      live, resolved, risk := LiveSet(h, partial, q), {}, {};
      LiveSetRespectsReferences(q);
      LiveSetHasStarts(q);
    }

    lemma EndPass(q: seq<int>)
      requires Between() && CoverOk() && live == LiveSet(h, partial, q)
      requires usePending ==> pending == {}
      requires !usePending ==> Overflow() || entries == []
      requires forall b | b in marked :: AssocClosed(b)
      requires forall i | 0 <= i < |h.roots| :: h.roots[i] in resolved
      requires AllWords(h.threads) <= resolved && AllWords(h.external) <= resolved
      requires forall i | 0 <= i < |h.suspended| :: AllWords(h.suspended[i]) <= resolved
      requires KeptMarked() && OldCardsResolved()
      requires forall i | 0 <= i < |q| && q[i] in h.blocks :: q[i] in marked
      ensures |cells| <= capacity && coalesced == Range(0, 0)
      ensures Intact() ==> marked == LiveSet(h, partial, q)
    {
      if Intact() {
        hide LiveOk, CardsOk;
        MarkedClosed(q);
        LiveSetLeast(h, partial, q, marked);
      }
    }

    /** Marks with the bounded stack, and when that overflowed again with pending bits. The queue
        drained by a scan that overflowed is not scanned again. */
    method MarkLive() returns (overflowed: bool)
      requires Fresh() && CoverOk() && CardsOk() && cells == [] && !scanningAssoc
      modifies this`cells, this`entries, this`pending, this`somePending, this`marked, this`coalesced, this`live
      modifies this`cards, this`resolved, this`risk, this`shouldCoalesce, this`scanningAssoc, this`queue
      modifies this`usePending
      ensures marked == LiveSet(h, partial, if overflowed then [] else old(queue))
      ensures !partial && capacity <= |Retained(h)| ==> overflowed
      ensures StackBound(h, partial) < capacity ==> !overflowed
      ensures CardsOk() && queue == []
    {
      hide LiveSet, CoverOk, CardsOk, Retained, StackBound;
      usePending := false;
      Scan();
      overflowed := |cells| == capacity;
      if overflowed {
        marked, pending := {}, {};
        entries := [];
        usePending := true;
        Scan();
      }
    }

    /** A collection: marking, then the list of garbage. */
    method Collect() returns (overflowed: bool)
      requires Fresh() && CoverOk() && CardsOk() && cells == [] && !scanningAssoc && AgesOk()
      modifies this
      ensures marked == LiveSet(h, partial, if overflowed then [] else old(queue))
      ensures marked == LiveSet(h, partial, old(queue)) <==>
              !overflowed || forall b | b in old(queue) && b in h.blocks :: b in LiveSet(h, partial, [])
      ensures !partial && capacity <= |Retained(h)| ==> overflowed
      ensures StackBound(h, partial) < capacity ==> !overflowed
      ensures FollowsMaps(h, partial, marked)
      ensures garbage == Unmarked(h.order, marked)
      ensures ages.Keys == h.blocks.Keys && forall b | b in h.blocks :: ages[b] == Older(old(ages)[b])
      ensures CardsOk() && cells == [] && queue == []
    {
      hide LiveSet, Unmarked, CoverOk, CardsOk, Retained, StackBound, AgesOk, Fresh, FollowsMaps;
      RetryAgrees(h, partial, queue);
      overflowed := MarkLive();
      MarkedFollowsMaps(if overflowed then [] else old(queue));
      cells := [];
      Scavenge();
    }

    lemma MarkedFollowsMaps(q: seq<int>)
      requires CoverOk() && marked == LiveSet(h, partial, q)
      ensures FollowsMaps(h, partial, marked)
    {
      hide LiveSet, FollowsMaps;
      LiveSetFollowsMaps(h, partial, q);
    }

    /** Lists the unmarked blocks in the order of the iterator, and ages all new ones. */
    method Scavenge()
      requires AgesOk()
      modifies this`garbage, this`ages
      ensures garbage == Unmarked(h.order, marked)
      ensures ages.Keys == h.blocks.Keys && forall b | b in h.blocks :: ages[b] == Older(old(ages)[b])
    {
      hide VisitsOnce, AgedUpTo, Older;
      garbage := [];
      var i := 0;
      AgedAtStart();
      while i < |h.order|
        invariant 0 <= i <= |h.order|
        invariant garbage == Unmarked(h.order[..i], marked)
        invariant ages == AgedUpTo(old(ages), i)
      {
        UnmarkedNext(h.order, i, marked);
        AgedNext(old(ages), i);
        VisitGarbage(h.order[i]);
        i := i + 1;
      }
      assert h.order[..i] == h.order;
      AgedAll(old(ages));
    }

    /** The visitor that ages a block and lists it if it is not marked. */
    method VisitGarbage(b: int)
      requires b in ages
      modifies this`garbage, this`ages
      ensures ages == old(ages)[b := Older(old(ages)[b])]
      ensures garbage == old(garbage) + if b in marked then [] else [b]
    {
      if ages[b] > 0 {
        ages := ages[b := ages[b] - 1];
      }
      if b !in marked {
        garbage := garbage + [b];
      }
    }

    /** The ages when the iterator has come to position i. */
    ghost function AgedUpTo(ages: map<int, nat>, i: nat): (aged: map<int, nat>)
      requires i <= |h.order|
    {
      map b | b in ages :: if b in h.order[..i] then Older(ages[b]) else ages[b]
    }

    lemma AgedAtStart()
      ensures AgedUpTo(ages, 0) == ages
    {}

    lemma AgedAll(ages: map<int, nat>)
      requires VisitsOnce() && ages.Keys == h.blocks.Keys
      ensures AgedUpTo(ages, |h.order|).Keys == h.blocks.Keys
      ensures forall b | b in h.blocks :: AgedUpTo(ages, |h.order|)[b] == Older(ages[b])
    {
      assert h.order[..|h.order|] == h.order;
    }

    lemma AgedNext(ages: map<int, nat>, i: nat)
      requires i < |h.order| && VisitsOnce() && ages.Keys == h.blocks.Keys
      ensures h.order[i] in ages && h.order[i] in AgedUpTo(ages, i)
      ensures AgedUpTo(ages, i + 1) == AgedUpTo(ages, i)[h.order[i] := Older(AgedUpTo(ages, i)[h.order[i]])]
    {
      var b := h.order[i];
      assert b in h.order;
      assert h.order[..i+1] == h.order[..i] + [b];
      assert b !in h.order[..i];
    }
  }

  /** One step towards old age. */
  function Older(age: nat): nat {
    if age == 0 then 0 else age - 1
  }

  lemma UnmarkedNext(order: seq<int>, i: nat, marked: set<int>)
    requires i < |order|
    ensures Unmarked(order[..i+1], marked)
            == Unmarked(order[..i], marked) + if order[i] in marked then [] else [order[i]]
  {
    assert order[..i+1][..i] == order[..i];
  }

  function Unmarked(order: seq<int>, marked: set<int>): (g: seq<int>)
    ensures forall b :: b in g <==> b in order && b !in marked
  {
    if order == [] then []
    else Unmarked(order[..|order|-1], marked) + (if order[|order|-1] in marked then [] else [order[|order|-1]])
  }

  // ----- the collection as a whole -----

  /** Fewer queued blocks have to be kept without the queue. */
  lemma ClosedWithoutQueue(h: Heap, partial: bool, queue: seq<int>, s: set<int>)
    requires Closed(h, partial, queue, s)
    ensures Closed(h, partial, [], s)
  {
    forall b | StartsLive(h, partial, [], b) ensures b in s {
      assert StartsLive(h, partial, queue, b);
    }
  }

  lemma ClosedWithQueue(h: Heap, partial: bool, queue: seq<int>, s: set<int>)
    requires Closed(h, partial, [], s) && forall b | b in queue && b in h.blocks :: b in s
    ensures Closed(h, partial, queue, s)
  {
    forall b | StartsLive(h, partial, queue, b) ensures b in s {
      assert StartsLive(h, partial, [], b) || b in queue;
    }
  }

  lemma QueuedIsInside(h: Heap, partial: bool, queue: seq<int>, s: set<int>, b: int)
    requires Closed(h, partial, queue, s) && b in queue && b in h.blocks
    ensures b in s
  {
    assert StartsLive(h, partial, queue, b);
  }

  lemma LiveWithoutQueue(h: Heap, partial: bool, queue: seq<int>)
    ensures LiveSet(h, partial, []) <= LiveSet(h, partial, queue)
  {
    hide LiveSet, Closed;
    LiveSetClosed(h, partial, queue);
    ClosedWithoutQueue(h, partial, queue, LiveSet(h, partial, queue));
    LiveSetLeast(h, partial, [], LiveSet(h, partial, queue));
  }

  lemma LiveWithQueue(h: Heap, partial: bool, queue: seq<int>)
    requires forall b | b in queue && b in h.blocks :: b in LiveSet(h, partial, [])
    ensures LiveSet(h, partial, queue) <= LiveSet(h, partial, [])
  {
    hide LiveSet, Closed;
    LiveSetClosed(h, partial, []);
    ClosedWithQueue(h, partial, queue, LiveSet(h, partial, []));
    LiveSetLeast(h, partial, queue, LiveSet(h, partial, []));
  }

  /** The retry after an overflow marks what an unbounded stack would have marked exactly when
      every queued block is live without the queue. */
  lemma RetryAgrees(h: Heap, partial: bool, queue: seq<int>)
    ensures LiveSet(h, partial, []) == LiveSet(h, partial, queue)
            <==> forall b | b in queue && b in h.blocks :: b in LiveSet(h, partial, [])
  {
    hide LiveSet, Closed;
    LiveWithoutQueue(h, partial, queue);
    if forall b | b in queue && b in h.blocks :: b in LiveSet(h, partial, []) {
      LiveWithQueue(h, partial, queue);
    }
    LiveSetClosed(h, partial, queue);
    forall b | b in queue && b in h.blocks ensures b in LiveSet(h, partial, queue) {
      QueuedIsInside(h, partial, queue, LiveSet(h, partial, queue), b);
    }
  }

  // ----- the block that the retry loses -----

  /** The start of the i-th block of a crowd. */
  function Place(i: nat): int {
    4 * (i + 1)
  }

  function Zeros(r: Range): (mem: map<int, int>) {
    map w | r.lo <= w < r.hi && In(r, w) :: 0
  }

  /** A heap of n retained blocks and one that is not; all memory is zero. */
  function Crowd(n: nat): (h: Heap) {
    Heap(Zeros(Range(0, Place(n) + 1)),
         map w | 0 < w <= Place(n) && w % 4 == 0 :: Block(1, true, Conservative, if w < Place(n) then 1 else 0, true),
         seq(n + 1, i requires i >= 0 => Place(i)),
         map[], [], seq(Place(n), _ => 0), [], [], [], [])
  }

  lemma CrowdOrder(n: nat, b: int)
    ensures b in Crowd(n).blocks <==> b in Crowd(n).order
  {
    var order := Crowd(n).order;
    if b in Crowd(n).blocks {
      var i := b / 4 - 1;
      assert order[i] == b;
    }
    if b in order {
      var i :| 0 <= i < |order| && order[i] == b;
      assert b == Place(i);
    }
  }

  lemma CrowdValid(n: nat)
    ensures ValidHeap(Crowd(n))
  {
    var h := Crowd(n);
    forall b ensures b in h.blocks <==> b in h.order {
      CrowdOrder(n, b);
    }
    forall i | 0 <= i < |h.order| ensures h.order[i] in h.blocks {
      assert h.order[i] == Place(i);
    }
  }

  predicate IsPlace(n: nat, b: int) {
    0 < b < Place(n) && b % 4 == 0
  }

  /** The addresses of the first n places. */
  function Places(n: nat): (s: set<int>) {
    set b | 0 < b < Place(n) && IsPlace(n, b)
  }

  lemma PlacesAre(n: nat)
    ensures forall b :: b in Places(n) <==> IsPlace(n, b)
  {}

  lemma NextPlace(n: nat, b: int)
    requires n > 0
    ensures IsPlace(n, b) <==> IsPlace(n - 1, b) || b == Place(n - 1)
  {
    var k := b / 4;
    assert b == 4 * k + b % 4;
  }

  lemma {:induction false} PlacesCount(n: nat)
    ensures |Places(n)| == n
  {
    if n == 0 {
      assert Places(0) == {};
    } else {
      PlacesCount(n - 1);
      forall b ensures IsPlace(n, b) <==> IsPlace(n - 1, b) || b == Place(n - 1) {
        NextPlace(n, b);
      }
      assert !IsPlace(n - 1, Place(n - 1));
      PlacesAre(n);
      PlacesAre(n - 1);
      hide IsPlace, Places, Place;
      assert Places(n) == Places(n - 1) + {Place(n - 1)};
    }
  }

  /** All blocks but the last are retained. */
  lemma CrowdRetained(n: nat)
    ensures Retained(Crowd(n)) == Places(n)
  {}

  /** Only the queue keeps the last block. */
  lemma CrowdLast(n: nat)
    ensures Place(n) in LiveSet(Crowd(n), false, [Place(n)]) && Place(n) !in LiveSet(Crowd(n), false, [])
  {
    var h, last := Crowd(n), Place(n);
    assert StartsLive(h, false, [last], last);
    StartIsLive(h, false, [last], last);
    CrowdClosed(n);
    LiveSetLeast(h, false, [], Retained(h));
    hide LiveSet;
  }

  lemma CrowdClosed(n: nat)
    ensures Closed(Crowd(n), false, [], Retained(Crowd(n)))
  {
    var h := Crowd(n);
    assert forall v | v in h.blocks :: v != 0;
    assert forall w | w in h.mem :: h.mem[w] == 0;
  }

  /** For every size of the scan stack there is a collection that takes a queued block for garbage:
      the retained blocks alone overflow the stack, and the retry does not see the queue. */
  method RetryLosesQueuedBlock(capacity: nat) returns (c: Collector, b: int, overflowed: bool)
    ensures fresh(c) && c.capacity == capacity && !c.partial && overflowed
    ensures b in LiveSet(c.h, false, [b]) && b in c.garbage
  {
    hide LiveSet, Crowd, ValidHeap, Retained;
    CrowdValid(capacity);
    CrowdRetained(capacity);
    PlacesCount(capacity);
    CrowdLast(capacity);
    CrowdAges(capacity);
    b := Place(capacity);
    var h := Crowd(capacity);
    c := new Collector(h, false, false, capacity, [b], map x | x in h.blocks :: 1);
    overflowed := c.Collect();
  }

  lemma CrowdAges(n: nat)
    ensures forall b | b in Crowd(n).blocks :: Crowd(n).blocks[b].isNew
    ensures forall i, j | 0 <= i < j < |Crowd(n).order| :: Crowd(n).order[i] != Crowd(n).order[j]
    ensures Place(n) in Crowd(n).order
  {
    assert Crowd(n).order[n] == Place(n);
  }
}
