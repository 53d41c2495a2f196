/**
 The write barrier and the generational hypothesis: which stores mark which cards, what the
 end of a collection does to the cards, and why the garbage found by a partial collection is
 garbage for a full collection too.
 */
module Generational {
  import opened Heap
  import opened Marker

  const CARD_UNMARKED := 0
  const CARD_MARKED := 1
  const CARD_MARKED_UNTOUCHED := 3

  // ----- the card table -----

  function MarkedFrom(cards: seq<int>, i: nat, n: nat): (r: seq<int>)
    requires i + n <= |cards|
    ensures |r| == |cards|
    ensures forall c | 0 <= c < |cards| :: r[c] == if i <= c < i + n then CARD_MARKED else cards[c]
  {
    if n == 0 then cards else MarkedFrom(cards, i, n - 1)[i + n - 1 := CARD_MARKED]
  }

  /** What clearing the untouched cards leaves. */
  function WithoutUntouched(cards: seq<int>): (r: seq<int>)
    ensures |r| == |cards|
    ensures forall c | 0 <= c < |cards| :: r[c] == if cards[c] == CARD_MARKED_UNTOUCHED then CARD_UNMARKED else cards[c]
  {
    if cards == [] then []
    else WithoutUntouched(cards[..|cards|-1])
         + [if cards[|cards|-1] == CARD_MARKED_UNTOUCHED then CARD_UNMARKED else cards[|cards|-1]]
  }

  class WriteBarrier {
    const cards: array<int>

    constructor (n: nat)
      ensures fresh(cards) && cards.Length == n && forall c | 0 <= c < n :: cards[c] == CARD_UNMARKED
    {
      cards := new int[n](_ => CARD_UNMARKED);
    }

    /** Marks every card that the words lo..lo+n touch. */
    method MarkCards(lo: int, n: nat)
      requires 0 <= lo && 0 < n && (lo + n - 1) / CARD_WORDS < cards.Length
      modifies cards
      ensures cards[..] == MarkedFrom(old(cards[..]), lo / CARD_WORDS, (lo + n - 1) / CARD_WORDS - lo / CARD_WORDS + 1)
    {
      var i, j := lo / CARD_WORDS, (lo + n - 1) / CARD_WORDS;
      var first := i;
      while i <= j
        invariant first <= i <= j + 1
        invariant cards[..] == MarkedFrom(old(cards[..]), first, i - first)
      {
        cards[i] := CARD_MARKED;
        i := i + 1;
      }
    }

    /** Meant to mark cards as provisionally untouched; every card keeps its value. */
    method MarkCardsUntouched()
      modifies cards
      ensures cards[..] == old(cards[..])
    {
      var i := 0;
      while i < cards.Length
        invariant 0 <= i <= cards.Length && cards[..] == old(cards[..])
      {
        if cards[i] == CARD_MARKED_UNTOUCHED {
          cards[i] := CARD_MARKED_UNTOUCHED;
        }
        i := i + 1;
      }
    }

    method ClearUntouchedCards()
      modifies cards
      ensures cards[..] == WithoutUntouched(old(cards[..]))
    {
      var i := 0;
      while i < cards.Length
        invariant 0 <= i <= cards.Length
        invariant forall c | i <= c < cards.Length :: cards[c] == old(cards[c])
        invariant forall c | 0 <= c < i :: cards[c] == WithoutUntouched(old(cards[..]))[c]
      {
        if cards[i] == CARD_MARKED_UNTOUCHED {
          cards[i] := CARD_UNMARKED;
        }
        i := i + 1;
      }
    }
  }

  // ----- runs of the mutators and the collector -----

  /** lowest is the lowest managed address. */
  datatype State = State(heap: Heap, lowest: int, repair: bool)

  datatype Step =
    | Store(w: int, v: int)                    // barriered store of one word
    | StoreRange(lo: int, vs: seq<int>)        // barriered copy of several words
    | StoreData(w: int, v: int)                // unbarriered store of a value that cannot be a block
    | StoreOutside(w: int, v: int)             // unbarriered store to a stack, root or external word
    | AddRoot(w: int, v: int)                  // registers a root and stores to it, without a card
    | RemoveRoot(w: int)
    | MoveStacks(threads: seq<Range>, external: seq<Range>, suspended: seq<seq<Range>>)
    | Retain(b: int, count: nat)               // the reference count of b becomes count
    | Associate(owner: int, vs: seq<int>)      // the associated values of owner become vs
    | Allocate(b: int, block: Block, clear: bool)
    | Free(b: int)
    | Mature(b: int)
    | EndFull                                  // cards become provisionally untouched
    | EndPartial                               // untouched cards are cleared after a full collection

  /** A readable word of the zone: the card table covers it. Stacks, registered roots and external
      ranges lie outside. */
  predicate Managed(s: State, w: int) {
    w in s.heap.mem && 0 <= w && w / CARD_WORDS < |s.heap.cards|
  }

  ghost predicate Enabled(s: State, step: Step) {
    match step
    case Store(w, v) => Managed(s, w)
    case StoreRange(lo, vs) => |vs| > 0 && forall w | lo <= w < lo + |vs| :: Managed(s, w)
    case StoreData(w, v) => w in s.heap.mem && !Plausible(s.lowest, v)
    case StoreOutside(w, v) => w in s.heap.mem && !Managed(s, w)
    case AddRoot(w, v) => w in s.heap.mem && !Managed(s, w)
    case RemoveRoot(w) => true
    case MoveStacks(threads, external, suspended) =>
      && AllReadable(s.heap, threads) && AllReadable(s.heap, external)
      && forall i | 0 <= i < |suspended| :: AllReadable(s.heap, suspended[i])
    case Retain(b, count) => b in s.heap.blocks
    case Associate(owner, vs) => true
    case Allocate(b, block, clear) =>
      && b !in s.heap.blocks && Plausible(s.lowest, b) && block.isNew && block.size > 0 && LayoutFits(block)
      && forall w | b <= w < b + block.size :: Managed(s, w)
    case Free(b) => b in s.heap.blocks
    case Mature(b) => b in s.heap.blocks
    case EndFull => true
    case EndPartial => true
  }

  function StoreWords(mem: map<int, int>, lo: int, vs: seq<int>): (m: map<int, int>)
    ensures m.Keys == mem.Keys
    ensures forall w | w in m :: m[w] == if lo <= w < lo + |vs| then vs[w - lo] else mem[w]
  {
    map w | w in mem.Keys :: if lo <= w < lo + |vs| then vs[w - lo] else mem[w]
  }

  function With<T(==)>(xs: seq<T>, x: T): (r: seq<T>) {
    if x in xs then xs else xs + [x]
  }

  ghost function Apply(s: State, step: Step): (t: State)
    requires Enabled(s, step)
  {
    var h := s.heap;
    match step
    case Store(w, v) => s.(heap := h.(mem := h.mem[w := v], cards := h.cards[w / CARD_WORDS := CARD_MARKED]))
    case StoreRange(lo, vs) =>
      assert Managed(s, lo) && Managed(s, lo + |vs| - 1);
      var n := (lo + |vs| - 1) / CARD_WORDS - lo / CARD_WORDS + 1;
      s.(heap := h.(mem := StoreWords(h.mem, lo, vs), cards := MarkedFrom(h.cards, lo / CARD_WORDS, n)))
    case StoreData(w, v) => s.(heap := h.(mem := h.mem[w := v]))
    case StoreOutside(w, v) => s.(heap := h.(mem := h.mem[w := v]))
    case AddRoot(w, v) => s.(heap := h.(mem := h.mem[w := v], roots := With(h.roots, w)))
    case RemoveRoot(w) => s.(heap := h.(roots := Unmarked(h.roots, {w})))
    case MoveStacks(threads, external, suspended) =>
      s.(heap := h.(threads := threads, external := external, suspended := suspended))
    case Retain(b, count) => s.(heap := h.(blocks := h.blocks[b := h.blocks[b].(refcount := count)]))
    case Associate(owner, vs) =>
      s.(heap := h.(assoc := h.assoc[owner := vs], owners := With(h.owners, owner)))
    case Allocate(b, block, clear) =>
      var zeros := seq(if clear then block.size else 1, _ => 0);
      s.(heap := h.(mem := StoreWords(h.mem, b, zeros), blocks := h.blocks[b := block], order := h.order + [b]))
    case Free(b) =>
      s.(heap := h.(blocks := h.blocks - {b}, order := Unmarked(h.order, {b}),
                    assoc := h.assoc - {b}, owners := Unmarked(h.owners, {b})))
    case Mature(b) => s.(heap := h.(blocks := h.blocks[b := h.blocks[b].(isNew := false)]))
    case EndFull => s.(repair := true)
    case EndPartial =>
      if s.repair then s.(heap := h.(cards := WithoutUntouched(h.cards)), repair := false) else s
  }

  /** Every word of the zone that may hold a block lies on a marked card, and no card is provisional. */
  ghost predicate CardsOk(s: State) {
    && s.lowest > 0
    && (forall b | b in s.heap.blocks :: Plausible(s.lowest, b))
    && (forall w | Managed(s, w) && Plausible(s.lowest, s.heap.mem[w]) :: CardMarked(s.heap, w))
    && (forall c | 0 <= c < |s.heap.cards| :: s.heap.cards[c] != CARD_MARKED_UNTOUCHED)
  }

  /** The iterator visits no block twice. */
  ghost predicate Once(order: seq<int>) {
    forall i, j | 0 <= i < j < |order| :: order[i] != order[j]
  }

  ghost predicate Inv(s: State) {
    CardsOk(s) && ValidHeap(s.heap) && Once(s.heap.order)
  }

  lemma MarkingKeepsMarks(h: Heap, cards: seq<int>)
    requires |cards| == |h.cards| && forall c | 0 <= c < |cards| :: cards[c] == h.cards[c] || cards[c] == CARD_MARKED
    ensures forall w :: CardMarked(h, w) ==> CardMarked(h.(cards := cards), w)
  {}

  /** Every step keeps the invariant, and no step ever unmarks a card. */
  lemma StepKeepsInv(s: State, step: Step)
    requires Inv(s) && Enabled(s, step)
    ensures Inv(Apply(s, step))
    ensures forall w :: CardMarked(s.heap, w) ==> CardMarked(Apply(s, step).heap, w)
  {
    hide ValidHeap, CardsOk, Apply, CardMarked, Once;
    StepKeepsHeap(s, step);
    StepKeepsCards(s, step);
    StepKeepsOrder(s, step);
  }

  lemma StepKeepsOrder(s: State, step: Step)
    requires Inv(s) && Enabled(s, step)
    ensures Once(Apply(s, step).heap.order)
  {
    hide CardsOk, Once, Unmarked;
    match step
    case Allocate(b, block, clear) => OnceMore(s.heap, b);
    case Free(b) => OnceStill(s.heap.order, {b});
    case _ =>
  }

  lemma OnceMore(h: Heap, b: int)
    requires ValidHeap(h) && Once(h.order) && b !in h.blocks
    ensures Once(h.order + [b])
  {
    forall i | 0 <= i < |h.order| ensures h.order[i] != b {
      assert h.order[i] in h.blocks;
    }
  }

  lemma {:induction false} OnceStill(order: seq<int>, gone: set<int>)
    requires Once(order)
    ensures Once(Unmarked(order, gone))
  {
    if order != [] {
      var front, rest := order[..|order|-1], Unmarked(order[..|order|-1], gone);
      OnceStill(front, gone);
      forall i | 0 <= i < |rest| ensures rest[i] != order[|order|-1] {
        var b := rest[i];
        assert b in rest && b in front;
      }
    }
  }

  lemma StepKeepsCards(s: State, step: Step)
    requires CardsOk(s) && Enabled(s, step)
    ensures CardsOk(Apply(s, step))
    ensures forall w :: CardMarked(s.heap, w) ==> CardMarked(Apply(s, step).heap, w)
  {
    hide StoreWords, MarkedFrom, AllReadable, LayoutFits, With, Unmarked, CardsOk, CardMarked;
    match step
    case Store(w, v) => StoreKeepsCards(s, w, v);
    case StoreRange(lo, vs) => StoreRangeKeepsCards(s, lo, vs);
    case Allocate(b, block, clear) => AllocateKeepsCards(s, b, block, clear);
    case EndPartial => EndPartialKeepsCards(s);
    case _ => QuietStepKeepsCards(s, Apply(s, step));
  }

  /** No card changes, no block is new, and no word of the zone gets a value that may be a block. */
  lemma QuietStepKeepsCards(s: State, t: State)
    requires CardsOk(s) && t.lowest == s.lowest && t.heap.cards == s.heap.cards
    requires t.heap.blocks.Keys <= s.heap.blocks.Keys && t.heap.mem.Keys == s.heap.mem.Keys
    requires forall w | Managed(s, w) :: t.heap.mem[w] == s.heap.mem[w] || !Plausible(s.lowest, t.heap.mem[w])
    ensures CardsOk(t)
    ensures forall w :: CardMarked(s.heap, w) ==> CardMarked(t.heap, w)
  {}

  lemma StoreKeepsCards(s: State, w: int, v: int)
    requires CardsOk(s) && Enabled(s, Store(w, v))
    ensures CardsOk(Apply(s, Store(w, v)))
    ensures forall x :: CardMarked(s.heap, x) ==> CardMarked(Apply(s, Store(w, v)).heap, x)
  {
    MarkingKeepsMarks(s.heap, Apply(s, Store(w, v)).heap.cards);
  }

  lemma EndPartialKeepsCards(s: State)
    requires CardsOk(s)
    ensures CardsOk(Apply(s, EndPartial))
    ensures forall w :: CardMarked(s.heap, w) ==> CardMarked(Apply(s, EndPartial).heap, w)
  {
    assert WithoutUntouched(s.heap.cards) == s.heap.cards;
  }

  lemma StoreRangeKeepsCards(s: State, lo: int, vs: seq<int>)
    requires CardsOk(s) && Enabled(s, StoreRange(lo, vs))
    ensures CardsOk(Apply(s, StoreRange(lo, vs)))
    ensures forall w :: CardMarked(s.heap, w) ==> CardMarked(Apply(s, StoreRange(lo, vs)).heap, w)
  {
    var t := Apply(s, StoreRange(lo, vs));
    MarkingKeepsMarks(s.heap, t.heap.cards);
    forall w | Managed(t, w) && Plausible(t.lowest, t.heap.mem[w]) ensures CardMarked(t.heap, w) {
      if lo <= w < lo + |vs| {
        assert lo / CARD_WORDS <= w / CARD_WORDS <= (lo + |vs| - 1) / CARD_WORDS;
        assert t.heap.cards[w / CARD_WORDS] == CARD_MARKED;
      } else {
        assert Managed(s, w) && t.heap.mem[w] == s.heap.mem[w];
      }
    }
  }

  lemma AllocateKeepsCards(s: State, b: int, block: Block, clear: bool)
    requires CardsOk(s) && Enabled(s, Allocate(b, block, clear))
    ensures CardsOk(Apply(s, Allocate(b, block, clear)))
    ensures forall w :: CardMarked(s.heap, w) ==> CardMarked(Apply(s, Allocate(b, block, clear)).heap, w)
  {
    var t := Apply(s, Allocate(b, block, clear));
    forall w | Managed(t, w) && Plausible(t.lowest, t.heap.mem[w]) ensures CardMarked(t.heap, w) {
      assert Managed(s, w);
    }
  }

  // ----- the heap stays well formed -----

  /** Only the words, their contents and the cards differ. */
  lemma WordsKeepHeap(h: Heap, mem: map<int, int>, cards: seq<int>)
    requires ValidHeap(h) && mem.Keys == h.mem.Keys && |cards| == |h.cards|
    ensures ValidHeap(h.(mem := mem, cards := cards))
  {
    var k := h.(mem := mem, cards := cards);
    assert forall r | Readable(h, r) :: Readable(k, r);
    hide Readable;
    assert forall rs | AllReadable(h, rs) :: AllReadable(k, rs);
    hide AllReadable;
  }

  lemma RootsKeepHeap(h: Heap, roots: seq<int>)
    requires ValidHeap(h) && forall i | 0 <= i < |roots| :: roots[i] in h.mem
    ensures ValidHeap(h.(roots := roots))
  {
    var k := h.(roots := roots);
    assert forall r | Readable(h, r) :: Readable(k, r);
    hide Readable;
    assert forall rs | AllReadable(h, rs) :: AllReadable(k, rs);
    hide AllReadable;
  }

  lemma StacksKeepHeap(h: Heap, threads: seq<Range>, external: seq<Range>, suspended: seq<seq<Range>>)
    requires ValidHeap(h) && AllReadable(h, threads) && AllReadable(h, external)
    requires forall i | 0 <= i < |suspended| :: AllReadable(h, suspended[i])
    ensures ValidHeap(h.(threads := threads, external := external, suspended := suspended))
  {
    var k := h.(threads := threads, external := external, suspended := suspended);
    assert forall r | Readable(h, r) :: Readable(k, r);
    hide Readable;
    assert forall rs | AllReadable(h, rs) :: AllReadable(k, rs);
    hide AllReadable;
  }

  lemma AssociationsKeepHeap(h: Heap, assoc: map<int, seq<int>>, owners: seq<int>)
    requires ValidHeap(h) && forall b :: b in assoc <==> b in owners
    ensures ValidHeap(h.(assoc := assoc, owners := owners))
  {
    var k := h.(assoc := assoc, owners := owners);
    assert forall r | Readable(h, r) :: Readable(k, r);
    hide Readable;
    assert forall rs | AllReadable(h, rs) :: AllReadable(k, rs);
    hide AllReadable;
  }

  ghost predicate BlockOk(h: Heap, b: int)
    requires b in h.blocks
  {
    && b > 0 && h.blocks[b].size > 0 && LayoutFits(h.blocks[b])
    && Readable(h, Range(b, b + h.blocks[b].size))
    && b + h.blocks[b].size <= CARD_WORDS * |h.cards|
  }

  /** The blocks may change, as long as each is where blocks can be and the iterator visits it. */
  lemma BlocksKeepHeap(h: Heap, k: Heap)
    requires ValidHeap(h) && k == h.(blocks := k.blocks, order := k.order)
    requires forall b :: b in k.blocks <==> b in k.order
    requires forall b | b in k.blocks :: BlockOk(k, b)
    ensures ValidHeap(k)
  {
    assert forall rs | AllReadable(h, rs) :: AllReadable(k, rs);
    hide AllReadable;
    forall i | 0 <= i < |k.order| ensures k.order[i] in k.blocks {
      var b := k.order[i];
      assert b in k.order;
    }
  }

  lemma AllocateKeepsHeap(s: State, b: int, block: Block, clear: bool)
    requires Inv(s) && Enabled(s, Allocate(b, block, clear))
    ensures ValidHeap(Apply(s, Allocate(b, block, clear)).heap)
  {
    var h, t := s.heap, Apply(s, Allocate(b, block, clear)).heap;
    var k := h.(mem := t.mem);
    WordsKeepHeap(h, t.mem, h.cards);
    forall x | x in t.blocks ensures BlockOk(t, x) {
      if x == b {
        assert Managed(s, b + block.size - 1);
        forall w | In(Range(b, b + block.size), w) ensures w in t.mem {
          assert Managed(s, w);
        }
      } else {
        assert BlockOk(k, x);
        assert Readable(k, Range(x, x + t.blocks[x].size)) ==> Readable(t, Range(x, x + t.blocks[x].size));
      }
    }
    BlocksKeepHeap(k, t);
  }

  lemma FreeKeepsHeap(s: State, b: int)
    requires Inv(s) && Enabled(s, Free(b))
    ensures ValidHeap(Apply(s, Free(b)).heap)
  {
    var h, t := s.heap, Apply(s, Free(b)).heap;
    forall x | x in t.blocks ensures BlockOk(h.(blocks := t.blocks, order := t.order), x) {
      assert BlockOk(h, x);
    }
    BlocksKeepHeap(h, h.(blocks := t.blocks, order := t.order));
    AssociationsKeepHeap(h.(blocks := t.blocks, order := t.order), t.assoc, t.owners);
  }

  /** A block changes its age or its count. */
  lemma RelabelKeepsHeap(h: Heap, b: int, block: Block)
    requires ValidHeap(h) && b in h.blocks && block.size == h.blocks[b].size && block.layout == h.blocks[b].layout
    ensures ValidHeap(h.(blocks := h.blocks[b := block]))
  {
    var k := h.(blocks := h.blocks[b := block]);
    forall x | x in k.blocks ensures BlockOk(k, x) {
      assert BlockOk(h, x);
    }
    BlocksKeepHeap(h, k);
  }

  lemma RemoveRootKeepsHeap(h: Heap, w: int)
    requires ValidHeap(h)
    ensures ValidHeap(h.(roots := Unmarked(h.roots, {w})))
  {
    var roots := Unmarked(h.roots, {w});
    forall i | 0 <= i < |roots| ensures roots[i] in h.mem {
      assert roots[i] in roots && roots[i] in h.roots;
    }
    RootsKeepHeap(h, roots);
  }

  lemma StepKeepsHeap(s: State, step: Step)
    requires Inv(s) && Enabled(s, step)
    ensures ValidHeap(Apply(s, step).heap)
  {
    hide ValidHeap, CardsOk;
    var h, t := s.heap, Apply(s, step).heap;
    match step
    case Store(w, v) => WordsKeepHeap(h, t.mem, t.cards);
    case StoreRange(lo, vs) => WordsKeepHeap(h, t.mem, t.cards);
    case StoreData(w, v) => WordsKeepHeap(h, t.mem, h.cards);
    case StoreOutside(w, v) => WordsKeepHeap(h, t.mem, h.cards);
    case AddRoot(w, v) => AddRootKeepsHeap(h, w, v);
    case RemoveRoot(w) => RemoveRootKeepsHeap(h, w);
    case MoveStacks(threads, external, suspended) => StacksKeepHeap(h, threads, external, suspended);
    case Retain(b, count) => RelabelKeepsHeap(h, b, t.blocks[b]);
    case Associate(owner, vs) => AssociateKeepsHeap(h, owner, vs);
    case Allocate(b, block, clear) => AllocateKeepsHeap(s, b, block, clear);
    case Free(b) => FreeKeepsHeap(s, b);
    case Mature(b) => RelabelKeepsHeap(h, b, t.blocks[b]);
    case EndFull =>
    case EndPartial => WordsKeepHeap(h, h.mem, t.cards);
  }

  lemma AddRootKeepsHeap(h: Heap, w: int, v: int)
    requires ValidHeap(h) && w in h.mem
    ensures ValidHeap(h.(mem := h.mem[w := v], roots := With(h.roots, w)))
  {
    var k := h.(mem := h.mem[w := v], cards := h.cards);
    WordsKeepHeap(h, k.mem, h.cards);
    RootsKeepHeap(k, With(h.roots, w));
  }

  lemma AssociateKeepsHeap(h: Heap, owner: int, vs: seq<int>)
    requires ValidHeap(h)
    ensures ValidHeap(h.(assoc := h.assoc[owner := vs], owners := With(h.owners, owner)))
  {
    assert forall b :: b in h.assoc <==> b in h.owners;
    AssociationsKeepHeap(h, h.assoc[owner := vs], With(h.owners, owner));
  }

  // ----- whole runs -----

  /** A zone without blocks, whose memory is zero; what stacks, roots and external ranges hold is
      arbitrary. */
  ghost predicate Init(s: State) {
    && ValidHeap(s.heap) && s.lowest > 0 && s.heap.blocks == map[]
    && (forall w | Managed(s, w) :: s.heap.mem[w] == 0)
    && (forall c | 0 <= c < |s.heap.cards| :: s.heap.cards[c] == CARD_UNMARKED)
  }

  ghost predicate IsRun(states: seq<State>, steps: seq<Step>) {
    && |states| == |steps| + 1 && Init(states[0])
    && forall i | 0 <= i < |steps| :: Enabled(states[i], steps[i]) && states[i+1] == Apply(states[i], steps[i])
  }

  lemma {:induction false} RunKeepsInv(states: seq<State>, steps: seq<Step>)
    requires IsRun(states, steps)
    ensures Inv(states[|states|-1])
    decreases |steps|
  {
    if steps != [] {
      hide Inv, Init, Enabled, Apply;
      var n := |steps| - 1;
      assert IsRun(states[..n+1], steps[..n]);
      RunKeepsInv(states[..n+1], steps[..n]);
      StepKeepsInv(states[n], steps[n]);
    }
  }

  // ----- partial against full collections -----

  /** What a partial collection keeps is closed under the references that a full collection follows. */
  lemma PartialLiveIsClosed(s: State, queue: seq<int>)
    requires Inv(s)
    ensures Closed(s.heap, false, queue, LiveSet(s.heap, true, queue))
  {
    var h, p := s.heap, LiveSet(s.heap, true, queue);
    LiveSetClosed(h, true, queue);
    forall b | StartsLive(h, false, queue, b) ensures b in p {
      assert StartsLive(h, true, queue, b);
    }
    forall b, v | b in p && Eligible(h, false, v) && Refers(h, false, b, v) ensures v in p {
      if !h.blocks[v].isNew {
        assert StartsLive(h, true, queue, v);
      } else {
        assert Refers(h, true, b, v) by {
          if w :| w in Traced(h, false, b) && w in h.mem && h.mem[w] == v {
            TracedOnMarkedCard(s, b, w);
          }
        }
      }
    }
  }

  /** What a full collection keeps, a partial collection of the same heap keeps as well. */
  lemma FullLiveIsPartialLive(s: State, queue: seq<int>)
    requires Inv(s)
    ensures LiveSet(s.heap, false, queue) <= LiveSet(s.heap, true, queue)
  {
    PartialLiveIsClosed(s, queue);
    LiveSetLeast(s.heap, false, queue, LiveSet(s.heap, true, queue));
  }

  /** A word of an old block that holds a block is one a partial collection reads. */
  lemma TracedOnMarkedCard(s: State, b: int, w: int)
    requires Inv(s) && b in s.heap.blocks
    requires w in Traced(s.heap, false, b) && w in s.heap.mem && s.heap.mem[w] in s.heap.blocks
    ensures w in Traced(s.heap, true, b)
  {
    var k := s.heap.blocks[b];
    match k.layout
    case Conservative =>
      AllWordsCons(Range(b, b + k.size), []);
      assert [Range(b, b + k.size)] + [] == [Range(b, b + k.size)];
    case StrongMap(bytes) => MapInside(true, bytes, b, b + k.size);
    case WeakMap(bytes) => MapInside(false, bytes, b, b + k.size);
  }

  /** After any run of mutators whose stores to the zone are barriered, and of collections, the garbage
      of a partial collection is garbage of a full collection from the same state. */
  lemma PartialGarbageIsGarbage(states: seq<State>, steps: seq<Step>, queue: seq<int>)
    requires IsRun(states, steps)
    ensures
      var h := states[|states|-1].heap;
      forall b | b in Unmarked(h.order, LiveSet(h, true, queue)) :: b in Unmarked(h.order, LiveSet(h, false, queue))
  {
    RunKeepsInv(states, steps);
    FullLiveIsPartialLive(states[|states|-1], queue);
  }

  /** A word that every collection reads, of a root, a stack or a block that is kept anyway. */
  ghost predicate ReadAnyway(h: Heap, queue: seq<int>, w: int) {
    w in RootWords(h) || exists b :: b in h.blocks && b in LiveSet(h, false, queue) && w in Traced(h, false, b)
  }

  /** The step puts v where a collection of the heap h that it leaves will find it. */
  ghost predicate Gives(h: Heap, queue: seq<int>, step: Step, v: int) {
    match step
    case Store(w, x) => x == v && ReadAnyway(h, queue, w)
    case StoreRange(lo, vs) => exists i :: 0 <= i < |vs| && vs[i] == v && ReadAnyway(h, queue, lo + i)
    case StoreOutside(w, x) => x == v && w in RootWords(h)
    case AddRoot(w, x) => x == v
    case Retain(b, count) => b == v && count > 0
    case Associate(owner, vs) => v in vs && owner in LiveSet(h, false, queue)
    case _ => false
  }

  lemma WordGivesLife(h: Heap, queue: seq<int>, w: int, v: int)
    requires ReadAnyway(h, queue, w) && w in h.mem && h.mem[w] == v && v in h.blocks
    ensures v in LiveSet(h, false, queue)
  {
    hide LiveSet, RootWords, Traced;
    LiveSetClosed(h, false, queue);
    if w in RootWords(h) {
      assert HeldByRoot(h, v) && StartsLive(h, false, queue, v);
    } else {
      var b :| b in h.blocks && b in LiveSet(h, false, queue) && w in Traced(h, false, b);
      assert Refers(h, false, b, v);
    }
  }

  /** What the step puts somewhere is there afterwards. */
  lemma GivenIsThere(s: State, step: Step, queue: seq<int>, v: int) returns (w: int)
    requires ValidHeap(s.heap) && Enabled(s, step) && Gives(Apply(s, step).heap, queue, step, v)
    requires step.Store? || step.StoreRange? || step.StoreOutside? || step.AddRoot?
    ensures var h := Apply(s, step).heap; ReadAnyway(h, queue, w) && w in h.mem && h.mem[w] == v
  {
    hide LiveSet, Traced, MarkedFrom, StoreWords, AllReadable;
    var h := Apply(s, step).heap;
    match step
    case Store(x, y) => w := x;
    case StoreRange(lo, vs) =>
      hide RootWords, ReadAnyway;
      var i :| 0 <= i < |vs| && vs[i] == v && ReadAnyway(h, queue, lo + i);
      w := lo + i;
      assert Managed(s, w);
    case StoreOutside(x, y) => w := x;
    case AddRoot(x, y) =>
      w := x;
      assert w in h.roots;
  }

  lemma OwnedIsLive(h: Heap, queue: seq<int>, owner: int, v: int)
    requires owner in LiveSet(h, false, queue) && owner in h.assoc && v in h.assoc[owner] && v in h.blocks
    ensures v in LiveSet(h, false, queue)
  {
    LiveSetClosed(h, false, queue);
    assert Refers(h, false, owner, v);
  }

  lemma RetainedIsLive(h: Heap, queue: seq<int>, v: int)
    requires v in h.blocks && h.blocks[v].refcount > 0
    ensures v in LiveSet(h, false, queue)
  {
    StartIsLive(h, false, queue, v);
  }

  /** Whatever a mutator stores, copies, registers, retains or associates with a block that is kept is
      kept by the next collection, be it full or partial. */
  lemma GivenIsKept(s: State, step: Step, queue: seq<int>, v: int)
    requires Inv(s) && Enabled(s, step)
    requires var h := Apply(s, step).heap; v in h.blocks && Gives(h, queue, step, v)
    ensures
      var h := Apply(s, step).heap;
      v in LiveSet(h, false, queue) && v in LiveSet(h, true, queue)
  {
    hide LiveSet, CardsOk, ValidHeap, Once, ReadAnyway, Enabled, MarkedFrom;
    var h := Apply(s, step).heap;
    match step {
      case Retain(b, count) => RetainedIsLive(h, queue, v);
      case Associate(owner, vs) => OwnedIsLive(h, queue, owner, v);
      case _ =>
        hide Apply;
        var w := GivenIsThere(s, step, queue, v);
        WordGivesLife(h, queue, w, v);
    }
    StepKeepsInv(s, step);
    FullLiveIsPartialLive(Apply(s, step), queue);
  }

  /** Block 8 is old, held by the root at 40, and holds block 12, which is new; no card is marked. */
  function Unbarriered(): (h: Heap) {
    Heap(map[8 := 12, 12 := 0, 40 := 8],
         map[8 := Block(1, true, Conservative, 0, false), 12 := Block(1, true, Conservative, 0, true)],
         [8, 12], map[], [], [CARD_UNMARKED], [40], [], [], [])
  }

  lemma Extend(states: seq<State>, steps: seq<Step>, step: Step) returns (more: seq<State>, longer: seq<Step>)
    requires IsRun(states, steps) && Enabled(states[|states|-1], step)
    ensures IsRun(more, longer) && |more| == |states| + 1
    ensures more[|more|-1] == Apply(states[|states|-1], step)
  {
    hide Enabled, Apply, Init;
    more, longer := states + [Apply(states[|states|-1], step)], steps + [step];
    forall i | 0 <= i < |longer| ensures Enabled(more[i], longer[i]) && more[i+1] == Apply(more[i], longer[i]) {
      if i < |steps| {
        assert more[i] == states[i] && more[i+1] == states[i+1] && longer[i] == steps[i];
      }
    }
  }

  /** Three words of zero, of which 40 is a registered root outside the zone. */
  function Untouched(): (s: State) {
    State(Heap(map[8 := 0, 12 := 0, 40 := 0], map[], [], map[], [], [CARD_UNMARKED], [40], [], [], []), 4, false)
  }

  lemma UntouchedRun()
    ensures IsRun([Untouched()], [])
  {}

  /** Block 8 is allocated and stored to the root. */
  lemma StoredToRoot() returns (states: seq<State>, steps: seq<Step>)
    ensures IsRun(states, steps) && |states| > 0 && states[|states|-1].lowest == 4
    ensures states[|states|-1].heap == Heap(map[8 := 0, 12 := 0, 40 := 8],
                                            map[8 := Block(1, true, Conservative, 0, true)], [8],
                                            map[], [], [CARD_UNMARKED], [40], [], [], [])
  {
    hide IsRun;
    states, steps := [Untouched()], [];
    UntouchedRun();
    states, steps := Extend(states, steps, Allocate(8, Block(1, true, Conservative, 0, true), true));
    states, steps := Extend(states, steps, StoreOutside(40, 8));
  }

  /** Block 8 ages and block 12 is allocated. */
  lemma BeforeTheStore() returns (states: seq<State>, steps: seq<Step>)
    ensures IsRun(states, steps) && |states| > 0
    ensures states[|states|-1].heap == Unbarriered().(mem := map[8 := 0, 12 := 0, 40 := 8])
  {
    hide IsRun, ValidHeap;
    states, steps := StoredToRoot();
    states, steps := Extend(states, steps, Mature(8));
    states, steps := Extend(states, steps, Allocate(12, Block(1, true, Conservative, 0, true), true));
  }

  /** Without the barrier the guarantee fails: some run leads to a state where one store to a word of
      the zone, made without the barrier, leaves a reachable block that a partial collection takes
      for garbage. */
  lemma UnbarrieredStoreBreaksGenerations() returns (states: seq<State>, steps: seq<Step>, w: int, v: int)
    ensures IsRun(states, steps) && |states| > 0
    ensures
      var s := states[|states|-1];
      Managed(s, w)
      && var h := s.heap.(mem := s.heap.mem[w := v]);
      v in Unmarked(h.order, LiveSet(h, true, [])) && v !in Unmarked(h.order, LiveSet(h, false, []))
  {
    states, steps := BeforeTheStore();
    w, v := 8, 12;
    var h := Unbarriered();
    assert h.mem == states[|states|-1].heap.mem[w := v];
    assert h.order[0] == 8 && h.order[1] == 12;
    UnbarrieredFull();
    UnbarrieredPartial();
    LiveSetLeast(h, true, [], {8});
  }

  lemma UnbarrieredPartial()
    ensures Closed(Unbarriered(), true, [], {8})
  {
    var h := Unbarriered();
    assert forall w | w in RootWords(h) :: w == 40;
    assert Traced(h, true, 8) == {};
  }

  lemma UnbarrieredFull()
    ensures 12 in LiveSet(Unbarriered(), false, [])
  {
    var h := Unbarriered();
    assert h.roots[0] == 40;
    assert 40 in RootWords(h);
    assert HeldByRoot(h, 8);
    StartIsLive(h, false, [], 8);
    AllWordsCons(Range(8, 9), []);
    assert [Range(8, 9)] + [] == [Range(8, 9)];
    assert 8 in Traced(h, false, 8);
    assert Refers(h, false, 8, 12);
    LiveExtends(h, false, [], 8, 12);
  }

  // ----- freeing what a collection has found -----

  /** The blocks bs have been freed, one after the other. */
  ghost predicate Freed(s: State, bs: seq<int>, u: State)
    decreases |bs|
  {
    if bs == [] then u == s
    else Enabled(s, Free(bs[0])) && Freed(Apply(s, Free(bs[0])), bs[1..], u)
  }

  /** u is s without the blocks bs and without what is associated with them. */
  ghost predicate Without(s: State, bs: seq<int>, u: State) {
    var h, k := s.heap, u.heap;
    && k.mem == h.mem && k.cards == h.cards
    && k.roots == h.roots && k.threads == h.threads && k.external == h.external && k.suspended == h.suspended
    && (forall b :: b in k.blocks <==> b in h.blocks && b !in bs)
    && (forall b | b in k.blocks :: k.blocks[b] == h.blocks[b])
    && (forall b :: b in k.assoc <==> b in h.assoc && b !in bs)
    && (forall b | b in k.assoc :: k.assoc[b] == h.assoc[b])
  }

  lemma OneFreed(s: State, b: int)
    requires b in s.heap.blocks
    ensures Without(s, [b], Apply(s, Free(b)))
  {}

  lemma WithoutMore(s: State, m: State, u: State, bs: seq<int>)
    requires bs != [] && Without(s, [bs[0]], m) && Without(m, bs[1..], u)
    ensures Without(s, bs, u)
  {
    assert bs == [bs[0]] + bs[1..];
  }

  lemma {:induction false} FreedIsWithout(s: State, bs: seq<int>, u: State)
    requires Inv(s) && Freed(s, bs, u)
    ensures Inv(u) && Without(s, bs, u)
    decreases |bs|
  {
    if bs != [] {
      hide Inv, Without, Apply;
      var m := Apply(s, Free(bs[0]));
      StepKeepsInv(s, Free(bs[0]));
      OneFreed(s, bs[0]);
      FreedIsWithout(m, bs[1..], u);
      WithoutMore(s, m, u, bs);
    }
  }

  /** The blocks of a duplicate-free list can all be freed. */
  lemma {:induction false} CanBeFreed(s: State, bs: seq<int>) returns (u: State)
    requires Inv(s) && Once(bs) && forall i | 0 <= i < |bs| :: bs[i] in s.heap.blocks
    ensures Freed(s, bs, u)
    decreases |bs|
  {
    u := s;
    if bs != [] {
      var m := Apply(s, Free(bs[0]));
      StepKeepsInv(s, Free(bs[0]));
      assert forall i | 0 <= i < |bs[1..]| :: bs[1..][i] == bs[i+1];
      u := CanBeFreed(m, bs[1..]);
    }
  }

  /** Among the blocks that are left the references are as before. */
  lemma SameReferences(s: State, bs: seq<int>, u: State, partial: bool, queue: seq<int>, b: int)
    requires Without(s, bs, u) && b in u.heap.blocks
    ensures StartsLive(s.heap, partial, queue, b) ==> StartsLive(u.heap, partial, queue, b)
    ensures forall v :: Refers(s.heap, partial, b, v) ==> Refers(u.heap, partial, b, v)
  {
    assert RootWords(u.heap) == RootWords(s.heap);
    assert Traced(u.heap, partial, b) == Traced(s.heap, partial, b);
    hide RootWords, Traced;
  }

  /** u holds just the blocks that a collection of s keeps. */
  ghost predicate Collected(s: State, bs: seq<int>, partial: bool, queue: seq<int>, u: State) {
    Without(s, bs, u) && u.heap.blocks.Keys == LiveSet(s.heap, partial, queue)
  }

  lemma LiveAreBlocks(h: Heap, partial: bool, queue: seq<int>)
    ensures LiveSet(h, partial, queue) <= h.blocks.Keys
  {}

  lemma StartIsLeft(s: State, bs: seq<int>, partial: bool, queue: seq<int>, u: State, b: int)
    requires Collected(s, bs, partial, queue, u) && StartsLive(s.heap, partial, queue, b)
    ensures b in LiveSet(u.heap, partial, queue)
  {
    hide LiveSet, Refers, StartsLive, Without;
    LiveSetClosed(s.heap, partial, queue);
    assert b in u.heap.blocks;
    SameReferences(s, bs, u, partial, queue, b);
    hide Eligible;
    LiveSetClosed(u.heap, partial, queue);
  }

  lemma ReferredIsLeft(s: State, bs: seq<int>, partial: bool, queue: seq<int>, u: State, b: int, v: int)
    requires Collected(s, bs, partial, queue, u) && b in LiveSet(u.heap, partial, queue)
    requires Eligible(s.heap, partial, v) && Refers(s.heap, partial, b, v)
    ensures v in LiveSet(u.heap, partial, queue)
  {
    hide LiveSet, Refers, StartsLive, RootWords, Traced;
    LiveAreBlocks(u.heap, partial, queue);
    assert b in u.heap.blocks && b in LiveSet(s.heap, partial, queue);
    assert v in u.heap.blocks by {
      LiveSetClosed(s.heap, partial, queue);
    }
    SameReferences(s, bs, u, partial, queue, b);
    assert Eligible(u.heap, partial, v) && Refers(u.heap, partial, b, v);
    hide Without, Eligible;
    LiveSetClosed(u.heap, partial, queue);
  }

  lemma LeftIsLive(s: State, bs: seq<int>, partial: bool, queue: seq<int>, u: State)
    requires Collected(s, bs, partial, queue, u)
    ensures LiveSet(u.heap, partial, queue) == u.heap.blocks.Keys
  {
    var kept := LiveSet(u.heap, partial, queue);
    LiveAreBlocks(u.heap, partial, queue);
    hide LiveSet, Without, StartsLive, Refers, Eligible;
    forall b | StartsLive(s.heap, partial, queue, b) ensures b in kept {
      StartIsLeft(s, bs, partial, queue, u, b);
    }
    forall b, v | b in kept && Eligible(s.heap, partial, v) && Refers(s.heap, partial, b, v) ensures v in kept {
      ReferredIsLeft(s, bs, partial, queue, u, b, v);
    }
    LiveSetLeast(s.heap, partial, queue, kept);
  }

  lemma {:induction false} NothingUnmarked(order: seq<int>, marked: set<int>)
    requires forall b | b in order :: b in marked
    ensures Unmarked(order, marked) == []
  {
    if order != [] {
      var b := order[|order|-1];
      assert b in order;
      NothingUnmarked(order[..|order|-1], marked);
    }
  }

  lemma LeftAreUnfreed(s: State, partial: bool, queue: seq<int>, u: State)
    requires ValidHeap(s.heap) && Without(s, Unmarked(s.heap.order, LiveSet(s.heap, partial, queue)), u)
    ensures u.heap.blocks.Keys == LiveSet(s.heap, partial, queue)
  {
    LiveAreBlocks(s.heap, partial, queue);
    hide LiveSet;
    assert forall b :: b in u.heap.blocks <==> b in LiveSet(s.heap, partial, queue);
  }

  /** The garbage of a collection can be freed block by block. */
  lemma GarbageCanBeFreed(s: State, partial: bool, queue: seq<int>) returns (u: State)
    requires Inv(s)
    ensures Freed(s, Unmarked(s.heap.order, LiveSet(s.heap, partial, queue)), u)
  {
    hide LiveSet, CardsOk, Freed;
    var order, live := s.heap.order, LiveSet(s.heap, partial, queue);
    OnceStill(order, live);
    var bs := Unmarked(order, live);
    forall i | 0 <= i < |bs| ensures bs[i] in s.heap.blocks {
      var b := bs[i];
      assert b in bs && b in order;
    }
    u := CanBeFreed(s, bs);
  }

  /** Once its garbage has been freed, a collection has left exactly the live blocks, and they are all
      still live: the same collection would find no garbage any more. */
  lemma CollectedHeapIsLive(s: State, partial: bool, queue: seq<int>, u: State)
    requires Inv(s) && Freed(s, Unmarked(s.heap.order, LiveSet(s.heap, partial, queue)), u)
    ensures Inv(u) && u.heap.blocks.Keys == LiveSet(s.heap, partial, queue)
    ensures LiveSet(u.heap, partial, queue) == u.heap.blocks.Keys
    ensures Unmarked(u.heap.order, LiveSet(u.heap, partial, queue)) == []
  {
    hide LiveSet, Freed, Without, CardsOk, Once, Unmarked;
    var bs := Unmarked(s.heap.order, LiveSet(s.heap, partial, queue));
    FreedIsWithout(s, bs, u);
    LeftAreUnfreed(s, partial, queue, u);
    LeftIsLive(s, bs, partial, queue, u);
    NothingUnmarked(u.heap.order, LiveSet(u.heap, partial, queue));
  }

  /** The paranoid mode's comparison of the two garbage lists. */
  method ParanoidCheck(generational: seq<int>, full: seq<int>) returns (failure: bool)
    ensures failure <==> exists b :: b in generational && b !in full
  {
    failure := false;
    var i := 0;
    while i < |generational|
      invariant 0 <= i <= |generational|
      invariant failure <==> exists b :: b in generational[..i] && b !in full
    {
      var j := 0;
      while j < |full|
        invariant 0 <= j <= |full|
        invariant generational[i] !in full[..j]
      {
        if full[j] == generational[i] {
          break;
        }
        j := j + 1;
      }
      var b := generational[i];
      assert forall a :: a in generational[..i+1] <==> a in generational[..i] || a == b;
      if j >= |full| {
        assert full[..j] == full;
        failure := true;
        assert b in generational[..i+1];
      }
      i := i + 1;
    }
    assert generational[..i] == generational;
  }

  // ----- the paranoid mode -----

  /** The heap after a collection has aged its blocks and repaired its cards. */
  function Aged(h: Heap, ages: map<int, nat>, cards: seq<int>): (k: Heap) {
    h.(blocks := map b | b in h.blocks :: h.blocks[b].(isNew := b in ages && ages[b] > 0), cards := cards)
  }

  lemma AgedKeepsHeap(h: Heap, ages: map<int, nat>, cards: seq<int>)
    requires ValidHeap(h) && |cards| == |h.cards|
    ensures ValidHeap(Aged(h, ages, cards)) && Aged(h, ages, cards).order == h.order
  {
    var k := h.(mem := h.mem, cards := cards);
    WordsKeepHeap(h, h.mem, cards);
    forall b | b in k.blocks ensures BlockOk(Aged(h, ages, cards), b) {
      assert BlockOk(k, b);
    }
    BlocksKeepHeap(k, Aged(h, ages, cards));
  }

  /** Neither the words a full collection reads nor its references depend on ages or cards. */
  lemma RefersIgnoresAges(h: Heap, ages: map<int, nat>, cards: seq<int>)
    ensures
      var k := Aged(h, ages, cards);
      forall b, v :: Refers(k, false, b, v) <==> Refers(h, false, b, v)
  {
    var k := Aged(h, ages, cards);
    assert forall b | b in h.blocks :: LayoutRanges(b, k.blocks[b]) == LayoutRanges(b, h.blocks[b]);
    hide LayoutRanges;
    assert forall b | b in h.blocks :: Traced(k, false, b) == Traced(h, false, b);
    hide Traced;
  }

  lemma StartsIgnoreAges(h: Heap, ages: map<int, nat>, cards: seq<int>, queue: seq<int>)
    ensures
      var k := Aged(h, ages, cards);
      forall b :: StartsLive(k, false, queue, b) <==> StartsLive(h, false, queue, b)
  {
    var k := Aged(h, ages, cards);
    assert RootWords(k) == RootWords(h);
    hide RootWords;
    assert forall v :: HeldByRoot(k, v) <==> HeldByRoot(h, v);
    hide HeldByRoot;
  }

  /** A full collection does not look at ages or cards. */
  lemma FullIgnoresAges(h: Heap, ages: map<int, nat>, cards: seq<int>, queue: seq<int>)
    ensures LiveSet(Aged(h, ages, cards), false, queue) == LiveSet(h, false, queue)
  {
    hide Refers, StartsLive;
    var k := Aged(h, ages, cards);
    RefersIgnoresAges(h, ages, cards);
    StartsIgnoreAges(h, ages, cards, queue);
    assert forall p :: IsTrace(k, false, queue, p) <==> IsTrace(h, false, queue, p);
    hide IsTrace;
    assert forall b :: Live(k, false, queue, b) <==> Live(h, false, queue, b);
  }

  /** A partial collection keeps whatever a full one keeps, if every block that is queued for the full
      one is among what it keeps. */
  lemma FullLiveWithQueue(s: State, queue: seq<int>, fullQueue: seq<int>)
    requires Inv(s) && forall b | b in fullQueue && b in s.heap.blocks :: b in LiveSet(s.heap, true, queue)
    ensures LiveSet(s.heap, false, fullQueue) <= LiveSet(s.heap, true, queue)
  {
    hide LiveSet, Closed, Inv;
    var p := LiveSet(s.heap, true, queue);
    PartialLiveIsClosed(s, queue);
    ClosedWithoutQueue(s.heap, false, queue, p);
    ClosedWithQueue(s.heap, false, fullQueue, p);
    LiveSetLeast(s.heap, false, fullQueue, p);
  }

  lemma QueuedIsLive(h: Heap, partial: bool, queue: seq<int>, b: int)
    requires b in queue && b in h.blocks
    ensures b in LiveSet(h, partial, queue)
  {
    hide LiveSet, Closed;
    LiveSetClosed(h, partial, queue);
    QueuedIsInside(h, partial, queue, LiveSet(h, partial, queue), b);
  }

  /** The check compares well: it fails exactly when a block of the generational garbage has been
      queued for the full collection, and that collection did not lose its queue. */
  lemma ParanoidFailsIff(s: State, queue: seq<int>, fullQueue: seq<int>)
    requires Inv(s)
    ensures
      var h := s.heap;
      var generational := Unmarked(h.order, LiveSet(h, true, queue));
      var full := Unmarked(h.order, LiveSet(h, false, fullQueue));
      (exists b :: b in generational && b !in full) <==> exists b :: b in generational && b in fullQueue
  {
    hide LiveSet, Closed, CardsOk, Once;
    var h := s.heap;
    var generational := Unmarked(h.order, LiveSet(h, true, queue));
    var full := Unmarked(h.order, LiveSet(h, false, fullQueue));
    if b :| b in generational && b in fullQueue {
      QueuedIsLive(h, false, fullQueue, b);
      assert b !in full;
    } else {
      FullLiveWithQueue(s, queue, fullQueue);
    }
  }

  /** The same, for the heap that the partial collection leaves to the full one. */
  lemma AgedFailsIff(s: State, queue: seq<int>, fullQueue: seq<int>, ages: map<int, nat>, cards: seq<int>)
    requires Inv(s)
    ensures
      var h := s.heap;
      var generational := Unmarked(h.order, LiveSet(h, true, queue));
      var full := Unmarked(h.order, LiveSet(Aged(h, ages, cards), false, fullQueue));
      (exists b :: b in generational && b !in full) <==> exists b :: b in generational && b in fullQueue
  {
    hide LiveSet, Inv, Unmarked, Aged;
    FullIgnoresAges(s.heap, ages, cards, fullQueue);
    ParanoidFailsIff(s, queue, fullQueue);
  }

  /** The ages tell which blocks are new. */
  ghost predicate Dated(h: Heap, ages: map<int, nat>) {
    ages.Keys == h.blocks.Keys && forall b | b in h.blocks :: h.blocks[b].isNew == (ages[b] > 0)
  }

  lemma AgedIsDated(h: Heap, ages: map<int, nat>, cards: seq<int>)
    requires ages.Keys == h.blocks.Keys
    ensures Dated(Aged(h, ages, cards), ages)
  {
    var k := Aged(h, ages, cards);
    assert k.blocks.Keys == h.blocks.Keys;
  }

  /** One collection, with what it leaves to the next one. */
  method CollectHeap(h: Heap, partial: bool, repair: bool, capacity: nat, queue: seq<int>, ages: map<int, nat>)
    returns (overflowed: bool, garbage: seq<int>, older: map<int, nat>, cards: seq<int>)
    requires ValidHeap(h) && Once(h.order) && Dated(h, ages)
    ensures garbage == Unmarked(h.order, LiveSet(h, partial, if overflowed then [] else queue))
    ensures !partial && capacity <= |Retained(h)| ==> overflowed
    ensures StackBound(h, partial) < capacity ==> !overflowed
    ensures older.Keys == h.blocks.Keys && |cards| == |h.cards|
  {
    hide ValidHeap, LiveSet, Unmarked, Retained, StackBound;
    var c := new Collector(h, partial, repair, capacity, queue, ages);
    hide Collector.CoverOk, Collector.AgesOk, Collector.Fresh;
    overflowed := c.Collect();
    garbage, older, cards := c.garbage, c.ages, c.cards;
  }

  /** Neither do the bounds on the scan stack of a full collection. */
  lemma {:induction false} UnreachedIgnoresAges(h: Heap, ages: map<int, nat>, cards: seq<int>, order: seq<int>)
    ensures Unreached(Aged(h, ages, cards), order, {}) == Unreached(h, order, {})
    decreases |order|
  {
    if order != [] {
      UnreachedIgnoresAges(h, ages, cards, order[..|order|-1]);
    }
  }

  lemma BoundsIgnoreAges(h: Heap, ages: map<int, nat>, cards: seq<int>)
    ensures StackBound(Aged(h, ages, cards), false) == StackBound(h, false)
    ensures Retained(Aged(h, ages, cards)) == Retained(h)
  {
    UnreachedIgnoresAges(h, ages, cards, h.order);
  }

  /** The paranoid mode, after any run: a partial collection and then, unless it found no garbage, a
      full one of the same heap. A failure is reported if and only if a block of the generational
      garbage has been queued in between and the full collection did not overflow; in particular none
      is reported when mutators are quiet, whatever the queue of the partial collection and the
      capacity of the stack. Without a failure the garbage of the full collection is handed on, which
      contains that of the partial one. */
  method ParanoidCollection(h: Heap, repair: bool, capacity: nat, queue: seq<int>, fullQueue: seq<int>,
                            ages: map<int, nat>, ghost states: seq<State>, ghost steps: seq<Step>)
    returns (failure: bool, garbage: seq<int>, generational: seq<int>, lost: bool, overflowed: bool)
    requires IsRun(states, steps) && h == states[|states|-1].heap
    requires Dated(h, ages)
    ensures generational == Unmarked(h.order, LiveSet(h, true, if lost then [] else queue))
    ensures StackBound(h, true) < capacity ==> !lost
    ensures failure <==> !overflowed && exists b :: b in generational && b in fullQueue
    ensures fullQueue == [] ==> !failure
    ensures generational != [] && capacity <= |Retained(h)| ==> overflowed
    ensures generational == [] || StackBound(h, false) < capacity ==> !overflowed
    ensures garbage == if generational == [] || failure then []
                       else Unmarked(h.order, LiveSet(h, false, if overflowed then [] else fullQueue))
    ensures !failure ==> forall b | b in generational :: b in garbage
  {
    RunKeepsInv(states, steps);
    ghost var s := states[|states|-1];
    hide IsRun, CardsOk, LiveSet, Unmarked, ValidHeap, Once, Dated, Aged, StackBound, Retained;
    var older, cards;
    lost, generational, older, cards := CollectHeap(h, true, repair, capacity, queue, ages);
    if generational == [] {
      return false, [], generational, lost, false;
    }
    AgedKeepsHeap(h, older, cards);
    AgedIsDated(h, older, cards);
    BoundsIgnoreAges(h, older, cards);
    var aged := Aged(h, older, cards);
    var full, oldest, after;
    overflowed, full, oldest, after := CollectHeap(aged, false, repair, capacity, fullQueue, older);
    failure := ParanoidCheck(generational, full);
    garbage := if failure then [] else full;
    ghost var seen := if overflowed then [] else fullQueue;
    FullIgnoresAges(h, older, cards, seen);
    AgedFailsIff(s, if lost then [] else queue, seen, older, cards);
  }
}
