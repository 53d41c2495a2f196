/**
 The concurrent protocol between the collector and the mutators: the enlivening lock and flag,
 the enlivening queue, barriered stores and their cards, root and association stores, allocation
 through the double-checked barrier, and the phases of full and partial collections from raising
 the flag to the garbage list.

 One step of the model is one access to shared state, or the acquisition or release of a lock.
 Threads interleave freely between steps.
 */
module Enlivening {
  import Heap

  type Tid = nat

  datatype Lock = Unlocked | ByCollector | ByThread(t: Tid)

  datatype Phase =
    | Idle            // no collection in progress
    | Starting        // flag raised, registered roots not copied yet
    | Scanning        // registered roots copied
    | Draining        // enlivening lock taken, queue being emptied
    | Associating     // queue empty, associations being scanned
    | Scavenged       // garbage list complete
    | Finalizing      // flag lowered, lock released, garbage not freed yet

  datatype Pc =
    | Running
    // barriered store, root store, association store: the enlivening lock is held
    | StoreLocked(w: int, v: int)
    | StoreQueued(w: int, v: int)
    | StoreWritten(w: int, v: int)                         // written, its card not marked yet
    | RootLocked(r: int, v: int)
    | RootInserted(r: int, v: int)
    | RootQueued(r: int, v: int)
    | AssocLocked(owner: int, key: int, v: int)
    | AssocStored(v: int)
    | Releasing
    // allocation: the lock of the allocator is held
    | AllocLocked(b: int, words: set<int>)
    | AllocRead(b: int, words: set<int>, seen: bool)       // flag read without the enlivening lock
    | AllocChecked(b: int, words: set<int>)                // enlivening lock held, flag still up
    | AllocPublished(b: int)                               // side data written, not queued yet
    | AllocUnguarded(b: int, words: set<int>)              // flag was down: no lock, no queue

  datatype State = State(
    lowest: int,                         // the lowest managed address
    zone: set<int>,                      // words under the write barrier; no root is registered here
    mem: map<int, int>,
    cards: set<int>,                     // marked cards
    blocks: map<int, set<int>>,          // published blocks and the words scanned of each
    aged: set<int>,                      // old blocks
    roots: set<int>,                     // registered root words
    assoc: map<(int, int), int>,         // (owner, key) to value
    marked: set<int>,
    todo: set<int>,                      // words scheduled for scanning
    owners: set<int>,                    // owners whose associations have to be visited
    queue: set<int>,
    needs: bool,                         // the flag
    lock: Lock,                          // the enlivening lock
    phase: Phase,
    partial: bool,                       // the collection is a partial one
    lost: bool,                          // the scan stack has overflowed in this pass
    garbage: set<int>,
    published: set<int>,                 // blocks published in this pass
    everPublished: set<int>,             // blocks published since the flag was raised
    pcs: map<Tid, Pc>)

  datatype Step =
    // collector
    | Raise(partial: bool)
    | KeepOld(b: int)                    // an old block is kept, and read where its cards are marked
    | MarkValue(v: int)                  // retained block, stack word, external range
    | CopyRoots
    | ScanWord(w: int)
    | Overflow
    | TakeLock
    | DrainOne(v: int)
    | StartAssociations
    | VisitOwner(b: int)
    | Retry
    | Scavenge
    | Ripen(b: int)                      // a block becomes old while the garbage list is built
    | Lower
    | FreeOne(b: int)
    | Finish
    // mutators
    | AcquireForStore(t: Tid, w: int, v: int)
    | AcquireForRoot(t: Tid, r: int, v: int)
    | AcquireForAssoc(t: Tid, owner: int, key: int, v: int)
    | BeginAllocate(t: Tid, b: int, words: set<int>)
    | Advance(t: Tid)                    // the next step of a thread inside an operation
    | RemoveRoot(r: int)
    | EraseAssoc(owner: int, key: int)
    | StoreData(w: int, v: int)          // unbarriered store of a value that cannot be a block

  /** The card of a word. */
  function CardOf(w: int): int {
    w / Heap.CARD_WORDS
  }

  predicate HoldsEnlivening(pc: Pc) {
    !pc.Running? && !pc.AllocLocked? && !pc.AllocRead? && !pc.AllocUnguarded?
  }

  predicate HoldsAllocator(pc: Pc) {
    pc.AllocLocked? || pc.AllocRead? || pc.AllocChecked? || pc.AllocPublished? || pc.AllocUnguarded?
  }

  predicate InPass(s: State) {
    s.phase in {Starting, Scanning, Draining, Associating}
  }

  function PcOf(s: State, t: Tid): (pc: Pc) {
    if t in s.pcs then s.pcs[t] else Running
  }

  predicate Enabled(s: State, step: Step) {
    match step
    case Raise(partial) =>
      // a partial collection relies on the barrier for every word of an old block
      && s.phase == Idle && s.lock == Unlocked && (forall t | t in s.pcs :: !HoldsAllocator(s.pcs[t]))
      && (partial ==> OldUnderBarrier(s))
    case KeepOld(b) => s.phase == Starting && s.partial && b in s.aged && b in s.blocks && b !in s.marked
    case MarkValue(v) => s.phase in {Starting, Scanning}
    case CopyRoots => s.phase == Starting && (s.partial ==> OldMarked(s))
    case ScanWord(w) => s.phase in {Starting, Scanning, Associating} && w in s.todo && w in s.mem
    case Overflow => s.phase in {Starting, Scanning, Associating}
    case TakeLock => s.phase == Scanning && s.todo == {} && s.lock == Unlocked
    case DrainOne(v) => s.phase == Draining && v in s.queue
    case StartAssociations => s.phase == Draining && s.queue == {}
    case VisitOwner(b) => s.phase == Associating && b in s.owners
    case Retry => s.phase == Associating && s.todo == {} && s.owners == {} && s.lost
    case Scavenge => s.phase == Associating && s.todo == {} && s.owners == {} && !s.lost
    case Ripen(b) => s.phase == Scavenged && b in s.blocks
    case Lower => s.phase == Scavenged
    case FreeOne(b) => s.phase == Finalizing && b in s.garbage
    case Finish => s.phase == Finalizing
    case AcquireForStore(t, w, v) => PcOf(s, t) == Running && s.lock == Unlocked && w in s.mem
    case AcquireForRoot(t, r, v) => PcOf(s, t) == Running && s.lock == Unlocked && r in s.mem && r !in s.zone
    case AcquireForAssoc(t, owner, key, v) => PcOf(s, t) == Running && s.lock == Unlocked
    case BeginAllocate(t, b, words) =>
      && PcOf(s, t) == Running && Heap.Plausible(s.lowest, b) && words <= s.mem.Keys
    case Advance(t) =>
      // a thread that saw the flag up waits for the enlivening lock; memory handed out by the
      // allocator is in no published block
      && t in s.pcs && !s.pcs[t].Running?
      && (s.pcs[t].AllocRead? && s.pcs[t].seen ==> s.lock == Unlocked)
      && (s.pcs[t].AllocChecked? || s.pcs[t].AllocUnguarded? ==> s.pcs[t].b !in s.blocks)
    case RemoveRoot(r) => true
    case EraseAssoc(owner, key) => s.phase != Associating
    case StoreData(w, v) => w in s.mem && !Heap.Plausible(s.lowest, v)
  }

  predicate OldUnderBarrier(s: State) {
    forall b | b in s.aged && b in s.blocks :: s.blocks[b] <= s.zone
  }

  predicate OldMarked(s: State) {
    forall b | b in s.aged && b in s.blocks :: b in s.marked
  }

  /** Marks blocks, in a partial collection only new ones, and schedules their words, unless the
      stack has overflowed. */
  function Marking(s: State, vs: set<int>): (t: State) {
    var found := set v | v in vs && v in s.blocks && v !in s.marked && !(s.partial && v in s.aged);
    s.(marked := s.marked + found,
       todo := if s.lost then s.todo else s.todo + (set v, w | v in found && w in s.blocks[v] :: w),
       owners := if s.phase == Associating then s.owners + found else s.owners)
  }

  function Associated(s: State, b: int): (vs: set<int>) {
    set o | o in s.assoc && o.0 == b :: s.assoc[o]
  }

  function Apply(s: State, step: Step): (t: State)
    requires Enabled(s, step)
  {
    match step
    case Raise(partial) =>
      s.(needs := true, phase := Starting, partial := partial, published := {}, everPublished := {})
    case KeepOld(b) =>
      var read := set w | w in s.blocks[b] && CardOf(w) in s.cards;
      s.(marked := s.marked + {b}, todo := if s.lost then s.todo else s.todo + read)
    case MarkValue(v) => Marking(s, {v})
    case CopyRoots => s.(phase := Scanning, todo := if s.lost then s.todo else s.todo + s.roots)
    case ScanWord(w) => Marking(s.(todo := s.todo - {w}), {s.mem[w]})
    case Overflow => s.(lost := true, todo := {})
    case TakeLock => s.(lock := ByCollector, phase := Draining)
    case DrainOne(v) => Marking(s.(queue := s.queue - {v}), {v})
    case StartAssociations => s.(phase := Associating, owners := set o | o in s.assoc :: o.0)
    case VisitOwner(b) =>
      var rest := s.(owners := s.owners - {b});
      if b in s.marked then Marking(rest, Associated(s, b)) else rest
    case Retry => s.(marked := {}, lost := false, lock := Unlocked, phase := Starting, published := {})
    case Scavenge => s.(garbage := s.blocks.Keys - s.marked, phase := Scavenged)
    case Ripen(b) => s.(aged := s.aged + {b})
    case Lower => s.(needs := false, lock := Unlocked, phase := Finalizing)
    case FreeOne(b) =>
      s.(blocks := s.blocks - {b}, aged := s.aged - {b}, garbage := s.garbage - {b},
         assoc := map o | o in s.assoc && o.0 != b :: s.assoc[o])
    case Finish => s.(marked := {}, garbage := {}, phase := Idle)
    case AcquireForStore(t, w, v) => s.(lock := ByThread(t), pcs := s.pcs[t := StoreLocked(w, v)])
    case AcquireForRoot(t, r, v) => s.(lock := ByThread(t), pcs := s.pcs[t := RootLocked(r, v)])
    case AcquireForAssoc(t, owner, key, v) =>
      s.(lock := ByThread(t), pcs := s.pcs[t := AssocLocked(owner, key, v)])
    case BeginAllocate(t, b, words) => s.(pcs := s.pcs[t := AllocLocked(b, words)])
    case Advance(t) => Advanced(s, t)
    case RemoveRoot(r) => s.(roots := s.roots - {r})
    case EraseAssoc(owner, key) => s.(assoc := s.assoc - {(owner, key)})
    case StoreData(w, v) => s.(mem := s.mem[w := v])
  }

  function Queued(s: State, v: int): (t: State) {
    s.(queue := s.queue + {v})
  }

  function Published(s: State, b: int, words: set<int>): (t: State) {
    s.(blocks := s.blocks[b := words], aged := s.aged - {b},
       published := if s.needs then s.published + {b} else s.published,
       everPublished := if s.needs then s.everPublished + {b} else s.everPublished)
  }

  /** The next step of thread t. */
  function Advanced(s: State, t: Tid): (u: State)
    requires Enabled(s, Advance(t))
  {
    match s.pcs[t]
    case StoreLocked(w, v) =>
      var u := if s.needs && v !in s.marked then Queued(s, v) else s;
      u.(pcs := s.pcs[t := StoreQueued(w, v)])
    case StoreQueued(w, v) => s.(mem := s.mem[w := v], pcs := s.pcs[t := StoreWritten(w, v)])
    case StoreWritten(w, v) => s.(cards := s.cards + {CardOf(w)}, pcs := s.pcs[t := Releasing])
    case RootLocked(r, v) => s.(roots := s.roots + {r}, pcs := s.pcs[t := RootInserted(r, v)])
    case RootInserted(r, v) =>
      var u := if s.needs && v !in s.marked then Queued(s, v) else s;
      u.(pcs := s.pcs[t := RootQueued(r, v)])
    case RootQueued(r, v) => s.(mem := s.mem[r := v], pcs := s.pcs[t := Releasing])
    case AssocLocked(owner, key, v) => s.(assoc := s.assoc[(owner, key) := v], pcs := s.pcs[t := AssocStored(v)])
    case AssocStored(v) =>
      var u := if s.needs then Queued(s, v) else s;
      u.(pcs := s.pcs[t := Releasing])
    case Releasing => s.(lock := Unlocked, pcs := s.pcs[t := Running])
    case AllocLocked(b, words) => s.(pcs := s.pcs[t := AllocRead(b, words, s.needs)])
    case AllocRead(b, words, seen) =>
      if !seen || !s.needs then s.(pcs := s.pcs[t := AllocUnguarded(b, words)])
      else s.(lock := ByThread(t), pcs := s.pcs[t := AllocChecked(b, words)])
    case AllocChecked(b, words) => Published(s, b, words).(pcs := s.pcs[t := AllocPublished(b)])
    case AllocPublished(b) => Queued(s, b).(pcs := s.pcs[t := Releasing])
    case AllocUnguarded(b, words) => Published(s, b, words).(pcs := s.pcs[t := Running])
    case Running => s
  }

  // ----- the invariant -----

  /** Who holds the enlivening lock, and what the flag says about the phase. */
  ghost predicate Locks(s: State) {
    && (forall t | t in s.pcs :: HoldsEnlivening(s.pcs[t]) ==> s.lock == ByThread(t))
    && (s.lock.ByThread? ==> s.lock.t in s.pcs && HoldsEnlivening(s.pcs[s.lock.t]))
    && (s.lock == ByCollector <==> s.phase in {Draining, Associating, Scavenged})
    && (s.needs <==> s.phase !in {Idle, Finalizing})
  }

  /** v is marked or waits in the queue, if there is a collection. */
  predicate Kept(s: State, v: int) {
    s.needs ==> v in s.marked || v in s.queue
  }

  /** What a thread relies on between two steps: the words it writes are readable, what it has seen
      of the flag is still true, and what it writes has been made safe before. */
  predicate ThreadOk(s: State, pc: Pc) {
    match pc
    case StoreLocked(w, v) => w in s.mem
    case StoreQueued(w, v) => w in s.mem && Kept(s, v)
    case StoreWritten(w, v) => Kept(s, v)
    case RootLocked(r, v) => r in s.mem && r !in s.zone
    case RootInserted(r, v) => r in s.mem && r !in s.zone
    case RootQueued(r, v) => r in s.mem && r !in s.zone && Kept(s, v)
    case AllocLocked(b, words) => Heap.Plausible(s.lowest, b) && words <= s.mem.Keys
    case AllocRead(b, words, seen) => Heap.Plausible(s.lowest, b) && words <= s.mem.Keys && (seen || !s.needs)
    case AllocChecked(b, words) => Heap.Plausible(s.lowest, b) && words <= s.mem.Keys && s.needs
    case AllocPublished(b) => s.needs
    case AllocUnguarded(b, words) => Heap.Plausible(s.lowest, b) && words <= s.mem.Keys && !s.needs
    case _ => true
  }

  ghost predicate Threads(s: State) {
    forall t | t in s.pcs :: ThreadOk(s, s.pcs[t])
  }

  /** Which sets are empty in which phase. */
  ghost predicate PhaseShape(s: State) {
    && s.marked <= s.blocks.Keys && s.garbage <= s.blocks.Keys
    && (s.phase in {Scavenged, Finalizing} ==> s.garbage !! s.marked)
    && (s.phase == Scavenged ==> s.blocks.Keys <= s.garbage + s.marked)
    && (s.phase !in {Scavenged, Finalizing} ==> s.garbage == {})
    && (s.phase == Idle ==> s.marked == {})
    && (s.phase in {Idle, Scavenged, Finalizing} ==> s.todo == {} && !s.lost)
    && (s.phase !in {Associating} ==> s.owners == {})
    && (s.phase in {Idle, Associating, Scavenged, Finalizing} ==> s.queue == {})
  }

  /** Roots, scheduled words and the words of blocks are readable. */
  ghost predicate WordShape(s: State) {
    && s.roots <= s.mem.Keys && s.todo <= s.mem.Keys
    && (forall b | b in s.blocks :: Heap.Plausible(s.lowest, b) && s.blocks[b] <= s.mem.Keys)
  }

  /** In a partial collection every word of an old block is under the barrier, and once the roots
      have been copied every old block is marked. */
  ghost predicate OldShape(s: State) {
    s.partial && InPass(s) ==> OldUnderBarrier(s) && (s.phase != Starting ==> OldMarked(s))
  }

  /** The holder of the lock has written v to w and has not marked the card yet. */
  ghost predicate Writing(s: State, w: int, v: int) {
    s.lock.ByThread? && s.lock.t in s.pcs && s.pcs[s.lock.t] == StoreWritten(w, v)
  }

  /** Every word under the barrier that may hold a block lies on a marked card, or is being stored to. */
  ghost predicate CardsMarked(s: State) {
    forall w | w in s.zone && w in s.mem && Heap.Plausible(s.lowest, s.mem[w]) ::
      CardOf(w) in s.cards || Writing(s, w, s.mem[w])
  }

  ghost predicate Shapes(s: State) {
    PhaseShape(s) && WordShape(s) && OldShape(s) && CardsMarked(s)
  }

  ghost predicate InFlight(s: State, v: int) {
    s.lock.ByThread? && s.lock.t in s.pcs && s.pcs[s.lock.t] == AllocPublished(v)
  }

  /** v is safe: no block, marked, waiting in the queue, about to be put there, or an old block that
      a partial collection has not come to yet. */
  ghost predicate Safe(s: State, v: int) {
    v in s.blocks ==>
      v in s.marked || v in s.queue || InFlight(s, v) || (s.partial && s.phase == Starting && v in s.aged)
  }

  /** The root r is being stored to by the thread that holds the enlivening lock. */
  ghost predicate RootInFlight(s: State, r: int) {
    s.lock.ByThread? && s.lock.t in s.pcs &&
    match s.pcs[s.lock.t]
    case RootInserted(q, v) => q == r
    case RootQueued(q, v) => q == r
    case _ => false
  }

  /** Safe, or one of the values the collector is about to mark. */
  ghost predicate SafeBut(s: State, pending: set<int>, v: int) {
    Safe(s, v) || v in pending
  }

  ghost predicate Tri(s: State, pending: set<int>) {
    forall b, w | b in s.marked && b in s.blocks && w in s.blocks[b] && w in s.mem ::
      w in s.todo || SafeBut(s, pending, s.mem[w])
  }

  ghost predicate RootsSafe(s: State, pending: set<int>) {
    forall r | r in s.roots && r in s.mem :: r in s.todo || SafeBut(s, pending, s.mem[r]) || RootInFlight(s, r)
  }

  ghost predicate AssocSafe(s: State, pending: set<int>) {
    forall o | o in s.assoc && o.0 in s.marked && s.assoc[o] in s.blocks ::
      s.assoc[o] in s.marked || o.0 in s.owners || s.assoc[o] in pending
  }

  ghost predicate PublishedSafe(s: State, pending: set<int>) {
    forall b | b in s.published :: SafeBut(s, pending, b)
  }

  /** What the marks promise while no work has been lost, and once the pending values are marked. */
  ghost predicate Colours(s: State, pending: set<int>) {
    && ((InPass(s) && !s.lost) || s.phase == Scavenged ==>
          Tri(s, pending) && PublishedSafe(s, pending) && (s.phase != Starting ==> RootsSafe(s, pending)))
    && ((s.phase == Associating && !s.lost) || s.phase == Scavenged ==> AssocSafe(s, pending))
  }

  ghost predicate Inv(s: State) {
    Locks(s) && Threads(s) && Shapes(s) && Colours(s, {})
  }

  ghost predicate Init(s: State) {
    && s.lowest > 0 && s.phase == Idle && s.lock == Unlocked && !s.needs && !s.lost
    && s.marked == {} && s.todo == {} && s.owners == {} && s.queue == {} && s.garbage == {}
    && s.published == {} && s.everPublished == {} && s.pcs == map[]
    && s.roots <= s.mem.Keys
    && (forall b | b in s.blocks :: Heap.Plausible(s.lowest, b) && s.blocks[b] <= s.mem.Keys)
    && (forall w | w in s.zone && w in s.mem && Heap.Plausible(s.lowest, s.mem[w]) :: CardOf(w) in s.cards)
  }

  // ----- steps that move one thread -----

  /** What every other thread relies on is still there. */
  lemma OthersOk(s: State, u: State, t: Tid)
    requires Threads(s) && t in u.pcs && u.pcs == s.pcs[t := u.pcs[t]] && ThreadOk(u, u.pcs[t])
    requires u.lowest == s.lowest && u.zone == s.zone && s.mem.Keys <= u.mem.Keys && u.needs == s.needs
    requires s.marked <= u.marked && s.queue <= u.queue
    ensures Threads(u)
  {
    forall x | x in u.pcs ensures ThreadOk(u, u.pcs[x]) {
      if x != t {
        assert ThreadOk(s, s.pcs[x]);
      }
    }
  }

  /** Thread t keeps the lock, takes it while it is free, or lets go of it. */
  predicate LockMoves(s: State, u: State, t: Tid)
    requires t in u.pcs
  {
    || (u.lock == s.lock && HoldsEnlivening(PcOf(s, t)) == HoldsEnlivening(u.pcs[t]))
    || (s.lock == Unlocked && u.lock == ByThread(t) && HoldsEnlivening(u.pcs[t]))
    || (s.lock == ByThread(t) && u.lock == Unlocked && !HoldsEnlivening(u.pcs[t]))
  }

  lemma LocksKept(s: State, u: State, t: Tid)
    requires Locks(s) && t in u.pcs && u.pcs == s.pcs[t := u.pcs[t]] && LockMoves(s, u, t)
    requires u.phase == s.phase && u.needs == s.needs
    ensures Locks(u)
  {
    assert s.lock.ByThread? && s.lock.t != t ==> u.lock == s.lock;
  }

  lemma Holder(s: State, t: Tid)
    requires Inv(s) && t in s.pcs
    ensures HoldsEnlivening(s.pcs[t]) ==> s.lock == ByThread(t) && s.phase !in {Draining, Associating, Scavenged}
    ensures !HoldsEnlivening(s.pcs[t]) ==> s.lock != ByThread(t)
    ensures s.needs <==> s.phase !in {Idle, Finalizing}
    ensures ThreadOk(s, s.pcs[t])
  {
    hide Shapes, Colours, HoldsEnlivening, ThreadOk;
  }

  /** Memory, blocks and marks are the same, and whoever had a value or a word in hand still has it,
      or has put it away. */
  ghost predicate HandsOver(s: State, u: State) {
    && u == s.(pcs := u.pcs, lock := u.lock, queue := u.queue, cards := u.cards)
    && s.queue <= u.queue && s.cards <= u.cards
    && (u.queue == s.queue || s.phase !in {Idle, Associating, Scavenged, Finalizing})
    && (forall v | InFlight(s, v) :: InFlight(u, v) || v in u.queue)
    && (forall r | RootInFlight(s, r) :: RootInFlight(u, r))
    && (forall w, v | Writing(s, w, v) :: Writing(u, w, v) || CardOf(w) in u.cards)
  }

  lemma HandsOverShapes(s: State, u: State)
    requires Shapes(s) && HandsOver(s, u)
    ensures Shapes(u)
  {
    hide InFlight, RootInFlight, Writing, CardOf;
  }

  lemma HandsOverColours(s: State, u: State)
    requires Colours(s, {}) && HandsOver(s, u)
    ensures Colours(u, {})
  {
    hide InFlight, RootInFlight, Writing, CardOf;
    assert forall v | Safe(s, v) :: Safe(u, v);
  }

  /** A step that only moves thread t along, queues a value, marks a card or hands over the lock. */
  lemma ThreadMoves(s: State, u: State, t: Tid)
    requires Inv(s) && t in u.pcs && u.pcs == s.pcs[t := u.pcs[t]]
    requires HandsOver(s, u) && LockMoves(s, u, t) && ThreadOk(u, u.pcs[t])
    ensures Inv(u)
  {
    hide Locks, Threads, Shapes, Colours, ThreadOk, InFlight, RootInFlight, Writing, LockMoves;
    LocksKept(s, u, t);
    OthersOk(s, u, t);
    HandsOverShapes(s, u);
    HandsOverColours(s, u);
  }

  lemma AcquireForStoreKeeps(s: State, t: Tid, w: int, v: int)
    requires Inv(s) && Enabled(s, AcquireForStore(t, w, v))
    ensures Inv(Apply(s, AcquireForStore(t, w, v)))
  {
    hide Threads, Shapes, Colours;
    ThreadMoves(s, Apply(s, AcquireForStore(t, w, v)), t);
  }

  lemma AcquireForRootKeeps(s: State, t: Tid, r: int, v: int)
    requires Inv(s) && Enabled(s, AcquireForRoot(t, r, v))
    ensures Inv(Apply(s, AcquireForRoot(t, r, v)))
  {
    hide Threads, Shapes, Colours;
    ThreadMoves(s, Apply(s, AcquireForRoot(t, r, v)), t);
  }

  lemma AcquireForAssocKeeps(s: State, t: Tid, owner: int, key: int, v: int)
    requires Inv(s) && Enabled(s, AcquireForAssoc(t, owner, key, v))
    ensures Inv(Apply(s, AcquireForAssoc(t, owner, key, v)))
  {
    hide Threads, Shapes, Colours;
    ThreadMoves(s, Apply(s, AcquireForAssoc(t, owner, key, v)), t);
  }

  lemma BeginAllocateKeeps(s: State, t: Tid, b: int, words: set<int>)
    requires Inv(s) && Enabled(s, BeginAllocate(t, b, words))
    ensures Inv(Apply(s, BeginAllocate(t, b, words)))
  {
    hide Threads, Shapes, Colours;
    ThreadMoves(s, Apply(s, BeginAllocate(t, b, words)), t);
  }

  lemma StoreLockedKeeps(s: State, t: Tid)
    requires Inv(s) && Enabled(s, Advance(t)) && s.pcs[t].StoreLocked?
    ensures Inv(Advanced(s, t))
  {
    hide Locks, Threads, Shapes, Colours;
    Holder(s, t);
    ThreadMoves(s, Advanced(s, t), t);
  }

  lemma StoreWrittenKeeps(s: State, t: Tid)
    requires Inv(s) && Enabled(s, Advance(t)) && s.pcs[t].StoreWritten?
    ensures Inv(Advanced(s, t))
  {
    hide Locks, Threads, Shapes, Colours;
    Holder(s, t);
    ThreadMoves(s, Advanced(s, t), t);
  }

  lemma RootInsertedKeeps(s: State, t: Tid)
    requires Inv(s) && Enabled(s, Advance(t)) && s.pcs[t].RootInserted?
    ensures Inv(Advanced(s, t))
  {
    hide Locks, Threads, Shapes, Colours;
    Holder(s, t);
    ThreadMoves(s, Advanced(s, t), t);
  }

  lemma AssocStoredKeeps(s: State, t: Tid)
    requires Inv(s) && Enabled(s, Advance(t)) && s.pcs[t].AssocStored?
    ensures Inv(Advanced(s, t))
  {
    hide Locks, Threads, Shapes, Colours;
    Holder(s, t);
    ThreadMoves(s, Advanced(s, t), t);
  }

  lemma ReleasingKeeps(s: State, t: Tid)
    requires Inv(s) && Enabled(s, Advance(t)) && s.pcs[t].Releasing?
    ensures Inv(Advanced(s, t))
  {
    hide Locks, Threads, Shapes, Colours;
    Holder(s, t);
    ThreadMoves(s, Advanced(s, t), t);
  }

  lemma AllocLockedKeeps(s: State, t: Tid)
    requires Inv(s) && Enabled(s, Advance(t)) && s.pcs[t].AllocLocked?
    ensures Inv(Advanced(s, t))
  {
    hide Locks, Threads, Shapes, Colours;
    Holder(s, t);
    ThreadMoves(s, Advanced(s, t), t);
  }

  lemma AllocReadHandsOver(s: State, t: Tid)
    requires Inv(s) && Enabled(s, Advance(t)) && s.pcs[t].AllocRead?
    ensures HandsOver(s, Advanced(s, t))
  {
    hide Locks, Threads, Shapes, Colours, ThreadOk;
    Holder(s, t);
  }

  /** The flag seen by the first, unlocked read is still what the second read finds, or the thread
      has to wait for the lock and reads again. */
  lemma AllocReadKeeps(s: State, t: Tid)
    requires Inv(s) && Enabled(s, Advance(t)) && s.pcs[t].AllocRead?
    ensures Inv(Advanced(s, t))
  {
    hide Locks, Threads, Shapes, Colours, HandsOver;
    Holder(s, t);
    AllocReadHandsOver(s, t);
    ThreadMoves(s, Advanced(s, t), t);
  }

  lemma AllocPublishedKeeps(s: State, t: Tid)
    requires Inv(s) && Enabled(s, Advance(t)) && s.pcs[t].AllocPublished?
    ensures Inv(Advanced(s, t))
  {
    hide Locks, Threads, Shapes, Colours;
    Holder(s, t);
    ThreadMoves(s, Advanced(s, t), t);
  }

  // ----- steps that write -----

  /** Writing a safe value to w leaves everything as safe as it was. */
  lemma WriteColours(s: State, u: State, w: int, v: int)
    requires Colours(s, {}) && w in s.mem && u == s.(mem := s.mem[w := v], pcs := u.pcs)
    requires InPass(s) || s.phase == Scavenged ==> Safe(u, v)
    requires forall x | Safe(s, x) :: Safe(u, x)
    requires forall r | RootInFlight(s, r) :: r == w || RootInFlight(u, r)
    ensures Colours(u, {})
  {
    hide Safe, RootInFlight;
  }

  lemma StoreQueuedKeeps(s: State, t: Tid)
    requires Inv(s) && Enabled(s, Advance(t)) && s.pcs[t].StoreQueued?
    ensures Inv(Advanced(s, t))
  {
    hide Locks, Threads, Shapes, Colours;
    var u, w, v := Advanced(s, t), s.pcs[t].w, s.pcs[t].v;
    Holder(s, t);
    LocksKept(s, u, t);
    OthersOk(s, u, t);
    StoreShapes(s, u, t);
    assert forall x | Safe(s, x) :: Safe(u, x);
    InPassNeeds(s);
    WriteColours(s, u, w, v);
  }

  lemma StoreShapes(s: State, u: State, t: Tid)
    requires Shapes(s) && t in s.pcs && s.pcs[t].StoreQueued? && s.lock == ByThread(t) && s.pcs[t].w in s.mem
    requires u == s.(mem := s.mem[s.pcs[t].w := s.pcs[t].v], pcs := s.pcs[t := StoreWritten(s.pcs[t].w, s.pcs[t].v)])
    ensures Shapes(u)
  {
    hide CardOf;
  }

  lemma InPassNeeds(s: State)
    requires Inv(s)
    ensures InPass(s) || s.phase == Scavenged ==> s.needs
  {
    hide Threads, Shapes, Colours;
  }

  lemma RootQueuedKeeps(s: State, t: Tid)
    requires Inv(s) && Enabled(s, Advance(t)) && s.pcs[t].RootQueued?
    ensures Inv(Advanced(s, t))
  {
    hide Locks, Threads, Shapes, Colours;
    var u, r, v := Advanced(s, t), s.pcs[t].r, s.pcs[t].v;
    Holder(s, t);
    LocksKept(s, u, t);
    OthersOk(s, u, t);
    RootShapes(s, u, t);
    assert forall x | Safe(s, x) :: Safe(u, x);
    InPassNeeds(s);
    WriteColours(s, u, r, v);
  }

  lemma RootShapes(s: State, u: State, t: Tid)
    requires Shapes(s) && t in s.pcs && s.pcs[t].RootQueued? && s.lock == ByThread(t)
    requires s.pcs[t].r in s.mem && s.pcs[t].r !in s.zone
    requires u == s.(mem := s.mem[s.pcs[t].r := s.pcs[t].v], pcs := s.pcs[t := Releasing])
    ensures Shapes(u)
  {
    hide CardOf;
  }

  lemma RootLockedKeeps(s: State, t: Tid)
    requires Inv(s) && Enabled(s, Advance(t)) && s.pcs[t].RootLocked?
    ensures Inv(Advanced(s, t))
  {
    hide Locks, Threads, Shapes, Colours;
    var u, r, v := Advanced(s, t), s.pcs[t].r, s.pcs[t].v;
    Holder(s, t);
    LocksKept(s, u, t);
    OthersOk(s, u, t);
    RootInsertedShapes(s, u, t, r, v);
    RootInsertedColours(s, u, t, r, v);
  }

  lemma RootInsertedShapes(s: State, u: State, t: Tid, r: int, v: int)
    requires Shapes(s) && t in s.pcs && s.pcs[t] == RootLocked(r, v) && s.lock == ByThread(t) && r in s.mem
    requires u == s.(roots := s.roots + {r}, pcs := s.pcs[t := RootInserted(r, v)])
    ensures Shapes(u)
  {
    hide CardOf;
  }

  /** A root that has been inserted and not written yet is in the hands of the holder of the lock. */
  lemma RootInsertedColours(s: State, u: State, t: Tid, r: int, v: int)
    requires Colours(s, {}) && t in s.pcs && s.pcs[t] == RootLocked(r, v) && s.lock == ByThread(t)
    requires u == s.(roots := s.roots + {r}, pcs := s.pcs[t := RootInserted(r, v)])
    ensures Colours(u, {})
  {
    assert forall x | Safe(s, x) :: Safe(u, x);
    assert forall q :: !RootInFlight(s, q);
    assert RootInFlight(u, r);
    hide Safe, RootInFlight;
  }

  lemma AssocLockedKeeps(s: State, t: Tid)
    requires Inv(s) && Enabled(s, Advance(t)) && s.pcs[t].AssocLocked?
    ensures Inv(Advanced(s, t))
  {
    hide Locks, Threads, Shapes, Colours;
    var u := Advanced(s, t);
    Holder(s, t);
    LocksKept(s, u, t);
    OthersOk(s, u, t);
    AssocStoredShapes(s, u, t);
    AssocStoredColours(s, u, t);
  }

  lemma AssocStoredShapes(s: State, u: State, t: Tid)
    requires Shapes(s) && t in s.pcs && s.pcs[t].AssocLocked? && s.lock == ByThread(t)
    requires u == s.(assoc := u.assoc, pcs := s.pcs[t := AssocStored(s.pcs[t].v)])
    ensures Shapes(u)
  {
    hide CardOf;
  }

  lemma AssocStoredColours(s: State, u: State, t: Tid)
    requires Colours(s, {}) && t in s.pcs && s.pcs[t].AssocLocked? && s.lock == ByThread(t)
    requires s.phase !in {Draining, Associating, Scavenged}
    requires u == s.(assoc := u.assoc, pcs := s.pcs[t := AssocStored(s.pcs[t].v)])
    ensures Colours(u, {})
  {
    assert forall x | Safe(s, x) :: Safe(u, x);
    assert forall q :: !RootInFlight(s, q);
    hide Safe, RootInFlight, AssocSafe;
  }

  /** A block published while the flag is up is in flight until it has been queued. */
  lemma AllocCheckedKeeps(s: State, t: Tid)
    requires Inv(s) && Enabled(s, Advance(t)) && s.pcs[t].AllocChecked?
    ensures Inv(Advanced(s, t))
  {
    hide Locks, Threads, WordShape, OldShape, CardsMarked, Colours;
    var u, b, words := Advanced(s, t), s.pcs[t].b, s.pcs[t].words;
    Holder(s, t);
    LocksKept(s, u, t);
    OthersOk(s, u, t);
    PublishedShapes(s, u, t, b, words);
    PublishedColours(s, u, t, b, words);
  }

  lemma PublishedShapes(s: State, u: State, t: Tid, b: int, words: set<int>)
    requires Shapes(s) && s.phase != Scavenged && b !in s.blocks
    requires Heap.Plausible(s.lowest, b) && words <= s.mem.Keys
    requires t in s.pcs && !s.pcs[t].StoreWritten? && t in u.pcs
    requires u == Published(s, b, words).(pcs := s.pcs[t := u.pcs[t]])
    ensures Shapes(u)
  {
    hide CardOf;
  }

  lemma PublishedColours(s: State, u: State, t: Tid, b: int, words: set<int>)
    requires Colours(s, {}) && b !in s.blocks && b !in s.marked && s.lock == ByThread(t) && s.needs
    requires s.phase !in {Draining, Associating, Scavenged}
    requires t in s.pcs && s.pcs[t] == AllocChecked(b, words)
    requires u == Published(s, b, words).(pcs := s.pcs[t := AllocPublished(b)])
    ensures Colours(u, {})
  {
    assert forall x | Safe(s, x) :: Safe(u, x);
    assert Safe(u, b);
    assert forall q :: !RootInFlight(s, q);
    hide Safe, RootInFlight, AssocSafe;
  }

  lemma AllocUnguardedKeeps(s: State, t: Tid)
    requires Inv(s) && Enabled(s, Advance(t)) && s.pcs[t].AllocUnguarded?
    ensures Inv(Advanced(s, t))
  {
    hide Locks, Threads, Shapes, Colours;
    var u, b, words := Advanced(s, t), s.pcs[t].b, s.pcs[t].words;
    Holder(s, t);
    InPassNeeds(s);
    LocksKept(s, u, t);
    OthersOk(s, u, t);
    PublishedShapes(s, u, t, b, words);
    NothingPromised(u);
  }

  lemma NothingPromised(s: State)
    requires !InPass(s) && s.phase != Scavenged
    ensures Colours(s, {})
  {}

  // ----- other steps of mutators -----

  lemma LocksStay(s: State, u: State)
    requires Locks(s) && u.pcs == s.pcs && u.lock == s.lock && u.needs == s.needs
    requires u.phase in {Idle, Finalizing} <==> s.phase in {Idle, Finalizing}
    requires u.phase in {Draining, Associating, Scavenged} <==> s.phase in {Draining, Associating, Scavenged}
    ensures Locks(u)
  {
    hide HoldsEnlivening;
  }

  lemma ThreadsStay(s: State, u: State)
    requires Threads(s) && u.pcs == s.pcs && u.needs == s.needs
    requires u.lowest == s.lowest && u.zone == s.zone && u.mem.Keys == s.mem.Keys
    requires s.marked <= u.marked && s.queue <= u.queue
    ensures Threads(u)
  {
    forall t | t in u.pcs ensures ThreadOk(u, u.pcs[t]) {
      assert ThreadOk(s, s.pcs[t]);
    }
  }

  lemma StoreDataKeeps(s: State, w: int, v: int)
    requires Inv(s) && Enabled(s, StoreData(w, v))
    ensures Inv(Apply(s, StoreData(w, v)))
  {
    hide Locks, Threads, Colours;
    var u := Apply(s, StoreData(w, v));
    LocksStay(s, u);
    ThreadsStay(s, u);
    DataShapes(s, w, v);
    assert forall x | Safe(s, x) :: Safe(u, x);
    WriteColours(s, u, w, v);
  }

  lemma DataShapes(s: State, w: int, v: int)
    requires Shapes(s) && w in s.mem && !Heap.Plausible(s.lowest, v)
    ensures Shapes(s.(mem := s.mem[w := v]))
  {
    hide CardOf;
    assert forall x, y :: Writing(s, x, y) <==> Writing(s.(mem := s.mem[w := v]), x, y);
  }

  /** s with fewer roots and associations. */
  ghost predicate FewerReferences(s: State, u: State) {
    && u == s.(roots := u.roots, assoc := u.assoc)
    && u.roots <= s.roots && forall o | o in u.assoc :: o in s.assoc && u.assoc[o] == s.assoc[o]
  }

  lemma FewerShapes(s: State, u: State)
    requires Shapes(s) && FewerReferences(s, u)
    ensures Shapes(u)
  {
    assert forall x, v :: Writing(s, x, v) ==> Writing(u, x, v);
    hide Writing, CardOf;
  }

  lemma FewerColours(s: State, u: State)
    requires Colours(s, {}) && FewerReferences(s, u)
    ensures Colours(u, {})
  {
    assert forall x | Safe(s, x) :: Safe(u, x);
    assert forall q | RootInFlight(s, q) :: RootInFlight(u, q);
    hide Safe, RootInFlight;
  }

  lemma RemoveRootKeeps(s: State, r: int)
    requires Inv(s)
    ensures Inv(Apply(s, RemoveRoot(r)))
  {
    hide Locks, Threads, Shapes, Colours;
    var u := Apply(s, RemoveRoot(r));
    LocksStay(s, u);
    ThreadsStay(s, u);
    FewerShapes(s, u);
    FewerColours(s, u);
  }

  lemma EraseAssocKeeps(s: State, owner: int, key: int)
    requires Inv(s) && Enabled(s, EraseAssoc(owner, key))
    ensures Inv(Apply(s, EraseAssoc(owner, key)))
  {
    hide Locks, Threads, Shapes, Colours;
    var u := Apply(s, EraseAssoc(owner, key));
    LocksStay(s, u);
    ThreadsStay(s, u);
    FewerShapes(s, u);
    FewerColours(s, u);
  }

  // ----- steps of the collector that mark -----

  lemma MarkingShapes(s: State, vs: set<int>)
    requires Shapes(s) && InPass(s)
    ensures Shapes(Marking(s, vs))
  {
    assert forall x, v :: Writing(s, x, v) ==> Writing(Marking(s, vs), x, v);
    hide Writing, CardOf;
  }

  /** Marking blocks keeps what holds for words and values, and schedules the new words. */
  lemma MarkingKeeps(s: State, vs: set<int>)
    requires OldShape(s)
    ensures
      var t := Marking(s, vs);
      && t == s.(marked := t.marked, todo := t.todo, owners := t.owners)
      && s.marked <= t.marked && s.todo <= t.todo && s.owners <= t.owners
      && (forall v | Safe(s, v) :: Safe(t, v))
      && (InPass(s) ==> forall v | v in vs :: Safe(t, v))
      && (InPass(s) && s.phase != Starting ==> vs * s.blocks.Keys <= t.marked)
      && (!s.lost ==> forall b, w | b in t.marked && b !in s.marked && b in s.blocks && w in s.blocks[b] :: w in t.todo)
      && (s.phase == Associating ==> t.marked - s.marked <= t.owners)
  {
    if InPass(s) && s.phase != Starting {
      forall v | v in vs && v in s.blocks ensures v in Marking(s, vs).marked {
        assert s.partial && v in s.aged ==> v in s.marked;
      }
    }
  }

  lemma MarkedAssocSafe(s: State, t: State, vs: set<int>)
    requires AssocSafe(s, vs) && t.assoc == s.assoc && t.blocks == s.blocks
    requires s.marked <= t.marked && s.owners <= t.owners
    requires t.marked - s.marked <= t.owners && vs * s.blocks.Keys <= t.marked
    ensures AssocSafe(t, {})
  {
    forall o | o in t.assoc && o.0 in t.marked && t.assoc[o] in t.blocks
      ensures t.assoc[o] in t.marked || o.0 in t.owners
    {
      if o.0 in s.marked {
        assert s.assoc[o] in vs ==> s.assoc[o] in vs * s.blocks.Keys;
      } else {
        assert o.0 in t.marked - s.marked;
      }
    }
  }

  /** Once the pending values are marked, nothing has to be excepted any more. */
  lemma MarkingColours(s: State, vs: set<int>)
    requires Colours(s, vs) && OldShape(s) && InPass(s)
    ensures Colours(Marking(s, vs), {})
  {
    MarkingKeeps(s, vs);
    var t := Marking(s, vs);
    assert forall r | RootInFlight(s, r) :: RootInFlight(t, r);
    hide Marking, Safe, RootInFlight, OldShape;
    forall v | SafeBut(s, vs, v) ensures SafeBut(t, {}, v) {
      if Safe(s, v) {
        assert Safe(t, v);
      }
    }
    hide SafeBut;
    assert !s.lost ==> Tri(t, {});
    assert !s.lost ==> PublishedSafe(t, {});
    assert !s.lost && s.phase != Starting ==> RootsSafe(t, {});
    if !s.lost && s.phase == Associating {
      MarkedAssocSafe(s, t, vs);
    }
  }

  lemma MarkValueKeeps(s: State, v: int)
    requires Inv(s) && Enabled(s, MarkValue(v))
    ensures Inv(Apply(s, MarkValue(v)))
  {
    hide Locks, Threads, Colours;
    var u := Apply(s, MarkValue(v));
    LocksStay(s, u);
    ThreadsStay(s, u);
    MarkingShapes(s, {v});
    MorePending(s, {v});
    MarkingColours(s, {v});
  }

  lemma MorePending(s: State, vs: set<int>)
    requires Colours(s, {})
    ensures Colours(s, vs)
  {
    hide Safe, RootInFlight;
  }

  lemma ScanWordKeeps(s: State, w: int)
    requires Inv(s) && Enabled(s, ScanWord(w))
    ensures Inv(Apply(s, ScanWord(w)))
  {
    hide Locks, Threads, Colours;
    var rest := s.(todo := s.todo - {w});
    LocksStay(s, Apply(s, ScanWord(w)));
    ThreadsStay(s, Apply(s, ScanWord(w)));
    LessTodo(s, w);
    MarkingShapes(rest, {s.mem[w]});
    MarkingColours(rest, {s.mem[w]});
  }

  /** A word taken off the schedule leaves its value to be marked. */
  lemma LessTodo(s: State, w: int)
    requires Shapes(s) && Colours(s, {}) && w in s.mem
    ensures Shapes(s.(todo := s.todo - {w}))
    ensures Colours(s.(todo := s.todo - {w}), {s.mem[w]})
  {
    var rest := s.(todo := s.todo - {w});
    assert forall x | Safe(s, x) :: Safe(rest, x);
    assert forall q | RootInFlight(s, q) :: RootInFlight(rest, q);
    assert forall x, v :: Writing(s, x, v) ==> Writing(rest, x, v);
    hide Safe, RootInFlight, Writing, CardOf;
  }

  lemma DrainOneKeeps(s: State, v: int)
    requires Inv(s) && Enabled(s, DrainOne(v))
    ensures Inv(Apply(s, DrainOne(v)))
  {
    hide Threads, Colours;
    var rest, u := s.(queue := s.queue - {v}), Apply(s, DrainOne(v));
    LocksStay(s, u);
    ThreadsWait(s, u);
    LessQueue(s, v);
    MarkingShapes(rest, {v});
    MarkingColours(rest, {v});
  }

  /** A value taken off the queue has to be marked. */
  lemma LessQueue(s: State, v: int)
    requires Shapes(s) && Colours(s, {})
    ensures Shapes(s.(queue := s.queue - {v}))
    ensures Colours(s.(queue := s.queue - {v}), {v})
  {
    var rest := s.(queue := s.queue - {v});
    assert forall x | Safe(s, x) :: Safe(rest, x) || x == v;
    assert forall q | RootInFlight(s, q) :: RootInFlight(rest, q);
    assert forall x, y :: Writing(s, x, y) ==> Writing(rest, x, y);
    hide Safe, RootInFlight, Writing, CardOf;
  }

  /** While no thread holds the enlivening lock, none relies on marks or the queue. */
  lemma ThreadsWait(s: State, u: State)
    requires Locks(s) && Threads(s) && !s.lock.ByThread?
    requires u.pcs == s.pcs && u.needs == s.needs
    requires u.lowest == s.lowest && u.zone == s.zone && u.mem.Keys == s.mem.Keys
    ensures Threads(u)
  {
    forall t | t in u.pcs ensures ThreadOk(u, u.pcs[t]) {
      assert ThreadOk(s, s.pcs[t]);
    }
  }

  lemma VisitOwnerKeeps(s: State, b: int)
    requires Inv(s) && Enabled(s, VisitOwner(b))
    ensures Inv(Apply(s, VisitOwner(b)))
  {
    hide Locks, Threads, Colours;
    var rest, u := s.(owners := s.owners - {b}), Apply(s, VisitOwner(b));
    LocksStay(s, u);
    ThreadsStay(s, u);
    if b in s.marked {
      LessOwners(s, b, Associated(s, b));
      MarkingShapes(rest, Associated(s, b));
      MarkingColours(rest, Associated(s, b));
    } else {
      LessOwners(s, b, {});
    }
  }

  /** An owner that has been visited leaves its associated values to be marked, if it is marked. */
  lemma LessOwners(s: State, b: int, vs: set<int>)
    requires Shapes(s) && Colours(s, {}) && (b in s.marked ==> vs == Associated(s, b))
    ensures Shapes(s.(owners := s.owners - {b}))
    ensures Colours(s.(owners := s.owners - {b}), vs)
  {
    var rest := s.(owners := s.owners - {b});
    assert forall x | Safe(s, x) :: Safe(rest, x);
    assert forall q | RootInFlight(s, q) :: RootInFlight(rest, q);
    assert forall x, y :: Writing(s, x, y) ==> Writing(rest, x, y);
    assert forall o | o in s.assoc && o.0 == b :: s.assoc[o] in Associated(s, b);
    hide Safe, RootInFlight, Writing, CardOf, Associated;
  }

  // ----- phases of the collector -----

  lemma KeepOldKeeps(s: State, b: int)
    requires Inv(s) && Enabled(s, KeepOld(b))
    ensures Inv(Apply(s, KeepOld(b)))
  {
    hide Locks, Threads, Shapes, Colours;
    var u := Apply(s, KeepOld(b));
    LocksStay(s, u);
    ThreadsStay(s, u);
    KeepOldShapes(s, u, b);
    KeepOldColours(s, u, b);
  }

  lemma KeepOldShapes(s: State, u: State, b: int)
    requires Shapes(s) && Enabled(s, KeepOld(b)) && u == Apply(s, KeepOld(b))
    ensures Shapes(u)
  {
    assert forall x, y :: Writing(s, x, y) ==> Writing(u, x, y);
    hide Writing, CardOf;
  }

  /** The words of an old block that are not scheduled lie on unmarked cards: they are zero, or what
      is being written there has been queued. */
  lemma UnreadWordIsSafe(s: State, b: int, w: int)
    requires Inv(s) && Enabled(s, KeepOld(b)) && w in s.blocks[b] && w in s.mem && CardOf(w) !in s.cards
    ensures Safe(s, s.mem[w])
  {
    hide Colours, PhaseShape, CardOf;
    assert w in s.zone;
    if Writing(s, w, s.mem[w]) {
      assert ThreadOk(s, s.pcs[s.lock.t]);
    }
  }

  lemma KeepOldColours(s: State, u: State, b: int)
    requires Inv(s) && Enabled(s, KeepOld(b)) && u == Apply(s, KeepOld(b))
    ensures Colours(u, {})
  {
    hide Locks, Threads, Shapes, CardOf;
    forall w | w in s.blocks[b] && w in s.mem && CardOf(w) !in s.cards ensures Safe(s, s.mem[w]) {
      UnreadWordIsSafe(s, b, w);
    }
    assert forall x | Safe(s, x) :: Safe(u, x);
    hide Safe, RootInFlight;
  }

  lemma RaiseKeeps(s: State, partial: bool)
    requires Inv(s) && Enabled(s, Raise(partial))
    ensures Inv(Apply(s, Raise(partial)))
  {
    hide Colours, CardOf;
    var u := Apply(s, Raise(partial));
    assert Colours(u, {}) by { RaisedColours(s, u); }
    assert forall x, y :: Writing(s, x, y) ==> Writing(u, x, y);
  }

  lemma RaisedColours(s: State, u: State)
    requires PhaseShape(s) && s.phase == Idle
    requires u.marked == s.marked && u.published == {} && u.phase == Starting
    ensures Colours(u, {})
  {
    hide Safe, RootInFlight;
  }

  lemma CopyRootsKeeps(s: State)
    requires Inv(s) && Enabled(s, CopyRoots)
    ensures Inv(Apply(s, CopyRoots))
  {
    hide Locks, Threads, CardOf;
    var u := Apply(s, CopyRoots);
    LocksStay(s, u);
    ThreadsStay(s, u);
    assert forall x | Safe(s, x) :: Safe(u, x);
    assert forall x, y :: Writing(s, x, y) ==> Writing(u, x, y);
    hide Safe, RootInFlight, Writing;
  }

  lemma OverflowKeeps(s: State)
    requires Inv(s) && Enabled(s, Overflow)
    ensures Inv(Apply(s, Overflow))
  {
    hide Locks, Threads, CardOf;
    var u := Apply(s, Overflow);
    LocksStay(s, u);
    ThreadsStay(s, u);
    assert forall x, y :: Writing(s, x, y) ==> Writing(u, x, y);
    hide Safe, RootInFlight, Writing;
  }

  lemma TakeLockKeeps(s: State)
    requires Inv(s) && Enabled(s, TakeLock)
    ensures Inv(Apply(s, TakeLock))
  {
    hide Threads, CardOf;
    var u := Apply(s, TakeLock);
    ThreadsStay(s, u);
    assert forall x | Safe(s, x) :: Safe(u, x);
    assert forall x, y :: !Writing(s, x, y);
    assert forall q :: !RootInFlight(s, q);
    hide Safe, RootInFlight, Writing;
  }

  lemma StartAssociationsKeeps(s: State)
    requires Inv(s) && Enabled(s, StartAssociations)
    ensures Inv(Apply(s, StartAssociations))
  {
    hide Locks, Threads, CardOf;
    var u := Apply(s, StartAssociations);
    LocksStay(s, u);
    ThreadsStay(s, u);
    assert forall x | Safe(s, x) :: Safe(u, x);
    assert forall q | RootInFlight(s, q) :: RootInFlight(u, q);
    assert forall x, y :: Writing(s, x, y) ==> Writing(u, x, y);
    assert forall o | o in s.assoc :: o.0 in u.owners;
    hide Safe, RootInFlight, Writing;
  }

  lemma RetryKeeps(s: State)
    requires Inv(s) && Enabled(s, Retry)
    ensures Inv(Apply(s, Retry))
  {
    hide Threads, CardOf;
    var u := Apply(s, Retry);
    ThreadsWait(s, u);
    assert forall x, y :: !Writing(s, x, y);
    hide Safe, RootInFlight, Writing;
  }

  lemma ScavengeKeeps(s: State)
    requires Inv(s) && Enabled(s, Scavenge)
    ensures Inv(Apply(s, Scavenge))
  {
    hide Locks, Threads, CardOf;
    var u := Apply(s, Scavenge);
    LocksStay(s, u);
    ThreadsStay(s, u);
    assert forall x | Safe(s, x) :: Safe(u, x);
    assert forall q | RootInFlight(s, q) :: RootInFlight(u, q);
    assert forall x, y :: Writing(s, x, y) ==> Writing(u, x, y);
    hide Safe, RootInFlight, Writing;
  }

  lemma RipenKeeps(s: State, b: int)
    requires Inv(s) && Enabled(s, Ripen(b))
    ensures Inv(Apply(s, Ripen(b)))
  {
    hide Locks, Threads, CardOf;
    var u := Apply(s, Ripen(b));
    LocksStay(s, u);
    ThreadsStay(s, u);
    assert forall x | Safe(s, x) :: Safe(u, x);
    assert forall q | RootInFlight(s, q) :: RootInFlight(u, q);
    assert forall x, y :: Writing(s, x, y) ==> Writing(u, x, y);
    hide Safe, RootInFlight, Writing;
  }

  lemma LowerKeeps(s: State)
    requires Inv(s) && Enabled(s, Lower)
    ensures Inv(Apply(s, Lower))
  {
    hide Colours, CardOf;
    var u := Apply(s, Lower);
    NothingPromised(u);
    assert forall x, y :: !Writing(s, x, y);
    hide Writing;
  }

  lemma FreeOneKeeps(s: State, b: int)
    requires Inv(s) && Enabled(s, FreeOne(b))
    ensures Inv(Apply(s, FreeOne(b)))
  {
    hide Locks, Threads, Colours, CardOf;
    var u := Apply(s, FreeOne(b));
    LocksStay(s, u);
    ThreadsStay(s, u);
    NothingPromised(u);
    assert forall x, y :: Writing(s, x, y) ==> Writing(u, x, y);
    hide Writing;
  }

  lemma FinishKeeps(s: State)
    requires Inv(s) && Enabled(s, Finish)
    ensures Inv(Apply(s, Finish))
  {
    hide Threads, Colours, CardOf;
    var u := Apply(s, Finish);
    LocksStay(s, u);
    ThreadsIdle(s, u);
    NothingPromised(u);
    assert forall x, y :: Writing(s, x, y) ==> Writing(u, x, y);
    hide Writing;
  }

  /** While the flag is down, no thread relies on marks. */
  lemma ThreadsIdle(s: State, u: State)
    requires Threads(s) && !s.needs
    requires u.pcs == s.pcs && u.needs == s.needs
    requires u.lowest == s.lowest && u.zone == s.zone && u.mem.Keys == s.mem.Keys
    ensures Threads(u)
  {
    forall t | t in u.pcs ensures ThreadOk(u, u.pcs[t]) {
      assert ThreadOk(s, s.pcs[t]);
    }
  }

  // ----- every step keeps the invariant -----

  lemma AdvanceKeeps(s: State, t: Tid)
    requires Inv(s) && Enabled(s, Advance(t))
    ensures Inv(Apply(s, Advance(t)))
  {
    hide Inv, Advanced;
    match s.pcs[t]
    case StoreLocked(w, v) => StoreLockedKeeps(s, t);
    case StoreQueued(w, v) => StoreQueuedKeeps(s, t);
    case StoreWritten(w, v) => StoreWrittenKeeps(s, t);
    case RootLocked(r, v) => RootLockedKeeps(s, t);
    case RootInserted(r, v) => RootInsertedKeeps(s, t);
    case RootQueued(r, v) => RootQueuedKeeps(s, t);
    case AssocLocked(owner, key, v) => AssocLockedKeeps(s, t);
    case AssocStored(v) => AssocStoredKeeps(s, t);
    case Releasing => ReleasingKeeps(s, t);
    case AllocLocked(b, words) => AllocLockedKeeps(s, t);
    case AllocRead(b, words, seen) => AllocReadKeeps(s, t);
    case AllocChecked(b, words) => AllocCheckedKeeps(s, t);
    case AllocPublished(b) => AllocPublishedKeeps(s, t);
    case AllocUnguarded(b, words) => AllocUnguardedKeeps(s, t);
  }

  /** Every step of every thread keeps the invariant. */
  lemma StepKeepsInv(s: State, step: Step)
    requires Inv(s) && Enabled(s, step)
    ensures Inv(Apply(s, step))
  {
    hide Inv, Apply, Enabled;
    match step
    case Raise(partial) => RaiseKeeps(s, partial);
    case KeepOld(b) => KeepOldKeeps(s, b);
    case MarkValue(v) => MarkValueKeeps(s, v);
    case CopyRoots => CopyRootsKeeps(s);
    case ScanWord(w) => ScanWordKeeps(s, w);
    case Overflow => OverflowKeeps(s);
    case TakeLock => TakeLockKeeps(s);
    case DrainOne(v) => DrainOneKeeps(s, v);
    case StartAssociations => StartAssociationsKeeps(s);
    case VisitOwner(b) => VisitOwnerKeeps(s, b);
    case Retry => RetryKeeps(s);
    case Scavenge => ScavengeKeeps(s);
    case Ripen(b) => RipenKeeps(s, b);
    case Lower => LowerKeeps(s);
    case FreeOne(b) => FreeOneKeeps(s, b);
    case Finish => FinishKeeps(s);
    case AcquireForStore(t, w, v) => AcquireForStoreKeeps(s, t, w, v);
    case AcquireForRoot(t, r, v) => AcquireForRootKeeps(s, t, r, v);
    case AcquireForAssoc(t, owner, key, v) => AcquireForAssocKeeps(s, t, owner, key, v);
    case BeginAllocate(t, b, words) => BeginAllocateKeeps(s, t, b, words);
    case RemoveRoot(r) => RemoveRootKeeps(s, r);
    case EraseAssoc(owner, key) => EraseAssocKeeps(s, owner, key);
    case StoreData(w, v) => StoreDataKeeps(s, w, v);
    case Advance(t) => AdvanceKeeps(s, t);
  }

  // ----- whole runs -----

  ghost predicate IsRun(states: seq<State>, steps: seq<Step>) {
    && |states| == |steps| + 1 && Init(states[0])
    && forall i | 0 <= i < |steps| :: Enabled(states[i], steps[i]) && states[i+1] == Apply(states[i], steps[i])
  }

  lemma InitInv(s: State)
    requires Init(s)
    ensures Inv(s)
  {
    hide CardOf, Writing;
  }

  lemma {:induction false} RunKeepsInv(states: seq<State>, steps: seq<Step>)
    requires IsRun(states, steps)
    ensures Inv(states[|states|-1])
    decreases |steps|
  {
    hide Inv, Init, Enabled, Apply;
    if steps == [] {
      InitInv(states[0]);
    } else {
      var n := |steps| - 1;
      assert IsRun(states[..n+1], steps[..n]);
      RunKeepsInv(states[..n+1], steps[..n]);
      StepKeepsInv(states[n], steps[n]);
    }
  }

  /** b is held by a word of a, or associated with it. */
  ghost predicate Refers(s: State, a: int, b: int) {
    || (exists w :: a in s.blocks && w in s.blocks[a] && w in s.mem && s.mem[w] == b)
    || (exists o :: o in s.assoc && o.0 == a && s.assoc[o] == b)
  }

  /** p leads from a block held by a registered root along references. */
  ghost predicate IsPath(s: State, p: seq<int>) {
    && |p| > 0 && (forall i | 0 <= i < |p| :: p[i] in s.blocks)
    && (exists r :: r in s.roots && r in s.mem && s.mem[r] == p[0])
    && forall i | 0 < i < |p| :: Refers(s, p[i-1], p[i])
  }

  ghost predicate Reachable(s: State, b: int) {
    exists p :: IsPath(s, p) && p[|p|-1] == b
  }

  /** When the garbage list is complete, the collector holds the lock: nothing is in flight. */
  lemma SafeIsMarked(s: State, v: int)
    requires Inv(s) && s.phase == Scavenged && Safe(s, v) && v in s.blocks
    ensures v in s.marked
  {
    hide Threads, Colours, WordShape, OldShape, CardsMarked;
  }

  lemma RootIsMarked(s: State, r: int)
    requires Inv(s) && s.phase == Scavenged && r in s.roots && r in s.mem && s.mem[r] in s.blocks
    ensures s.mem[r] in s.marked
  {
    hide Threads, Tri, AssocSafe, PublishedSafe, WordShape, OldShape, CardsMarked;
    assert SafeBut(s, {}, s.mem[r]) || RootInFlight(s, r);
    SafeIsMarked(s, s.mem[r]);
  }

  lemma ReferredIsMarked(s: State, a: int, b: int)
    requires Inv(s) && s.phase == Scavenged && a in s.marked && b in s.blocks && Refers(s, a, b)
    ensures b in s.marked
  {
    hide Locks, Threads, RootsSafe, PublishedSafe, WordShape, OldShape, CardsMarked, Safe;
    if w :| a in s.blocks && w in s.blocks[a] && w in s.mem && s.mem[w] == b {
      assert SafeBut(s, {}, s.mem[w]);
      SafeIsMarked(s, b);
    }
  }

  lemma {:induction false} PathIsMarked(s: State, p: seq<int>)
    requires Inv(s) && s.phase == Scavenged && IsPath(s, p)
    ensures p[|p|-1] in s.marked
    decreases |p|
  {
    hide Inv, Refers;
    if |p| == 1 {
      var r :| r in s.roots && r in s.mem && s.mem[r] == p[0];
      RootIsMarked(s, r);
    } else {
      var q := p[..|p|-1];
      assert IsPath(s, q);
      PathIsMarked(s, q);
      assert Refers(s, p[|p|-2], p[|p|-1]);
      ReferredIsMarked(s, p[|p|-2], p[|p|-1]);
    }
  }

  /** The garbage list holds no marked block. */
  lemma MarkedIsNotGarbage(s: State, b: int)
    requires Inv(s) && s.phase == Scavenged && b in s.marked
    ensures b !in s.garbage
  {
    hide Locks, Threads, Colours, WordShape, OldShape, CardsMarked;
  }

  /** Safety: after any interleaving, a block reachable from the registered roots when the garbage
      list of a full or a partial collection is complete is marked, so it is not on the list. */
  lemma ReachableIsNotGarbage(states: seq<State>, steps: seq<Step>, b: int)
    requires IsRun(states, steps) && states[|states|-1].phase == Scavenged
    requires Reachable(states[|states|-1], b)
    ensures b in states[|states|-1].marked && b !in states[|states|-1].garbage
  {
    RunLength(states, steps);
    hide Inv, IsPath, IsRun;
    var s := states[|states|-1];
    RunKeepsInv(states, steps);
    var p :| IsPath(s, p) && p[|p|-1] == b;
    PathIsMarked(s, p);
    MarkedIsNotGarbage(s, b);
  }

  /** When the garbage list is complete, exactly the blocks that are not marked are on it, whether they
      have been allocated before the flag was raised or since. */
  lemma GarbageIsUnmarked(states: seq<State>, steps: seq<Step>, b: int)
    requires IsRun(states, steps) && states[|states|-1].phase == Scavenged
    ensures
      var s := states[|states|-1];
      b in s.garbage <==> b in s.blocks && b !in s.marked
  {
    RunLength(states, steps);
    RunKeepsInv(states, steps);
    hide IsRun, Locks, Threads, Colours, WordShape, OldShape, CardsMarked;
  }

  /** Since step k raised the flag, no pass has been repeated. */
  ghost predicate OnePass(steps: seq<Step>, k: nat) {
    && k < |steps| && steps[k].Raise?
    && forall i | k < i < |steps| :: !steps[i].Retry?
  }

  lemma MarkingHistories(s: State, vs: set<int>)
    ensures Marking(s, vs).published == s.published && Marking(s, vs).everPublished == s.everPublished
  {}

  lemma QueueHistories(s: State, t: Tid)
    requires Enabled(s, Advance(t)) && (s.pcs[t].StoreLocked? || s.pcs[t].RootInserted? || s.pcs[t].AssocStored?)
    ensures Advanced(s, t).published == s.published && Advanced(s, t).everPublished == s.everPublished
  {}

  lemma WriteHistories(s: State, t: Tid)
    requires Enabled(s, Advance(t)) && (s.pcs[t].StoreQueued? || s.pcs[t].StoreWritten? || s.pcs[t].RootQueued?)
    ensures Advanced(s, t).published == s.published && Advanced(s, t).everPublished == s.everPublished
  {}

  lemma StoreHistories(s: State, t: Tid)
    requires Enabled(s, Advance(t)) && !HoldsAllocator(s.pcs[t])
    ensures Advanced(s, t).published == s.published && Advanced(s, t).everPublished == s.everPublished
  {
    var pc := s.pcs[t];
    if pc.StoreLocked? || pc.RootInserted? || pc.AssocStored? {
      hide Advanced;
      QueueHistories(s, t);
    } else if pc.StoreQueued? || pc.StoreWritten? || pc.RootQueued? {
      hide Advanced;
      WriteHistories(s, t);
    }
  }

  lemma PublishedHistories(s: State, b: int, words: set<int>)
    requires s.published == s.everPublished
    ensures Published(s, b, words).published == Published(s, b, words).everPublished
  {}

  lemma PublishHistories(s: State, t: Tid)
    requires Enabled(s, Advance(t)) && (s.pcs[t].AllocChecked? || s.pcs[t].AllocUnguarded?)
    requires s.published == s.everPublished
    ensures Advanced(s, t).published == Advanced(s, t).everPublished
  {
    hide Published;
    PublishedHistories(s, s.pcs[t].b, s.pcs[t].words);
  }

  lemma AllocHistories(s: State, t: Tid)
    requires Enabled(s, Advance(t)) && HoldsAllocator(s.pcs[t]) && s.published == s.everPublished
    ensures Advanced(s, t).published == Advanced(s, t).everPublished
  {
    hide Published;
    if s.pcs[t].AllocChecked? || s.pcs[t].AllocUnguarded? {
      hide Advanced;
      PublishHistories(s, t);
    }
  }

  lemma AdvanceHistories(s: State, t: Tid)
    requires Enabled(s, Advance(t)) && s.published == s.everPublished
    ensures Advanced(s, t).published == Advanced(s, t).everPublished
  {
    hide Advanced, HoldsAllocator;
    if HoldsAllocator(s.pcs[t]) {
      AllocHistories(s, t);
    } else {
      StoreHistories(s, t);
    }
  }

  /** Only the retry forgets what has been published since the flag was raised. */
  lemma PublishedTogether(s: State, step: Step)
    requires Enabled(s, step) && !step.Retry? && (step.Raise? || s.published == s.everPublished)
    ensures Apply(s, step).published == Apply(s, step).everPublished
  {
    hide Marking, Advanced;
    match step
    case Advance(t) => AdvanceHistories(s, t);
    case MarkValue(v) => MarkingHistories(s, {v});
    case ScanWord(w) => MarkingHistories(s.(todo := s.todo - {w}), {s.mem[w]});
    case DrainOne(v) => MarkingHistories(s.(queue := s.queue - {v}), {v});
    case VisitOwner(b) => MarkingHistories(s.(owners := s.owners - {b}), Associated(s, b));
    case _ =>
  }

  lemma {:induction false} PublishedInOnePass(states: seq<State>, steps: seq<Step>, k: nat, n: nat)
    requires IsRun(states, steps) && OnePass(steps, k) && k < n <= |steps|
    ensures states[n].published == states[n].everPublished
    decreases n
  {
    hide Enabled, Apply;
    if n > k + 1 {
      PublishedInOnePass(states, steps, k, n - 1);
    }
    assert Enabled(states[n-1], steps[n-1]);
    PublishedTogether(states[n-1], steps[n-1]);
  }

  lemma PublishedIsMarked(s: State, b: int)
    requires Inv(s) && s.phase == Scavenged && b in s.published && b in s.blocks
    ensures b in s.marked
  {
    hide Locks, Threads, Tri, RootsSafe, AssocSafe, WordShape, OldShape, CardsMarked, Safe;
    assert SafeBut(s, {}, b);
    SafeIsMarked(s, b);
  }

  lemma GarbageIsBlock(s: State, b: int)
    requires Inv(s) && b in s.garbage
    ensures b in s.blocks
  {
    hide Locks, Threads, Colours, WordShape, OldShape, CardsMarked;
  }

  /** In a collection that has not been repeated, no block published since the flag was raised is on
      the garbage list. */
  lemma PublishedIsNotGarbage(states: seq<State>, steps: seq<Step>, k: nat, b: int)
    requires IsRun(states, steps) && states[|states|-1].phase == Scavenged && OnePass(steps, k)
    requires b in states[|states|-1].everPublished
    ensures b !in states[|states|-1].garbage
  {
    RunLength(states, steps);
    hide Inv, IsRun;
    var s := states[|states|-1];
    RunKeepsInv(states, steps);
    PublishedInOnePass(states, steps, k, |steps|);
    if b in s.garbage {
      GarbageIsBlock(s, b);
      PublishedIsMarked(s, b);
      MarkedIsNotGarbage(s, b);
    }
  }

  lemma RunLength(states: seq<State>, steps: seq<Step>)
    requires IsRun(states, steps)
    ensures |states| == |steps| + 1
  {}

  // ----- the pass that overflows -----

  /** One more enabled step makes a longer run. */
  lemma Extend(states: seq<State>, steps: seq<Step>, step: Step) returns (more: seq<State>, longer: seq<Step>)
    requires IsRun(states, steps) && Enabled(states[|states|-1], step)
    ensures IsRun(more, longer) && more[|more|-1] == Apply(states[|states|-1], step)
    ensures |more| == |states| + 1
  {
    hide Enabled, Apply, Init;
    more, longer := states + [Apply(states[|states|-1], step)], steps + [step];
    forall i | 0 <= i < |longer| ensures Enabled(more[i], longer[i]) && more[i+1] == Apply(more[i], longer[i]) {
      if i < |steps| {
        assert more[i] == states[i] && more[i+1] == states[i+1] && longer[i] == steps[i];
      }
    }
  }

  /** No memory, no blocks, no threads, no collection. */
  function Nothing(): State {
    State(1, {}, map[], {}, map[], {}, {}, map[], {}, {}, {}, {},
          false, Unlocked, Idle, false, false, {}, {}, {}, map[])
  }

  /** A thread that is allocating block 8 reads the flag while it is up and takes the lock. */
  lemma SeeFlagUp() returns (states: seq<State>, steps: seq<Step>)
    ensures IsRun(states, steps)
    ensures states[|states|-1] == Nothing().(needs := true, phase := Starting, pcs := map[0 := AllocChecked(8, {})],
                                             lock := ByThread(0))
  {
    hide IsRun;
    states, steps := [Nothing()], [];
    EmptyRun(states[0]);
    states, steps := Extend(states, steps, Raise(false));
    states, steps := Extend(states, steps, BeginAllocate(0, 8, {}));
    states, steps := Extend(states, steps, Advance(0));
    states, steps := Extend(states, steps, Advance(0));
  }

  /** It publishes the block and queues it. */
  lemma PublishDuringPass() returns (states: seq<State>, steps: seq<Step>)
    ensures IsRun(states, steps)
    ensures states[|states|-1] == Nothing().(blocks := map[8 := {}], queue := {8}, needs := true, phase := Starting,
                                             published := {8}, everPublished := {8}, pcs := map[0 := Running])
  {
    hide IsRun;
    states, steps := SeeFlagUp();
    states, steps := Extend(states, steps, Advance(0));
    states, steps := Extend(states, steps, Advance(0));
    states, steps := Extend(states, steps, Advance(0));
  }

  lemma EmptyRun(s: State)
    requires Init(s)
    ensures IsRun([s], [])
  {}

  /** The pass overflows, and takes the block off the queue before it is repeated. */
  lemma OverflowAfterPublishing() returns (states: seq<State>, steps: seq<Step>)
    ensures IsRun(states, steps)
    ensures states[|states|-1] == Nothing().(blocks := map[8 := {}], marked := {8}, needs := true, lock := ByCollector,
                                             phase := Draining, lost := true, published := {8}, everPublished := {8},
                                             pcs := map[0 := Running])
  {
    hide IsRun;
    states, steps := PublishDuringPass();
    states, steps := Extend(states, steps, CopyRoots);
    states, steps := Extend(states, steps, Overflow);
    states, steps := Extend(states, steps, TakeLock);
    states, steps := Extend(states, steps, DrainOne(8));
  }

  /** The retry forgets the queue of the first pass: in some run a block published while the flag
      was up ends on the garbage list. */
  lemma OverflowLosesPublished() returns (states: seq<State>, steps: seq<Step>)
    ensures IsRun(states, steps)
    ensures states[|states|-1].phase == Scavenged
    ensures 8 in states[|states|-1].everPublished && 8 in states[|states|-1].garbage
  {
    hide IsRun, Marking;
    states, steps := OverflowAfterPublishing();
    states, steps := Extend(states, steps, StartAssociations);
    assert states[|states|-1].owners == {};
    states, steps := Extend(states, steps, Retry);
    states, steps := Extend(states, steps, CopyRoots);
    states, steps := Extend(states, steps, TakeLock);
    states, steps := Extend(states, steps, StartAssociations);
    assert states[|states|-1].owners == {};
    states, steps := Extend(states, steps, Scavenge);
  }
}
