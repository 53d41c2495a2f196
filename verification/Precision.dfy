/**
 What a concurrent collection does collect. Blocks that nobody holds any more, and that no thread
 brings up again, are on the garbage list; a full collection that mutators leave alone lists exactly
 the blocks that cannot be reached.
 */
module Precision {
  import opened Enlivening
  import Heap

  /** The word w holds no member of d. */
  ghost predicate Clean(s: State, d: set<int>, w: int) {
    w in s.mem ==> s.mem[w] !in d
  }

  /** A new block b with these words brings up no member of d. */
  ghost predicate CleanBlock(s: State, d: set<int>, b: int, words: set<int>) {
    && (forall w | w in words :: Clean(s, d, w))
    && forall o | o in s.assoc && o.0 == b :: s.assoc[o] !in d
  }

  /** The thread has no member of d in hand. */
  ghost predicate Innocent(s: State, d: set<int>, pc: Pc) {
    match pc
    case Running => true
    case StoreLocked(w, v) => v !in d
    case StoreQueued(w, v) => v !in d
    case StoreWritten(w, v) => v !in d
    case RootLocked(r, v) => v !in d && Clean(s, d, r)
    case RootInserted(r, v) => v !in d
    case RootQueued(r, v) => v !in d
    case AssocLocked(owner, key, v) => v !in d
    case AssocStored(v) => v !in d
    case Releasing => true
    case AllocLocked(b, words) => CleanBlock(s, d, b, words)
    case AllocRead(b, words, seen) => CleanBlock(s, d, b, words)
    case AllocChecked(b, words) => CleanBlock(s, d, b, words)
    case AllocPublished(b) => b !in d
    case AllocUnguarded(b, words) => CleanBlock(s, d, b, words)
  }

  /** Nobody but the members of d itself holds a member of d: no mark, no queued value, no root, no
      scheduled word, no other block, no association of another block, no thread. */
  ghost predicate Forgotten(s: State, d: set<int>) {
    && d <= s.blocks.Keys && d !! s.marked && d !! s.queue
    && (forall w | w in s.todo :: Clean(s, d, w))
    && (forall r | r in s.roots :: Clean(s, d, r))
    && (forall b, w | b in s.blocks && b !in d && w in s.blocks[b] :: Clean(s, d, w))
    && (forall o | o in s.assoc && o.0 in s.blocks && o.0 !in d :: s.assoc[o] !in d)
    && (forall t | t in s.pcs :: Innocent(s, d, s.pcs[t]))
  }

  /** The step brings up a member of d: from a stack, as an old block that is kept, from the hands of a
      thread, or left over in memory that is used again; or it frees one. */
  ghost predicate BringsUp(s: State, d: set<int>, step: Step) {
    match step
    case KeepOld(b) => b in d
    case MarkValue(v) => v in d
    case FreeOne(b) => b in d
    case AcquireForStore(t, w, v) => v in d
    case AcquireForRoot(t, r, v) => v in d || !Clean(s, d, r)
    case AcquireForAssoc(t, owner, key, v) => v in d
    case BeginAllocate(t, b, words) => !CleanBlock(s, d, b, words)
    case _ => false
  }

  /** From s to u no word and no association has come to hold a member of d. */
  ghost predicate Cleaner(s: State, u: State, d: set<int>) {
    && (forall w :: Clean(s, d, w) ==> Clean(u, d, w))
    && forall o | o in u.assoc && u.assoc[o] in d :: o in s.assoc && s.assoc[o] in d
  }

  lemma InnocentStill(s: State, u: State, d: set<int>, pc: Pc)
    requires Cleaner(s, u, d) && Innocent(s, d, pc)
    ensures Innocent(u, d, pc)
  {
    hide Clean;
  }

  lemma InnocentsStill(s: State, u: State, d: set<int>)
    requires Cleaner(s, u, d)
    ensures forall pc :: Innocent(s, d, pc) ==> Innocent(u, d, pc)
  {
    forall pc | Innocent(s, d, pc) ensures Innocent(u, d, pc) {
      InnocentStill(s, u, d, pc);
    }
  }

  /** Nobody comes to hold a member of d if all that is added, in words, marks, roots and threads, is clean. */
  lemma StillForgotten(s: State, u: State, d: set<int>)
    requires Forgotten(s, d) && Cleaner(s, u, d)
    requires d <= u.blocks.Keys && d !! u.marked && d !! u.queue
    requires forall w | w in u.todo && w !in s.todo :: Clean(u, d, w)
    requires forall r | r in u.roots && r !in s.roots :: Clean(u, d, r)
    requires forall b | b in u.blocks ::
               if b in s.blocks then u.blocks[b] == s.blocks[b] else CleanBlock(u, d, b, u.blocks[b])
    requires forall t | t in u.pcs :: (t in s.pcs && u.pcs[t] == s.pcs[t]) || Innocent(u, d, u.pcs[t])
    ensures Forgotten(u, d)
  {
    InnocentsStill(s, u, d);
    hide Clean, Innocent;
    forall o | o in u.assoc && o.0 in u.blocks && o.0 !in d ensures u.assoc[o] !in d {
      if o.0 !in s.blocks {
        assert CleanBlock(u, d, o.0, u.blocks[o.0]);
      }
    }
  }

  lemma SameMemory(s: State, u: State, d: set<int>)
    requires u.mem == s.mem && u.assoc == s.assoc
    ensures Cleaner(s, u, d)
  {}

  /** Marking values that are not in d reads no word that holds a member of d. */
  lemma MarkingForgets(s: State, d: set<int>, vs: set<int>)
    requires Forgotten(s, d) && d !! vs
    ensures Forgotten(Marking(s, vs), d)
  {
    var u := Marking(s, vs);
    SameMemory(s, u, d);
    assert forall w | w in u.todo && w !in s.todo :: Clean(s, d, w);
    hide Clean, Innocent, Forgotten;
    StillForgotten(s, u, d);
  }

  lemma CollectorForgets(s: State, d: set<int>, step: Step)
    requires Forgotten(s, d) && Enabled(s, step) && !BringsUp(s, d, step)
    requires step.Raise? || step.KeepOld? || step.CopyRoots? || step.Overflow? || step.TakeLock?
             || step.StartAssociations? || step.Retry? || step.Scavenge? || step.Ripen? || step.Lower? || step.Finish?
    ensures Forgotten(Apply(s, step), d)
  {
    hide Clean, Innocent, Cleaner;
    var u := Apply(s, step);
    SameMemory(s, u, d);
    StillForgotten(s, u, d);
  }

  lemma MarkersForget(s: State, d: set<int>, step: Step)
    requires Forgotten(s, d) && Enabled(s, step) && !BringsUp(s, d, step) && s.marked <= s.blocks.Keys
    requires step.MarkValue? || step.ScanWord? || step.DrainOne? || step.VisitOwner?
    ensures Forgotten(Apply(s, step), d)
  {
    hide Innocent, Marking, Cleaner;
    match step
    case MarkValue(v) => MarkingForgets(s, d, {v});
    case ScanWord(w) =>
      var rest := s.(todo := s.todo - {w});
      SameMemory(s, rest, d);
      StillForgotten(s, rest, d);
      MarkingForgets(rest, d, {s.mem[w]});
    case DrainOne(v) =>
      var rest := s.(queue := s.queue - {v});
      SameMemory(s, rest, d);
      StillForgotten(s, rest, d);
      MarkingForgets(rest, d, {v});
    case VisitOwner(b) =>
      var rest := s.(owners := s.owners - {b});
      SameMemory(s, rest, d);
      StillForgotten(s, rest, d);
      if b in s.marked {
        MarkingForgets(rest, d, Associated(s, b));
      }
  }

  lemma WriteIsClean(s: State, u: State, d: set<int>, w: int, v: int)
    requires u.mem == s.mem[w := v] && u.assoc == s.assoc && v !in d
    ensures Cleaner(s, u, d)
  {}

  lemma AssociateIsClean(s: State, u: State, d: set<int>, o: (int, int), v: int)
    requires u.mem == s.mem && u.assoc == s.assoc[o := v] && v !in d
    ensures Cleaner(s, u, d)
  {}

  lemma FewerIsClean(s: State, u: State, d: set<int>)
    requires u.mem == s.mem && forall o | o in u.assoc :: o in s.assoc && u.assoc[o] == s.assoc[o]
    ensures Cleaner(s, u, d)
  {}

  lemma ThreadIsInnocent(s: State, d: set<int>, t: Tid)
    requires Forgotten(s, d) && t in s.pcs
    ensures Innocent(s, d, s.pcs[t])
  {
    hide Innocent;
  }

  /** A thread moves on, and may queue a value and insert a root. */
  lemma ThreadMovesOn(s: State, u: State, d: set<int>, t: Tid)
    requires Forgotten(s, d) && Cleaner(s, u, d)
    requires t in u.pcs && u.pcs == s.pcs[t := u.pcs[t]] && Innocent(u, d, u.pcs[t])
    requires u.marked == s.marked && u.todo == s.todo && u.blocks == s.blocks
    requires u.queue * d <= s.queue && forall r | r in u.roots && r !in s.roots :: Clean(u, d, r)
    ensures Forgotten(u, d)
  {
    hide Clean, Innocent, Cleaner;
    StillForgotten(s, u, d);
  }

  /** A thread that does not hold anything yet begins an operation. */
  lemma BeginningForgets(s: State, d: set<int>, step: Step)
    requires Forgotten(s, d) && Enabled(s, step) && !BringsUp(s, d, step)
    requires step.AcquireForStore? || step.AcquireForRoot? || step.AcquireForAssoc? || step.BeginAllocate?
    ensures Forgotten(Apply(s, step), d)
  {
    hide Forgotten, Cleaner, Clean, CleanBlock;
    var u := Apply(s, step);
    SameMemory(s, u, d);
    InnocentsStill(s, u, d);
    match step
    case AcquireForStore(t, w, v) => Begins(s, u, d, t, StoreLocked(w, v));
    case AcquireForRoot(t, r, v) => Begins(s, u, d, t, RootLocked(r, v));
    case AcquireForAssoc(t, owner, key, v) => Begins(s, u, d, t, AssocLocked(owner, key, v));
    case BeginAllocate(t, b, words) => Begins(s, u, d, t, AllocLocked(b, words));
  }

  lemma Begins(s: State, u: State, d: set<int>, t: Tid, pc: Pc)
    requires Forgotten(s, d) && Innocent(s, d, pc)
    requires u == s.(lock := u.lock, pcs := s.pcs[t := pc])
    ensures Forgotten(u, d)
  {
    SameMemory(s, u, d);
    InnocentStill(s, u, d, pc);
    hide Forgotten, Cleaner, Innocent, Clean;
    ThreadMovesOn(s, u, d, t);
  }

  /** Steps of the collector and of mutators that take something away, or store data. */
  lemma RemovalForgets(s: State, d: set<int>, step: Step)
    requires Forgotten(s, d) && Enabled(s, step) && !BringsUp(s, d, step)
    requires step.FreeOne? || step.RemoveRoot? || step.EraseAssoc?
    ensures Forgotten(Apply(s, step), d)
  {
    hide Clean, Innocent, Cleaner;
    var u := Apply(s, step);
    FewerIsClean(s, u, d);
    assert d <= u.blocks.Keys;
    StillForgotten(s, u, d);
  }

  lemma DataForgets(s: State, d: set<int>, w: int, v: int)
    requires Forgotten(s, d) && Enabled(s, StoreData(w, v))
    requires forall b | b in s.blocks :: Heap.Plausible(s.lowest, b)
    ensures Forgotten(Apply(s, StoreData(w, v)), d)
  {
    hide Clean, Innocent, Cleaner;
    var u := Apply(s, StoreData(w, v));
    WriteIsClean(s, u, d, w, v);
    StillForgotten(s, u, d);
  }

  lemma StoringForgets(s: State, d: set<int>, t: Tid)
    requires Forgotten(s, d) && Enabled(s, Advance(t))
    requires s.pcs[t].StoreLocked? || s.pcs[t].StoreQueued? || s.pcs[t].StoreWritten?
    ensures Forgotten(Advanced(s, t), d)
  {
    hide Forgotten, Cleaner, Clean;
    ThreadIsInnocent(s, d, t);
    var u := Advanced(s, t);
    if s.pcs[t].StoreQueued? {
      WriteIsClean(s, u, d, s.pcs[t].w, s.pcs[t].v);
    } else {
      SameMemory(s, u, d);
    }
    ThreadMovesOn(s, u, d, t);
  }

  lemma RootingForgets(s: State, d: set<int>, t: Tid)
    requires Forgotten(s, d) && Enabled(s, Advance(t))
    requires s.pcs[t].RootLocked? || s.pcs[t].RootInserted? || s.pcs[t].RootQueued?
    ensures Forgotten(Advanced(s, t), d)
  {
    hide Forgotten, Cleaner;
    ThreadIsInnocent(s, d, t);
    var u := Advanced(s, t);
    if s.pcs[t].RootQueued? {
      WriteIsClean(s, u, d, s.pcs[t].r, s.pcs[t].v);
    } else {
      SameMemory(s, u, d);
    }
    ThreadMovesOn(s, u, d, t);
  }

  lemma AssociatingForgets(s: State, d: set<int>, t: Tid)
    requires Forgotten(s, d) && Enabled(s, Advance(t))
    requires s.pcs[t].AssocLocked? || s.pcs[t].AssocStored? || s.pcs[t].Releasing?
    ensures Forgotten(Advanced(s, t), d)
  {
    hide Forgotten, Cleaner, Clean;
    ThreadIsInnocent(s, d, t);
    var u := Advanced(s, t);
    if s.pcs[t].AssocLocked? {
      AssociateIsClean(s, u, d, (s.pcs[t].owner, s.pcs[t].key), s.pcs[t].v);
    } else {
      SameMemory(s, u, d);
    }
    ThreadMovesOn(s, u, d, t);
  }

  lemma AllocatingForgets(s: State, d: set<int>, t: Tid)
    requires Forgotten(s, d) && Enabled(s, Advance(t)) && (s.pcs[t].AllocLocked? || s.pcs[t].AllocRead?)
    ensures Forgotten(Advanced(s, t), d)
  {
    hide Forgotten, Cleaner, Clean, CleanBlock;
    ThreadIsInnocent(s, d, t);
    var u := Advanced(s, t);
    Begins(s, u, d, t, u.pcs[t]);
  }

  lemma QueueingForgets(s: State, d: set<int>, t: Tid)
    requires Forgotten(s, d) && Enabled(s, Advance(t)) && s.pcs[t].AllocPublished?
    ensures Forgotten(Advanced(s, t), d)
  {
    hide Forgotten, Cleaner, Clean, CleanBlock;
    ThreadIsInnocent(s, d, t);
    var u := Advanced(s, t);
    SameMemory(s, u, d);
    ThreadMovesOn(s, u, d, t);
  }

  lemma PublishedIsInnocent(s: State, u: State, d: set<int>, t: Tid)
    requires d <= s.blocks.Keys && Enabled(s, Advance(t)) && (s.pcs[t].AllocChecked? || s.pcs[t].AllocUnguarded?)
    requires u == Advanced(s, t) && Innocent(u, d, s.pcs[t])
    ensures Innocent(u, d, u.pcs[t]) && CleanBlock(u, d, s.pcs[t].b, s.pcs[t].words)
  {
    hide CleanBlock;
  }

  lemma PublishingForgets(s: State, d: set<int>, t: Tid)
    requires Forgotten(s, d) && Enabled(s, Advance(t)) && (s.pcs[t].AllocChecked? || s.pcs[t].AllocUnguarded?)
    ensures Forgotten(Advanced(s, t), d)
  {
    hide Cleaner, Clean;
    ThreadIsInnocent(s, d, t);
    var u := Advanced(s, t);
    SameMemory(s, u, d);
    InnocentsStill(s, u, d);
    assert Innocent(u, d, s.pcs[t]);
    PublishedIsInnocent(s, u, d, t);
    hide CleanBlock, Innocent;
    StillForgotten(s, u, d);
  }

  /** The steps inside an operation. */
  lemma ThreadForgets(s: State, d: set<int>, t: Tid)
    requires Forgotten(s, d) && Enabled(s, Advance(t))
    ensures Forgotten(Advanced(s, t), d)
  {
    hide Advanced, Forgotten;
    match s.pcs[t]
    case StoreLocked(_, _) => StoringForgets(s, d, t);
    case StoreQueued(_, _) => StoringForgets(s, d, t);
    case StoreWritten(_, _) => StoringForgets(s, d, t);
    case RootLocked(_, _) => RootingForgets(s, d, t);
    case RootInserted(_, _) => RootingForgets(s, d, t);
    case RootQueued(_, _) => RootingForgets(s, d, t);
    case AllocLocked(_, _) => AllocatingForgets(s, d, t);
    case AllocRead(_, _, _) => AllocatingForgets(s, d, t);
    case AllocPublished(_) => QueueingForgets(s, d, t);
    case AllocChecked(_, _) => PublishingForgets(s, d, t);
    case AllocUnguarded(_, _) => PublishingForgets(s, d, t);
    case _ => AssociatingForgets(s, d, t);
  }

  /** What nobody holds stays so until some step brings it up. */
  lemma StepForgets(s: State, d: set<int>, step: Step)
    requires Inv(s) && Forgotten(s, d) && Enabled(s, step) && !BringsUp(s, d, step)
    ensures Forgotten(Apply(s, step), d)
  {
    assert s.marked <= s.blocks.Keys && forall b | b in s.blocks :: Heap.Plausible(s.lowest, b);
    hide Inv, Forgotten, BringsUp;
    match step
    case Advance(t) => ThreadForgets(s, d, t);
    case MarkValue(v) => MarkersForget(s, d, step);
    case ScanWord(w) => MarkersForget(s, d, step);
    case DrainOne(v) => MarkersForget(s, d, step);
    case VisitOwner(b) => MarkersForget(s, d, step);
    case FreeOne(b) => RemovalForgets(s, d, step);
    case AcquireForStore(t, w, v) => BeginningForgets(s, d, step);
    case AcquireForRoot(t, r, v) => BeginningForgets(s, d, step);
    case AcquireForAssoc(t, owner, key, v) => BeginningForgets(s, d, step);
    case BeginAllocate(t, b, words) => BeginningForgets(s, d, step);
    case RemoveRoot(r) => RemovalForgets(s, d, step);
    case EraseAssoc(owner, key) => RemovalForgets(s, d, step);
    case StoreData(w, v) => DataForgets(s, d, w, v);
    case _ => CollectorForgets(s, d, step);
  }

  /** From state k on no step brings up a member of d. */
  ghost predicate LeftAlone(states: seq<State>, steps: seq<Step>, k: nat, d: set<int>) {
    k < |states| <= |steps| + 1 && forall i | k <= i < |steps| && i < |states| :: !BringsUp(states[i], d, steps[i])
  }

  lemma {:induction false} RunForgets(states: seq<State>, steps: seq<Step>, k: nat, d: set<int>)
    requires IsRun(states, steps) && LeftAlone(states, steps, k, d) && Forgotten(states[k], d)
    ensures Forgotten(states[|states|-1], d)
    decreases |steps|
  {
    hide Inv, Init, Enabled, Apply, BringsUp, Forgotten;
    if k < |steps| {
      var n := |steps| - 1;
      assert IsRun(states[..n+1], steps[..n]);
      RunForgets(states[..n+1], steps[..n], k, d);
      RunKeepsInv(states[..n+1], steps[..n]);
      StepForgets(states[n], d, steps[n]);
    }
  }

  /** Completeness: blocks that nobody holds in some state of a run, and that no later step brings up, are
      on the garbage list when it is complete, whatever threads do meanwhile, and also if passes overflow. */
  lemma ForgottenIsGarbage(states: seq<State>, steps: seq<Step>, k: nat, d: set<int>)
    requires IsRun(states, steps) && states[|states|-1].phase == Scavenged
    requires LeftAlone(states, steps, k, d) && Forgotten(states[k], d)
    ensures d <= states[|states|-1].garbage
  {
    RunLength(states, steps);
    hide IsRun, LeftAlone;
    RunForgets(states, steps, k, d);
    var s := states[|states|-1];
    forall b | b in d ensures b in s.garbage {
      GarbageIsUnmarked(states, steps, b);
    }
  }

  // ----- a full collection that is left alone -----

  /** A step of the collector that takes no value from stacks or retained blocks. */
  predicate Quiet(step: Step) {
    || step.CopyRoots? || step.ScanWord? || step.Overflow? || step.TakeLock? || step.DrainOne?
    || step.StartAssociations? || step.VisitOwner? || step.Retry? || step.Scavenge? || step.Ripen?
  }

  /** Reachability depends on memory, blocks, roots and associations only. */
  ghost predicate SameGraph(s: State, u: State) {
    u.mem == s.mem && u.blocks == s.blocks && u.roots == s.roots && u.assoc == s.assoc
  }

  lemma QuietKeepsGraph(s: State, step: Step)
    requires Enabled(s, step) && (Quiet(step) || step.Raise?)
    ensures SameGraph(s, Apply(s, step))
  {
    hide Marking, Associated;
    match step
    case ScanWord(w) => MarkingKeepsGraph(s.(todo := s.todo - {w}), {s.mem[w]});
    case DrainOne(v) => MarkingKeepsGraph(s.(queue := s.queue - {v}), {v});
    case VisitOwner(b) => MarkingKeepsGraph(s.(owners := s.owners - {b}), Associated(s, b));
    case _ =>
  }

  lemma MarkingKeepsGraph(s: State, vs: set<int>)
    ensures SameGraph(s, Marking(s, vs))
  {}

  lemma {:induction false} RunKeepsGraph(states: seq<State>, steps: seq<Step>, k: nat, n: nat)
    requires IsRun(states, steps) && k < n < |states| && steps[k].Raise?
    requires forall i | k < i < n :: Quiet(steps[i])
    ensures SameGraph(states[k], states[n])
    decreases n
  {
    hide Enabled, Apply, Init, Quiet;
    if k + 1 < n {
      RunKeepsGraph(states, steps, k, n - 1);
    }
    QuietKeepsGraph(states[n-1], steps[n-1]);
  }

  lemma ReachableStill(s: State, u: State, b: int)
    requires SameGraph(s, u) && Reachable(s, b)
    ensures Reachable(u, b)
  {
    var p :| IsPath(s, p) && p[|p|-1] == b;
    assert forall a, c :: Refers(s, a, c) ==> Refers(u, a, c);
    assert IsPath(u, p);
  }

  lemma RootReaches(s: State, r: int)
    requires r in s.roots && r in s.mem && s.mem[r] in s.blocks
    ensures Reachable(s, s.mem[r])
  {
    assert IsPath(s, [s.mem[r]]) && [s.mem[r]][0] == s.mem[r];
  }

  lemma ReferenceReaches(s: State, a: int, b: int)
    requires Reachable(s, a) && Refers(s, a, b) && b in s.blocks
    ensures Reachable(s, b)
  {
    var p :| IsPath(s, p) && p[|p|-1] == a;
    hide Refers;
    var q := p + [b];
    assert q[|q|-1] == b && IsPath(s, q);
  }

  ghost function Unreachable(s: State): (d: set<int>) {
    set b | b in s.blocks && !Reachable(s, b)
  }

  /** When the flag is raised, nobody holds a block that cannot be reached. */
  lemma UnreachableIsForgotten(s: State)
    requires Inv(s) && Enabled(s, Raise(false))
    ensures Forgotten(s, Unreachable(s))
  {
    var d := Unreachable(s);
    assert s.marked == {} && s.queue == {} && s.todo == {};
    assert forall t | t in s.pcs :: s.pcs[t] == Running;
    hide Inv, Reachable;
    forall r | r in s.roots ensures Clean(s, d, r) {
      if r in s.mem && s.mem[r] in s.blocks {
        RootReaches(s, r);
      }
    }
    forall b, w | b in s.blocks && b !in d && w in s.blocks[b] ensures Clean(s, d, w) {
      if w in s.mem && s.mem[w] in s.blocks {
        assert Refers(s, b, s.mem[w]);
        ReferenceReaches(s, b, s.mem[w]);
      }
    }
    forall o | o in s.assoc && o.0 in s.blocks && o.0 !in d ensures s.assoc[o] !in d {
      if s.assoc[o] in s.blocks {
        assert Refers(s, o.0, s.assoc[o]);
        ReferenceReaches(s, o.0, s.assoc[o]);
      }
    }
  }

  lemma StateOfRun(states: seq<State>, steps: seq<Step>, k: nat)
    requires IsRun(states, steps) && k < |steps|
    ensures |states| == |steps| + 1 && Inv(states[k]) && Enabled(states[k], steps[k])
  {
    hide Inv, Init, Apply, Enabled;
    assert IsRun(states[..k+1], steps[..k]);
    RunKeepsInv(states[..k+1], steps[..k]);
  }

  lemma QuietLeavesAlone(states: seq<State>, steps: seq<Step>, k: nat, d: set<int>)
    requires k < |steps| && |states| == |steps| + 1
    requires steps[k].Raise? && forall i | k < i < |steps| :: Quiet(steps[i])
    ensures LeftAlone(states, steps, k, d)
  {}

  lemma QuietFindsAll(states: seq<State>, steps: seq<Step>, k: nat, b: int)
    requires IsRun(states, steps) && |states| == |steps| + 1 && states[|states|-1].phase == Scavenged
    requires k < |steps| && steps[k] == Raise(false) && forall i | k < i < |steps| :: Quiet(steps[i])
    requires b in states[k].blocks && !Reachable(states[k], b)
    ensures b in states[|states|-1].garbage
  {
    StateOfRun(states, steps, k);
    var d := Unreachable(states[k]);
    assert b in d;
    hide IsRun, Inv, Enabled, Reachable, Forgotten, LeftAlone, Unreachable;
    UnreachableIsForgotten(states[k]);
    QuietLeavesAlone(states, steps, k, d);
    ForgottenIsGarbage(states, steps, k, d);
  }

  lemma QuietFindsOnly(states: seq<State>, steps: seq<Step>, k: nat, b: int)
    requires IsRun(states, steps) && |states| == |steps| + 1 && states[|states|-1].phase == Scavenged
    requires k < |steps| && steps[k] == Raise(false) && forall i | k < i < |steps| :: Quiet(steps[i])
    requires b in states[|states|-1].garbage
    ensures b in states[k].blocks && !Reachable(states[k], b)
  {
    hide IsRun, Reachable, Quiet;
    RunKeepsGraph(states, steps, k, |steps|);
    GarbageIsUnmarked(states, steps, b);
    if Reachable(states[k], b) {
      ReachableStill(states[k], states[|steps|], b);
      ReachableIsNotGarbage(states, steps, b);
    }
  }

  /** A full collection without interference, and without stacks and retained blocks: when the garbage
      list is complete, exactly the blocks that could not be reached when it began are on it, however
      often the scan stack has overflowed. */
  lemma QuietIsExact(states: seq<State>, steps: seq<Step>, k: nat, b: int)
    requires IsRun(states, steps) && states[|states|-1].phase == Scavenged
    requires k < |steps| && steps[k] == Raise(false) && forall i | k < i < |steps| :: Quiet(steps[i])
    ensures k < |states| && (b in states[|states|-1].garbage <==> b in states[k].blocks && !Reachable(states[k], b))
  {
    RunLength(states, steps);
    hide IsRun, Reachable, Quiet;
    if b in states[|states|-1].garbage {
      QuietFindsOnly(states, steps, k, b);
    } else if b in states[k].blocks && !Reachable(states[k], b) {
      QuietFindsAll(states, steps, k, b);
    }
  }
}
