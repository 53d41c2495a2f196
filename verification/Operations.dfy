/**
 The operations of a mutator as wholes: run without interruption, the steps of a thread add up to the
 store, the registration, the association or the allocation that was asked for, together with what
 the collector has to be told about it.
 */
module Operations {
  import opened Enlivening
  import Heap

  /** The steps lead from s to u. */
  ghost predicate Leads(s: State, steps: seq<Step>, u: State)
    decreases |steps|
  {
    if steps == [] then s == u
    else Enabled(s, steps[0]) && Leads(Apply(s, steps[0]), steps[1..], u)
  }

  lemma {:induction false} OneMore(s: State, step: Step, m: State, steps: seq<Step>, u: State)
    requires Enabled(s, step) && m == Apply(s, step) && Leads(m, steps, u)
    ensures Leads(s, [step] + steps, u)
  {
    hide Enabled, Apply;
    assert ([step] + steps)[1..] == steps;
  }

  lemma {:induction false} Stays(s: State)
    ensures Leads(s, [], s)
  {}

  /** Thread t takes n steps. */
  ghost function Advances(t: Tid, n: nat): (steps: seq<Step>)
    ensures |steps| == n
  {
    if n == 0 then [] else [Advance(t)] + Advances(t, n - 1)
  }

  lemma AdvanceOnce(s: State, m: State, t: Tid, n: nat, u: State)
    requires n > 0 && Enabled(s, Advance(t)) && m == Advanced(s, t) && Leads(m, Advances(t, n - 1), u)
    ensures Leads(s, Advances(t, n), u)
  {
    hide Enabled, Advanced, Leads;
    OneMore(s, Advance(t), m, Advances(t, n - 1), u);
  }

  /** Thread t is where pc says. */
  ghost function At(s: State, t: Tid, pc: Pc): (u: State) {
    s.(pcs := s.pcs[t := pc])
  }

  /** Thread t has let go of the lock and is outside all operations. */
  ghost function Ended(s: State, t: Tid): (u: State) {
    s.(lock := Unlocked, pcs := s.pcs[t := Running])
  }

  lemma EndsAlike(s: State, t: Tid, pc: Pc)
    ensures Ended(At(s, t, pc), t) == Ended(s, t) && At(At(s, t, pc), t, Running) == At(s, t, Running)
  {
    assert s.pcs[t := pc][t := Running] == s.pcs[t := Running];
  }

  ghost function Written(s: State, w: int, v: int): (u: State) {
    s.(mem := s.mem[w := v])
  }

  ghost function Registered(s: State, r: int): (u: State) {
    s.(roots := s.roots + {r})
  }

  ghost function Tied(s: State, owner: int, key: int, v: int): (u: State) {
    s.(assoc := s.assoc[(owner, key) := v])
  }

  ghost function Carded(s: State, w: int): (u: State) {
    s.(cards := s.cards + {w / Heap.CARD_WORDS})
  }

  /** The collector is told of v if a collection runs. */
  ghost function Told(s: State, v: int): (u: State) {
    if s.needs then s.(queue := s.queue + {v}) else s
  }

  /** The collector is told of v unless it has marked it. */
  ghost function ToldIfWhite(s: State, v: int): (u: State) {
    if v in s.marked then s else Told(s, v)
  }

  /** There is a new block b, which counts as published while the flag is up. */
  ghost function WithBlock(s: State, b: int, words: set<int>): (u: State) {
    var u := s.(blocks := s.blocks[b := words], aged := s.aged - {b});
    if s.needs then u.(published := s.published + {b}, everPublished := s.everPublished + {b}) else u
  }

  // ----- from each point of an operation to its end -----

  lemma Releases(s: State, t: Tid)
    requires t in s.pcs && s.pcs[t] == Releasing
    ensures Leads(s, Advances(t, 1), Ended(s, t))
  {
    Stays(Ended(s, t));
    hide Leads;
    AdvanceOnce(s, Ended(s, t), t, 1, Ended(s, t));
  }

  lemma FromStoreWritten(s: State, t: Tid, w: int, v: int)
    requires t in s.pcs && s.pcs[t] == StoreWritten(w, v)
    ensures Leads(s, Advances(t, 2), Ended(Carded(s, w), t))
  {
    hide Leads, Advances;
    var m := At(Carded(s, w), t, Releasing);
    Releases(m, t);
    EndsAlike(Carded(s, w), t, Releasing);
    AdvanceOnce(s, m, t, 2, Ended(Carded(s, w), t));
  }

  lemma FromStoreQueued(s: State, t: Tid, w: int, v: int)
    requires t in s.pcs && s.pcs[t] == StoreQueued(w, v)
    ensures Leads(s, Advances(t, 3), Ended(Carded(Written(s, w, v), w), t))
  {
    hide Leads, Advances;
    var m := At(Written(s, w, v), t, StoreWritten(w, v));
    FromStoreWritten(m, t, w, v);
    EndsAlike(Carded(Written(s, w, v), w), t, StoreWritten(w, v));
    AdvanceOnce(s, m, t, 3, Ended(Carded(Written(s, w, v), w), t));
  }

  lemma FromStoreLockedStep(s: State, t: Tid, w: int, v: int)
    requires t in s.pcs && s.pcs[t] == StoreLocked(w, v)
    ensures Enabled(s, Advance(t)) && Advanced(s, t) == At(ToldIfWhite(s, v), t, StoreQueued(w, v))
  {}

  lemma FromStoreLocked(s: State, t: Tid, w: int, v: int)
    requires t in s.pcs && s.pcs[t] == StoreLocked(w, v)
    ensures Leads(s, Advances(t, 4), Ended(Carded(Written(ToldIfWhite(s, v), w, v), w), t))
  {
    hide Leads, Advances, Enabled, Advanced;
    FromStoreLockedStep(s, t, w, v);
    var m := At(ToldIfWhite(s, v), t, StoreQueued(w, v));
    FromStoreQueued(m, t, w, v);
    EndsAlike(Carded(Written(ToldIfWhite(s, v), w, v), w), t, StoreQueued(w, v));
    AdvanceOnce(s, m, t, 4, Ended(Carded(Written(ToldIfWhite(s, v), w, v), w), t));
  }

  lemma FromRootQueued(s: State, t: Tid, r: int, v: int)
    requires t in s.pcs && s.pcs[t] == RootQueued(r, v)
    ensures Leads(s, Advances(t, 2), Ended(Written(s, r, v), t))
  {
    hide Leads, Advances;
    var m := At(Written(s, r, v), t, Releasing);
    Releases(m, t);
    EndsAlike(Written(s, r, v), t, Releasing);
    AdvanceOnce(s, m, t, 2, Ended(Written(s, r, v), t));
  }

  lemma FromRootInsertedStep(s: State, t: Tid, r: int, v: int)
    requires t in s.pcs && s.pcs[t] == RootInserted(r, v)
    ensures Enabled(s, Advance(t)) && Advanced(s, t) == At(ToldIfWhite(s, v), t, RootQueued(r, v))
  {}

  lemma FromRootInserted(s: State, t: Tid, r: int, v: int)
    requires t in s.pcs && s.pcs[t] == RootInserted(r, v)
    ensures Leads(s, Advances(t, 3), Ended(Written(ToldIfWhite(s, v), r, v), t))
  {
    hide Leads, Advances, Enabled, Advanced;
    FromRootInsertedStep(s, t, r, v);
    var m := At(ToldIfWhite(s, v), t, RootQueued(r, v));
    FromRootQueued(m, t, r, v);
    EndsAlike(Written(ToldIfWhite(s, v), r, v), t, RootQueued(r, v));
    AdvanceOnce(s, m, t, 3, Ended(Written(ToldIfWhite(s, v), r, v), t));
  }

  lemma FromRootLockedStep(s: State, t: Tid, r: int, v: int)
    requires t in s.pcs && s.pcs[t] == RootLocked(r, v)
    ensures Enabled(s, Advance(t)) && Advanced(s, t) == At(Registered(s, r), t, RootInserted(r, v))
  {}

  lemma FromRootLocked(s: State, t: Tid, r: int, v: int)
    requires t in s.pcs && s.pcs[t] == RootLocked(r, v)
    ensures Leads(s, Advances(t, 4), Ended(Written(ToldIfWhite(Registered(s, r), v), r, v), t))
  {
    hide Leads, Advances, Enabled, Advanced;
    FromRootLockedStep(s, t, r, v);
    var m := At(Registered(s, r), t, RootInserted(r, v));
    FromRootInserted(m, t, r, v);
    EndsAlike(Written(ToldIfWhite(Registered(s, r), v), r, v), t, RootInserted(r, v));
    AdvanceOnce(s, m, t, 4, Ended(Written(ToldIfWhite(Registered(s, r), v), r, v), t));
  }

  lemma FromAssocStored(s: State, t: Tid, v: int)
    requires t in s.pcs && s.pcs[t] == AssocStored(v)
    ensures Leads(s, Advances(t, 2), Ended(Told(s, v), t))
  {
    hide Leads, Advances;
    var m := At(Told(s, v), t, Releasing);
    Releases(m, t);
    EndsAlike(Told(s, v), t, Releasing);
    AdvanceOnce(s, m, t, 2, Ended(Told(s, v), t));
  }

  lemma FromAssocLocked(s: State, t: Tid, owner: int, key: int, v: int)
    requires t in s.pcs && s.pcs[t] == AssocLocked(owner, key, v)
    ensures Leads(s, Advances(t, 3), Ended(Told(Tied(s, owner, key, v), v), t))
  {
    hide Leads, Advances;
    var m := At(Tied(s, owner, key, v), t, AssocStored(v));
    FromAssocStored(m, t, v);
    EndsAlike(Told(Tied(s, owner, key, v), v), t, AssocStored(v));
    AdvanceOnce(s, m, t, 3, Ended(Told(Tied(s, owner, key, v), v), t));
  }

  lemma FromAllocUnguarded(s: State, t: Tid, b: int, words: set<int>)
    requires t in s.pcs && s.pcs[t] == AllocUnguarded(b, words) && b !in s.blocks && !s.needs
    ensures Leads(s, Advances(t, 1), At(WithBlock(s, b, words), t, Running))
  {
    var u := At(WithBlock(s, b, words), t, Running);
    Stays(u);
    hide Leads;
    AdvanceOnce(s, u, t, 1, u);
  }

  lemma FromAllocRead(s: State, t: Tid, b: int, words: set<int>)
    requires t in s.pcs && s.pcs[t] == AllocRead(b, words, false) && b !in s.blocks && !s.needs
    ensures Leads(s, Advances(t, 2), At(WithBlock(s, b, words), t, Running))
  {
    hide Leads, Advances;
    var m := At(s, t, AllocUnguarded(b, words));
    FromAllocUnguarded(m, t, b, words);
    EndsAlike(WithBlock(s, b, words), t, AllocUnguarded(b, words));
    AdvanceOnce(s, m, t, 2, At(WithBlock(s, b, words), t, Running));
  }

  lemma FromAllocLocked(s: State, t: Tid, b: int, words: set<int>)
    requires t in s.pcs && s.pcs[t] == AllocLocked(b, words) && b !in s.blocks && !s.needs
    ensures Leads(s, Advances(t, 3), At(WithBlock(s, b, words), t, Running))
  {
    hide Leads, Advances;
    var m := At(s, t, AllocRead(b, words, false));
    FromAllocRead(m, t, b, words);
    EndsAlike(WithBlock(s, b, words), t, AllocRead(b, words, false));
    AdvanceOnce(s, m, t, 3, At(WithBlock(s, b, words), t, Running));
  }

  lemma FromAllocPublished(s: State, t: Tid, b: int)
    requires t in s.pcs && s.pcs[t] == AllocPublished(b)
    ensures Leads(s, Advances(t, 2), Ended(s.(queue := s.queue + {b}), t))
  {
    hide Leads, Advances;
    var m := At(s.(queue := s.queue + {b}), t, Releasing);
    Releases(m, t);
    EndsAlike(s.(queue := s.queue + {b}), t, Releasing);
    AdvanceOnce(s, m, t, 2, Ended(s.(queue := s.queue + {b}), t));
  }

  lemma FromAllocChecked(s: State, t: Tid, b: int, words: set<int>)
    requires t in s.pcs && s.pcs[t] == AllocChecked(b, words) && b !in s.blocks && s.needs
    ensures Leads(s, Advances(t, 3), Ended(Told(WithBlock(s, b, words), b), t))
  {
    hide Leads, Advances;
    var m := At(WithBlock(s, b, words), t, AllocPublished(b));
    FromAllocPublished(m, t, b);
    EndsAlike(Told(WithBlock(s, b, words), b), t, AllocPublished(b));
    AdvanceOnce(s, m, t, 3, Ended(Told(WithBlock(s, b, words), b), t));
  }

  lemma FromAllocSeen(s: State, t: Tid, b: int, words: set<int>)
    requires t in s.pcs && s.pcs[t] == AllocRead(b, words, true) && b !in s.blocks
             && s.needs && s.lock == Unlocked
    ensures Leads(s, Advances(t, 4), Ended(Told(WithBlock(s, b, words), b), t))
  {
    hide Leads, Advances;
    var m := At(s.(lock := ByThread(t)), t, AllocChecked(b, words));
    FromAllocChecked(m, t, b, words);
    EndsAlike(Told(WithBlock(s, b, words), b), t, AllocChecked(b, words));
    AdvanceOnce(s, m, t, 4, Ended(Told(WithBlock(s, b, words), b), t));
  }

  lemma FromAllocGuarded(s: State, t: Tid, b: int, words: set<int>)
    requires t in s.pcs && s.pcs[t] == AllocLocked(b, words) && b !in s.blocks
             && s.needs && s.lock == Unlocked
    ensures Leads(s, Advances(t, 5), Ended(Told(WithBlock(s, b, words), b), t))
  {
    hide Leads, Advances;
    var m := At(s, t, AllocRead(b, words, true));
    FromAllocSeen(m, t, b, words);
    EndsAlike(Told(WithBlock(s, b, words), b), t, AllocRead(b, words, true));
    AdvanceOnce(s, m, t, 5, Ended(Told(WithBlock(s, b, words), b), t));
  }

  // ----- whole operations -----

  lemma StoreBegins(s: State, t: Tid, w: int, v: int)
    requires Enabled(s, AcquireForStore(t, w, v))
    ensures Apply(s, AcquireForStore(t, w, v)) == At(s.(lock := ByThread(t)), t, StoreLocked(w, v))
  {}

  /** A barriered store writes the word and marks its card, and the collector hears of the value unless
      it has marked it. */
  lemma StoreRuns(s: State, t: Tid, w: int, v: int)
    requires Enabled(s, AcquireForStore(t, w, v))
    ensures Leads(s, [AcquireForStore(t, w, v)] + Advances(t, 4),
                  Ended(Carded(Written(ToldIfWhite(s, v), w, v), w), t))
  {
    hide Leads, Advances, Enabled, Apply;
    StoreBegins(s, t, w, v);
    var m := At(s.(lock := ByThread(t)), t, StoreLocked(w, v));
    FromStoreLocked(m, t, w, v);
    EndsAlike(Carded(Written(ToldIfWhite(s, v), w, v), w), t, StoreLocked(w, v));
    OneMore(s, AcquireForStore(t, w, v), m, Advances(t, 4), Ended(Carded(Written(ToldIfWhite(s, v), w, v), w), t));
  }

  lemma RootBegins(s: State, t: Tid, r: int, v: int)
    requires Enabled(s, AcquireForRoot(t, r, v))
    ensures Apply(s, AcquireForRoot(t, r, v)) == At(s.(lock := ByThread(t)), t, RootLocked(r, v))
  {}

  /** Registering a root makes it one, stores to it without a card, and announces the value likewise. */
  lemma RootRuns(s: State, t: Tid, r: int, v: int)
    requires Enabled(s, AcquireForRoot(t, r, v))
    ensures Leads(s, [AcquireForRoot(t, r, v)] + Advances(t, 4),
                  Ended(Written(ToldIfWhite(Registered(s, r), v), r, v), t))
  {
    hide Leads, Advances, Enabled, Apply;
    RootBegins(s, t, r, v);
    var m := At(s.(lock := ByThread(t)), t, RootLocked(r, v));
    FromRootLocked(m, t, r, v);
    EndsAlike(Written(ToldIfWhite(Registered(s, r), v), r, v), t, RootLocked(r, v));
    OneMore(s, AcquireForRoot(t, r, v), m, Advances(t, 4), Ended(Written(ToldIfWhite(Registered(s, r), v), r, v), t));
  }

  /** Setting an association announces the value whether or not it is marked. */
  lemma AssociationRuns(s: State, t: Tid, owner: int, key: int, v: int)
    requires Enabled(s, AcquireForAssoc(t, owner, key, v))
    ensures Leads(s, [AcquireForAssoc(t, owner, key, v)] + Advances(t, 3),
                  Ended(Told(Tied(s, owner, key, v), v), t))
  {
    hide Leads, Advances;
    var m := At(s.(lock := ByThread(t)), t, AssocLocked(owner, key, v));
    FromAssocLocked(m, t, owner, key, v);
    EndsAlike(Told(Tied(s, owner, key, v), v), t, AssocLocked(owner, key, v));
    OneMore(s, AcquireForAssoc(t, owner, key, v), m, Advances(t, 3), Ended(Told(Tied(s, owner, key, v), v), t));
  }

  /** An allocation while the flag is down publishes the block and takes no enlivening lock. */
  lemma AllocationRuns(s: State, t: Tid, b: int, words: set<int>)
    requires Enabled(s, BeginAllocate(t, b, words)) && b !in s.blocks && !s.needs
    ensures Leads(s, [BeginAllocate(t, b, words)] + Advances(t, 3),
                  At(WithBlock(s, b, words), t, Running))
  {
    hide Leads, Advances;
    var m := At(s, t, AllocLocked(b, words));
    FromAllocLocked(m, t, b, words);
    EndsAlike(WithBlock(s, b, words), t, AllocLocked(b, words));
    OneMore(s, BeginAllocate(t, b, words), m, Advances(t, 3), At(WithBlock(s, b, words), t, Running));
  }

  /** An allocation while the flag is up also announces the block, which counts as published since. */
  lemma GuardedAllocationRuns(s: State, t: Tid, b: int, words: set<int>)
    requires Enabled(s, BeginAllocate(t, b, words)) && b !in s.blocks
             && s.needs && s.lock == Unlocked
    ensures Leads(s, [BeginAllocate(t, b, words)] + Advances(t, 5),
                  Ended(Told(WithBlock(s, b, words), b), t))
  {
    hide Leads, Advances;
    var m := At(s, t, AllocLocked(b, words));
    FromAllocGuarded(m, t, b, words);
    EndsAlike(Told(WithBlock(s, b, words), b), t, AllocLocked(b, words));
    OneMore(s, BeginAllocate(t, b, words), m, Advances(t, 5), Ended(Told(WithBlock(s, b, words), b), t));
  }
}
