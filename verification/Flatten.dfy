/**
 Flattening of arrays that may share and contain one another: an iterative walk with an explicit
 stack and a memo of the arrays that are open, against the recursive definition.
 */
module Flatten {

  datatype Value = Atom(x: int) | Arr(id: nat)

  /** The arrays: contents by identity. */
  type Arrays = map<nat, seq<Value>>

  datatype Outcome = Flat(values: seq<Value>, expanded: bool) | RecursiveArray

  /** All arrays that are mentioned exist. */
  ghost predicate Closed(g: Arrays) {
    forall id, v | id in g && v in g[id] && v.Arr? :: v.id in g
  }

  /** Arrays are expanded down to the given level, or all the way if it is negative. */
  predicate Expands(v: Value, level: int, depth: int) {
    v.Arr? && !(level >= 0 && depth >= level)
  }

  function Then(a: Outcome, b: Outcome): (c: Outcome) {
    if a.RecursiveArray? || b.RecursiveArray? then RecursiveArray
    else Flat(a.values + b.values, a.expanded || b.expanded)
  }

  lemma ThenAssociative(a: Outcome, b: Outcome, c: Outcome)
    ensures Then(Then(a, b), c) == Then(a, Then(b, c))
  {
    if a.Flat? && b.Flat? && c.Flat? {
      assert (a.values + b.values) + c.values == a.values + (b.values + c.values);
    }
  }

  ghost function Left(g: Arrays, open: set<nat>): (n: nat) {
    |g.Keys - open|
  }

  lemma OpenOne(g: Arrays, open: set<nat>, id: nat)
    requires id in g && id !in open
    ensures Left(g, open + {id}) < Left(g, open)
  {
    assert g.Keys - open == (g.Keys - (open + {id})) + {id};
  }

  /** The recursive definition: elements from left to right, the arrays in open may not be entered again. */
  ghost function Flattened(g: Arrays, s: seq<Value>, level: int, depth: nat, open: set<nat>): (r: Outcome)
    requires Closed(g) && forall v | v in s && v.Arr? :: v.id in g
    decreases Left(g, open), |s|
  {
    if s == [] then Flat([], false)
    else
      var rest := Flattened(g, s[1..], level, depth, open);
      if !Expands(s[0], level, depth) then Then(Flat([s[0]], false), rest)
      else if s[0].id in open then RecursiveArray
      else
        OpenOne(g, open, s[0].id);
        Then(Then(Flat([], true), Flattened(g, g[s[0].id], level, depth + 1, open + {s[0].id})), rest)
  }

  // ----- what is left to do -----

  /** Steps of the walk over s. */
  ghost function Work(g: Arrays, s: seq<Value>, level: int, depth: nat, open: set<nat>): (n: nat)
    requires Closed(g) && forall v | v in s && v.Arr? :: v.id in g
    ensures n > 0
    decreases Left(g, open), |s|
  {
    if s == [] then 1
    else
      var rest := Work(g, s[1..], level, depth, open);
      if !Expands(s[0], level, depth) || s[0].id in open then 1 + rest
      else
        OpenOne(g, open, s[0].id);
        1 + Work(g, g[s[0].id], level, depth + 1, open + {s[0].id}) + rest
  }

  /** An interrupted array and the position to go on from. */
  datatype Frame = Frame(id: nat, i: nat)

  ghost function Ids(stack: seq<Frame>): (s: set<nat>) {
    if stack == [] then {} else Ids(stack[..|stack|-1]) + {stack[|stack|-1].id}
  }

  /** Position i of array id, entered from the frames of the stack; all these arrays are different. */
  ghost predicate On(g: Arrays, stack: seq<Frame>, id: nat, i: nat) {
    && id in g && i <= |g[id]| && id !in Ids(stack)
    && (stack == [] || On(g, stack[..|stack|-1], stack[|stack|-1].id, stack[|stack|-1].i))
  }

  /** The outcome of what remains: the current array first, then the ones it was entered from. */
  ghost function Remaining(g: Arrays, stack: seq<Frame>, id: nat, i: nat, level: int): (r: Outcome)
    requires Closed(g) && On(g, stack, id, i)
    decreases |stack|
  {
    Then(Flattened(g, g[id][i..], level, |stack|, Ids(stack) + {id}), Below(g, stack, level))
  }

  ghost function Below(g: Arrays, stack: seq<Frame>, level: int): (r: Outcome)
    requires Closed(g) && (stack == [] || On(g, stack[..|stack|-1], stack[|stack|-1].id, stack[|stack|-1].i))
    decreases |stack|, 0
  {
    if stack == [] then Flat([], false)
    else Remaining(g, stack[..|stack|-1], stack[|stack|-1].id, stack[|stack|-1].i, level)
  }

  ghost function RemainingWork(g: Arrays, stack: seq<Frame>, id: nat, i: nat, level: int): (n: nat)
    requires Closed(g) && On(g, stack, id, i)
    decreases |stack|
  {
    var work := Work(g, g[id][i..], level, |stack|, Ids(stack) + {id});
    if stack == [] then work
    else work + RemainingWork(g, stack[..|stack|-1], stack[|stack|-1].id, stack[|stack|-1].i, level)
  }

  lemma MoveOn(g: Arrays, stack: seq<Frame>, id: nat, i: nat, level: int)
    requires Closed(g) && On(g, stack, id, i) && i < |g[id]| && !Expands(g[id][i], level, |stack|)
    ensures On(g, stack, id, i + 1)
    ensures Remaining(g, stack, id, i, level) == Then(Flat([g[id][i]], false), Remaining(g, stack, id, i + 1, level))
    ensures RemainingWork(g, stack, id, i, level) == 1 + RemainingWork(g, stack, id, i + 1, level)
  {
    assert g[id][i..][1..] == g[id][i + 1..];
    ThenAssociative(Flat([g[id][i]], false), Flattened(g, g[id][i + 1..], level, |stack|, Ids(stack) + {id}),
                      Below(g, stack, level));
  }

  lemma Enter(g: Arrays, stack: seq<Frame>, id: nat, i: nat, level: int)
    requires Closed(g) && On(g, stack, id, i) && i < |g[id]| && Expands(g[id][i], level, |stack|)
    requires g[id][i].id !in Ids(stack) + {id}
    ensures
      var top, inner := stack + [Frame(id, i + 1)], g[id][i].id;
      && On(g, top, inner, 0) && Ids(top) == Ids(stack) + {id}
      && Remaining(g, stack, id, i, level) == Then(Flat([], true), Remaining(g, top, inner, 0, level))
      && RemainingWork(g, stack, id, i, level) == 1 + RemainingWork(g, top, inner, 0, level)
  {
    var top, inner, open := stack + [Frame(id, i + 1)], g[id][i].id, Ids(stack) + {id};
    assert top[..|top|-1] == stack && g[id][i..][1..] == g[id][i + 1..] && g[inner][0..] == g[inner];
    OpenOne(g, open, inner);
    EnteredBelow(g, stack, id, i + 1, level);
    var a := Flattened(g, g[inner], level, |stack| + 1, open + {inner});
    var b := Flattened(g, g[id][i + 1..], level, |stack|, open);
    var c := Below(g, stack, level);
    hide Then;
    ThenAssociative(Flat([], true), a, b);
    ThenAssociative(Flat([], true), Then(a, b), c);
    ThenAssociative(a, b, c);
  }

  lemma EnteredBelow(g: Arrays, stack: seq<Frame>, id: nat, i: nat, level: int)
    requires Closed(g) && On(g, stack, id, i)
    ensures
      var top := stack + [Frame(id, i)];
      top[..|top|-1] == stack && Below(g, top, level) == Remaining(g, stack, id, i, level)
  {
    var top := stack + [Frame(id, i)];
    assert top[..|top|-1] == stack && top[|top|-1] == Frame(id, i);
  }

  lemma Refuse(g: Arrays, stack: seq<Frame>, id: nat, i: nat, level: int)
    requires Closed(g) && On(g, stack, id, i) && i < |g[id]| && Expands(g[id][i], level, |stack|)
    requires g[id][i].id in Ids(stack) + {id}
    ensures Remaining(g, stack, id, i, level).RecursiveArray?
  {}

  lemma Leave(g: Arrays, stack: seq<Frame>, id: nat, i: nat, level: int)
    requires Closed(g) && On(g, stack, id, i) && i == |g[id]|
    ensures Remaining(g, stack, id, i, level) == Below(g, stack, level)
    ensures stack != [] ==>
              var top := stack[|stack|-1];
              RemainingWork(g, stack[..|stack|-1], top.id, top.i, level) < RemainingWork(g, stack, id, i, level)
    ensures Ids(stack) == Ids(stack) + {id} - {id}
  {
    assert g[id][i..] == [];
  }

  /** The walk. It ends on every graph, and its outcome is that of the recursive definition. */
  method FlattenArray(g: Arrays, root: nat, level: int) returns (r: Outcome)
    requires Closed(g) && root in g
    ensures r == Flattened(g, g[root], level, 0, {root})
  {
    var ary, modified, result := root, false, [];
    var i: nat := 0;
    var stack: seq<Frame> := [];
    var memo := {root};
    ghost var goal := Flattened(g, g[root], level, 0, {root});
    Begin(g, root, level);
    hide Flattened, Remaining, Work, RemainingWork, Then;
    while true
      invariant On(g, stack, ary, i) && memo == Ids(stack) + {ary}
      invariant goal == Then(Flat(result, modified), Remaining(g, stack, ary, i, level))
      decreases RemainingWork(g, stack, ary, i, level)
    {
      ghost var work := RemainingWork(g, stack, ary, i, level);
      while i < |g[ary]|
        invariant On(g, stack, ary, i) && memo == Ids(stack) + {ary}
        invariant goal == Then(Flat(result, modified), Remaining(g, stack, ary, i, level))
        invariant RemainingWork(g, stack, ary, i, level) <= work
        decreases RemainingWork(g, stack, ary, i, level)
      {
        var elt := g[ary][i];
        if !elt.Arr? || (level >= 0 && |stack| >= level) {
          MoveOn(g, stack, ary, i, level);
          Absorb(result, modified, [elt], false, Remaining(g, stack, ary, i + 1, level));
          result := result + [elt];
          i := i + 1;
        } else {
          if elt.id in memo {
            Refuse(g, stack, ary, i, level);
            Fails(result, modified, Remaining(g, stack, ary, i, level));
            return RecursiveArray;
          }
          Enter(g, stack, ary, i, level);
          Absorb(result, modified, [], true, Remaining(g, stack + [Frame(ary, i + 1)], elt.id, 0, level));
          assert result + [] == result;
          modified := true;
          memo := memo + {elt.id};
          stack := stack + [Frame(ary, i + 1)];
          ary, i := elt.id, 0;
        }
      }
      Leave(g, stack, ary, i, level);
      if |stack| == 0 {
        Finish(result, modified);
        return Flat(result, modified);
      }
      memo := memo - {ary};
      stack, ary, i := stack[..|stack|-1], stack[|stack|-1].id, stack[|stack|-1].i;
    }
  }

  lemma Begin(g: Arrays, root: nat, level: int)
    requires Closed(g) && root in g
    ensures On(g, [], root, 0) && Ids([]) + {root} == {root}
    ensures Then(Flat([], false), Remaining(g, [], root, 0, level)) == Flattened(g, g[root], level, 0, {root})
  {
    assert g[root][0..] == g[root] && Ids([]) + {root} == {root};
    AloneIsItself(Flattened(g, g[root], level, 0, {root}));
  }

  lemma Absorb(result: seq<Value>, modified: bool, more: seq<Value>, now: bool, rest: Outcome)
    ensures Then(Flat(result, modified), Then(Flat(more, now), rest))
            == Then(Flat(result + more, modified || now), rest)
  {
    ThenAssociative(Flat(result, modified), Flat(more, now), rest);
  }

  lemma Fails(result: seq<Value>, modified: bool, rest: Outcome)
    requires rest.RecursiveArray?
    ensures Then(Flat(result, modified), rest) == RecursiveArray
  {}

  lemma Finish(result: seq<Value>, modified: bool)
    ensures Then(Flat(result, modified), Flat([], false)) == Flat(result, modified)
  {}

  lemma AloneIsItself(a: Outcome)
    ensures Then(Flat([], false), Then(a, Flat([], false))) == a
  {
    if a.Flat? {
      assert [] + (a.values + []) == a.values;
    }
  }

  // ----- when it fails, and what it returns otherwise -----

  /** A way through arrays that are expanded, from an element of s to an array that is open or on the way already. */
  ghost predicate Reenters(g: Arrays, s: seq<Value>, level: int, depth: nat, open: set<nat>, way: seq<nat>) {
    && way != [] && Arr(way[0]) in s
    && (forall k | 0 <= k < |way| - 1 :: way[k] in g && Arr(way[k + 1]) in g[way[k]])
    && (level >= 0 ==> depth + |way| <= level)
    && (way[|way|-1] in open || exists k :: 0 <= k < |way| - 1 && way[k] == way[|way|-1])
  }

  /** An element whose expansion fails makes the whole fail. */
  lemma {:induction false} ElementFails(g: Arrays, s: seq<Value>, level: int, depth: nat, open: set<nat>, id: nat)
    requires Closed(g) && (forall v | v in s && v.Arr? :: v.id in g) && Arr(id) in s && Expands(Arr(id), level, depth)
    requires id in open || Flattened(g, g[id], level, depth + 1, open + {id}).RecursiveArray?
    ensures Flattened(g, s, level, depth, open).RecursiveArray?
  {
    if s[0] != Arr(id) {
      ElementFails(g, s[1..], level, depth, open, id);
    }
  }

  lemma {:induction false} ReentryFails(g: Arrays, s: seq<Value>, level: int, depth: nat, open: set<nat>, way: seq<nat>)
    requires Closed(g) && (forall v | v in s && v.Arr? :: v.id in g) && Reenters(g, s, level, depth, open, way)
    ensures Flattened(g, s, level, depth, open).RecursiveArray?
    decreases |way|
  {
    var id := way[0];
    if id !in open {
      var rest := way[1..];
      assert |way| > 1 && rest[0] == way[1];
      forall k | 0 <= k < |rest| - 1 ensures rest[k] in g && Arr(rest[k + 1]) in g[rest[k]] {
        assert way[k + 1] in g && Arr(way[k + 1 + 1]) in g[way[k + 1]];
      }
      assert rest[|rest|-1] in open + {id} || exists k :: 0 <= k < |rest| - 1 && rest[k] == rest[|rest|-1] by {
        if k :| 0 <= k < |way| - 1 && way[k] == way[|way|-1] {
          assert k > 0 ==> rest[k - 1] == rest[|rest|-1];
        }
      }
      ReentryFails(g, g[id], level, depth + 1, open + {id}, rest);
    }
    ElementFails(g, s, level, depth, open, id);
  }

  /** A way out of an expanded array is a way out of the sequence that holds it. */
  lemma WayLonger(g: Arrays, s: seq<Value>, level: int, depth: nat, open: set<nat>, rest: seq<nat>)
    requires s != [] && Expands(s[0], level, depth) && s[0].id !in open && s[0].id in g
    requires Reenters(g, g[s[0].id], level, depth + 1, open + {s[0].id}, rest)
    ensures Reenters(g, s, level, depth, open, [s[0].id] + rest)
  {
    var id, way := s[0].id, [s[0].id] + rest;
    forall k | 0 <= k < |way| - 1 ensures way[k] in g && Arr(way[k + 1]) in g[way[k]] {
      if k > 0 {
        assert rest[k - 1] in g && Arr(rest[k - 1 + 1]) in g[rest[k - 1]];
      }
    }
    if rest[|rest|-1] in open + {id} {
      assert way[0] == id;
    } else {
      var k :| 0 <= k < |rest| - 1 && rest[k] == rest[|rest|-1];
      assert way[k + 1] == way[|way|-1];
    }
  }

  lemma {:induction false} FailureReenters(g: Arrays, s: seq<Value>, level: int, depth: nat, open: set<nat>)
    returns (way: seq<nat>)
    requires Closed(g) && (forall v | v in s && v.Arr? :: v.id in g)
    requires Flattened(g, s, level, depth, open).RecursiveArray?
    ensures Reenters(g, s, level, depth, open, way)
    decreases Left(g, open), |s|
  {
    if Expands(s[0], level, depth) && s[0].id in open {
      way := [s[0].id];
    } else if Flattened(g, s[1..], level, depth, open).RecursiveArray? {
      way := FailureReenters(g, s[1..], level, depth, open);
    } else {
      var id := s[0].id;
      OpenOne(g, open, id);
      var rest := FailureReenters(g, g[id], level, depth + 1, open + {id});
      way := [id] + rest;
      WayLonger(g, s, level, depth, open, rest);
    }
  }

  /** Flattening fails exactly when some way through expanded arrays leads back to an array on it. */
  lemma FailsIffReentered(g: Arrays, root: nat, level: int)
    requires Closed(g) && root in g
    ensures Flattened(g, g[root], level, 0, {root}).RecursiveArray? <==>
              exists way :: Reenters(g, g[root], level, 0, {root}, way)
  {
    if Flattened(g, g[root], level, 0, {root}).RecursiveArray? {
      var way := FailureReenters(g, g[root], level, 0, {root});
    }
    if way :| Reenters(g, g[root], level, 0, {root}, way) {
      ReentryFails(g, g[root], level, 0, {root}, way);
    }
  }

  /** Without a level no array is left over. */
  lemma {:induction false} OnlyAtoms(g: Arrays, s: seq<Value>, depth: nat, open: set<nat>, level: int)
    requires Closed(g) && (forall v | v in s && v.Arr? :: v.id in g) && level < 0
    requires Flattened(g, s, level, depth, open).Flat?
    ensures forall v | v in Flattened(g, s, level, depth, open).values :: v.Atom?
    decreases Left(g, open), |s|
  {
    if s != [] {
      OnlyAtoms(g, s[1..], depth, open, level);
      if s[0].Arr? {
        OpenOne(g, open, s[0].id);
        OnlyAtoms(g, g[s[0].id], depth + 1, open + {s[0].id}, level);
      }
    }
  }

  /** The array counts as modified exactly when it contains an array and the level is not 0; otherwise the result
      is the array itself. */
  lemma {:induction false} ModifiedIff(g: Arrays, s: seq<Value>, level: int, depth: nat, open: set<nat>)
    requires Closed(g) && (forall v | v in s && v.Arr? :: v.id in g)
    requires Flattened(g, s, level, depth, open).Flat?
    ensures Flattened(g, s, level, depth, open).expanded <==> exists v :: v in s && Expands(v, level, depth)
    ensures !Flattened(g, s, level, depth, open).expanded ==> Flattened(g, s, level, depth, open).values == s
  {
    if s != [] {
      ModifiedIff(g, s[1..], level, depth, open);
      assert s == [s[0]] + s[1..];
    }
  }
}
