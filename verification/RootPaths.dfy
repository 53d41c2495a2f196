/**
 Paths in the graph of references that the root scanner builds: a breadth-first search with a queue
 that is linked through the nodes.
 */
module RootPaths {

  /** References: the nodes a node points to. Node 0 is no node. */
  type Edges = map<nat, seq<nat>>

  ghost predicate Closed(g: Edges) {
    0 !in g && forall u, v | u in g && v in g[u] :: v in g
  }

  /** w leads from a to b along references. */
  ghost predicate Walk(g: Edges, w: seq<nat>, a: nat, b: nat) {
    && |w| > 0 && w[0] == a && w[|w|-1] == b
    && forall i | 0 <= i < |w| - 1 :: Step(g, w[i], w[i + 1])
  }

  ghost predicate ShortestWalk(g: Edges, w: seq<nat>, a: nat, b: nat) {
    Walk(g, w, a, b) && forall v | Walk(g, v, a, b) :: |w| <= |v|
  }

  lemma ShortestReaches(g: Edges, w: seq<nat>, a: nat, b: nat)
    requires ShortestWalk(g, w, a, b)
    ensures Reachable(g, a, b)
  {}

  ghost predicate Step(g: Edges, u: nat, v: nat) {
    u in g && v in g[u]
  }

  ghost predicate Reachable(g: Edges, a: nat, b: nat) {
    exists w :: Walk(g, w, a, b)
  }

  class Queue {
    var head: nat
    var tail: nat
    var next: map<nat, nat>   // the links kept in the nodes
    ghost var items: seq<nat>

    ghost predicate Linked(i: int)
      requires 0 <= i < |items|
      reads this
    {
      items[i] in next && items[i] != 0 && next[items[i]] == if i + 1 < |items| then items[i + 1] else 0
    }

    ghost predicate Valid()
      reads this
    {
      && head == (if items == [] then 0 else items[0]) && tail == (if items == [] then 0 else items[|items|-1])
      && (forall i | 0 <= i < |items| :: Linked(i))
      && forall i, j | 0 <= i < j < |items| :: items[i] != items[j]
    }

    constructor ()
      ensures Valid() && items == [] && fresh(this)
    {
      head, tail, next, items := 0, 0, map[], [];
    }

    lemma Empty()
      requires Valid()
      ensures head == 0 <==> items == []
    {
      if items != [] {
        assert Linked(0);
      }
    }

    method Enqueue(node: nat)
      requires Valid() && node != 0 && node !in items
      modifies this
      ensures Valid() && items == old(items) + [node]
    {
      assert items != [] ==> Linked(|items| - 1);
      next := next[node := 0];
      if tail == 0 {
        head, tail := node, node;
      } else {
        next := next[tail := node];
        tail := node;
      }
      items := items + [node];
      forall i | 0 <= i < |items| ensures Linked(i) {
        assert i < |items| - 1 ==> old(Linked(i));
      }
    }

    method Dequeue() returns (node: nat)
      requires Valid()
      modifies this
      ensures Valid() && (node == 0 <==> old(items) == [])
      ensures node != 0 ==> node == old(items)[0] && items == old(items)[1..]
      ensures node == 0 ==> items == old(items)
    {
      node := head;
      assert items != [] ==> Linked(0);
      assert |items| > 1 ==> Linked(1);
      if head != 0 {
        head := next[head];
        if head == 0 {
          tail := 0;
        }
        items := items[1..];
        forall i | 0 <= i < |items| ensures Linked(i) {
          assert old(Linked(i + 1));
        }
      }
    }
  }

  /** The nodes visited so far form a tree; d is the number of steps to each from the start. */
  ghost predicate Tree(g: Edges, from: nat, visited: set<nat>, parent: map<nat, nat>, d: map<nat, nat>) {
    && d.Keys == visited && from in visited && d[from] == 0 && parent.Keys == g.Keys
    && (forall v | v in visited :: v in g && v in parent) && parent[from] == 0
    && forall v {:trigger Found(g, visited, parent, d, v)} | v in visited && v != from ::
         Found(g, visited, parent, d, v)
  }

  /** The queue holds nodes of at most two successive distances, the nearer ones first. */
  ghost predicate Sorted(d: map<nat, nat>, queue: seq<nat>, near: nat) {
    && (forall q | q in queue :: q in d && near <= d[q] <= near + 1)
    && forall i, j | 0 <= i < j < |queue| :: d[queue[i]] <= d[queue[j]]
  }

  /** Every visited node that is not waiting has been expanded, and is no farther than near. */
  ghost predicate AllExpanded(g: Edges, visited: set<nat>, d: map<nat, nat>, queue: seq<nat>, cur: nat, near: nat) {
    && d.Keys == visited
    && forall u {:trigger Done(g, visited, d, u, near)} | u in visited && u !in queue && u != cur ::
         Done(g, visited, d, u, near)
  }

  ghost predicate Done(g: Edges, visited: set<nat>, d: map<nat, nat>, u: nat, near: nat)
    requires u in d && d.Keys == visited
  {
    u in g && Expanded(g, visited, d, u, |g[u]|) && d[u] <= near
  }

  /** The search while cur is being expanded, of which the first done references have been followed. */
  ghost predicate Search(g: Edges, from: nat, visited: set<nat>, parent: map<nat, nat>, d: map<nat, nat>,
          queue: seq<nat>, cur: nat, done: int) {
    && Tree(g, from, visited, parent, d) && cur in visited && cur !in queue
    && Sorted(d, queue, d[cur]) && AllExpanded(g, visited, d, queue, cur, d[cur])
    && 0 <= done <= |g[cur]| && Expanded(g, visited, d, cur, done)
  }

  /** The search between two nodes. */
  ghost predicate Idle(g: Edges, from: nat, visited: set<nat>, parent: map<nat, nat>, d: map<nat, nat>,
          queue: seq<nat>, near: nat) {
    Tree(g, from, visited, parent, d) && Sorted(d, queue, near) && AllExpanded(g, visited, d, queue, 0, near)
    && (queue != [] ==> d[queue[0]] == near)
  }

  ghost predicate Found(g: Edges, visited: set<nat>, parent: map<nat, nat>, d: map<nat, nat>, v: nat)
    requires v in parent && v in d && d.Keys == visited
  {
    parent[v] in visited && Step(g, parent[v], v) && d[v] == d[parent[v]] + 1
  }

  ghost predicate Expanded(g: Edges, visited: set<nat>, d: map<nat, nat>, u: nat, done: int)
    requires u in g && u in d && d.Keys == visited && done <= |g[u]|
  {
    forall i | 0 <= i < done :: g[u][i] in visited && d[g[u][i]] <= d[u] + 1
  }

  /** A walk of at most d[cur] steps meets visited nodes only. */
  lemma {:induction false} NearIsVisited(g: Edges, from: nat, visited: set<nat>, parent: map<nat, nat>, d: map<nat,
          nat>, queue: seq<nat>, cur: nat, done: int, w: seq<nat>, b: nat)
    requires Search(g, from, visited, parent, d, queue, cur, done) && Walk(g, w, from, b) && |w| - 1 <= d[cur]
    ensures b in visited && d[b] <= |w| - 1
    decreases |w|
  {
    if |w| > 1 {
      var a := w[|w|-2];
      PrefixWalk(g, w, from, b);
      NearIsVisited(g, from, visited, parent, d, queue, cur, done, w[..|w|-1], a);
      assert a != cur && a !in queue && Done(g, visited, d, a, d[cur]);
      var i :| 0 <= i < |g[a]| && g[a][i] == b;
    }
  }

  lemma FoundIsFar(g: Edges, from: nat, visited: set<nat>, parent: map<nat, nat>, d: map<nat, nat>, queue: seq<nat>,
          cur: nat, done: int, b: nat)
    requires Search(g, from, visited, parent, d, queue, cur, done) && b !in visited
    ensures b != from && cur in d && forall w | Walk(g, w, from, b) :: |w| >= d[cur] + 2
  {
    forall w | Walk(g, w, from, b) ensures |w| >= d[cur] + 2 {
      if |w| - 1 <= d[cur] {
        NearIsVisited(g, from, visited, parent, d, queue, cur, done, w, b);
      }
    }
  }

  lemma PrefixWalk(g: Edges, w: seq<nat>, a: nat, b: nat)
    requires Walk(g, w, a, b) && |w| > 1
    ensures Walk(g, w[..|w|-1], a, w[|w|-2]) && Step(g, w[|w|-2], b)
  {
    var v := w[..|w|-1];
    forall i | 0 <= i < |v| - 1 ensures Step(g, v[i], v[i + 1]) {
      assert Step(g, w[i], w[i + 1]);
    }
    assert Step(g, w[|w|-2], w[|w|-2 + 1]);
  }

  /** When everything visited has been expanded, everything reachable has been visited. */
  lemma {:induction false} ReachedIsVisited(g: Edges, from: nat, visited: set<nat>, parent: map<nat, nat>, d: map<nat,
          nat>, near: nat, w: seq<nat>, b: nat)
    requires Closed(g) && Idle(g, from, visited, parent, d, [], near) && Walk(g, w, from, b)
    ensures b in visited
    decreases |w|
  {
    if |w| > 1 {
      var a := w[|w|-2];
      PrefixWalk(g, w, from, b);
      ReachedIsVisited(g, from, visited, parent, d, near, w[..|w|-1], a);
      assert a != 0 && Done(g, visited, d, a, near);
      var i :| 0 <= i < |g[a]| && g[a][i] == b;
    }
  }

  /** Taking the next node off the queue. */
  lemma TakeNext(g: Edges, from: nat, visited: set<nat>, parent: map<nat, nat>, d: map<nat, nat>, queue: seq<nat>,
          near: nat)
    requires Closed(g) && Idle(g, from, visited, parent, d, queue, near) && queue != []
    requires forall i, j | 0 <= i < j < |queue| :: queue[i] != queue[j]
    ensures Search(g, from, visited, parent, d, queue[1..], queue[0], 0)
  {
    var rest, c := queue[1..], queue[0];
    assert c in queue && forall q | q in rest :: q in queue && q != c;
    assert forall q | q in queue :: q == c || q in rest;
    forall u | u in visited && u !in rest && u != c ensures Done(g, visited, d, u, near) {
      assert u !in queue && u != 0;
    }
  }

  /** All references of cur have been followed. */
  lemma Finished(g: Edges, from: nat, visited: set<nat>, parent: map<nat, nat>, d: map<nat, nat>, queue: seq<nat>,
          cur: nat)
    requires Closed(g) && cur in g && Search(g, from, visited, parent, d, queue, cur, |g[cur]|)
    ensures Idle(g, from, visited, parent, d, queue, if queue == [] then d[cur] else d[queue[0]])
  {
    var near := if queue == [] then d[cur] else d[queue[0]];
    assert queue != [] ==> queue[0] in queue;
    forall u | u in visited && u !in queue ensures Done(g, visited, d, u, near) {
      assert u != cur ==> Done(g, visited, d, u, d[cur]);
    }
    forall q | q in queue ensures near <= d[q] <= near + 1 {
      var j :| 0 <= j < |queue| && queue[j] == q;
    }
  }

  /** Following a reference to a visited node. */
  lemma FollowSeen(g: Edges, from: nat, visited: set<nat>, parent: map<nat, nat>, d: map<nat, nat>, queue: seq<nat>,
          cur: nat, done: int)
    requires Search(g, from, visited, parent, d, queue, cur, done) && done < |g[cur]| && g[cur][done] in visited
    ensures Search(g, from, visited, parent, d, queue, cur, done + 1)
  {
    var child := g[cur][done];
    assert child == cur || child in queue || Done(g, visited, d, child, d[cur]);
  }

  lemma TreeGrows(g: Edges, from: nat, visited: set<nat>, parent: map<nat, nat>, d: map<nat, nat>, cur: nat, child: nat)
    requires Closed(g) && Tree(g, from, visited, parent, d) && cur in visited && child in g[cur] && child !in visited
    ensures Tree(g, from, visited + {child}, parent[child := cur], d[child := d[cur] + 1])
  {
    var visited1, parent1, d1 := visited + {child}, parent[child := cur], d[child := d[cur] + 1];
    assert child in g;
    forall v | v in visited1 && v != from ensures Found(g, visited1, parent1, d1, v) {
      if v != child {
        assert Found(g, visited, parent, d, v);
      }
    }
  }

  lemma ExpandedGrows(g: Edges, visited: set<nat>, d: map<nat, nat>, child: nat, n: nat, u: nat, done: int)
    requires u in g && u in d && d.Keys == visited && done <= |g[u]| && child !in visited
    requires Expanded(g, visited, d, u, done)
    ensures Expanded(g, visited + {child}, d[child := n], u, done)
  {}

  /** Following a reference to a new node. */
  lemma FollowNew(g: Edges, from: nat, visited: set<nat>, parent: map<nat, nat>, d: map<nat, nat>, queue: seq<nat>,
          cur: nat, done: int)
    requires Closed(g) && Search(g, from, visited, parent, d, queue, cur, done) && done < |g[cur]|
    requires g[cur][done] !in visited
    ensures
      var child := g[cur][done];
      Search(g, from, visited + {child}, parent[child := cur], d[child := d[cur] + 1], queue + [child], cur, done + 1)
  {
    var child := g[cur][done];
    var visited1, d1, queue1 := visited + {child}, d[child := d[cur] + 1], queue + [child];
    TreeGrows(g, from, visited, parent, d, cur, child);
    ExpandedGrows(g, visited, d, child, d[cur] + 1, cur, done);
    assert Expanded(g, visited1, d1, cur, done + 1);
    hide Tree, Expanded;
    assert Sorted(d1, queue1, d[cur]);
    forall u | u in visited1 && u !in queue1 && u != cur ensures Done(g, visited1, d1, u, d[cur]) {
      assert u in visited && u !in queue && child in queue1 && Done(g, visited, d, u, d[cur]);
      ExpandedGrows(g, visited, d, child, d[cur] + 1, u, |g[u]|);
    }
  }

  class Graph {
    var outgoing: Edges
    var visited: set<nat>
    var parent: map<nat, nat>

    ghost predicate IsReset()
      reads this
    {
      visited == {} && parent.Keys == outgoing.Keys && forall v | v in parent :: parent[v] == 0
    }

    constructor (outgoing: Edges)
      requires Closed(outgoing)
      ensures this.outgoing == outgoing && IsReset()
    {
      this.outgoing, visited := outgoing, {};
      parent := map v | v in outgoing :: 0;
    }

    method ResetNodes()
      requires parent.Keys == outgoing.Keys
      modifies this`visited, this`parent
      ensures IsReset()
    {
      visited := {};
      parent := map v | v in parent :: 0;
    }

    /** Lists a node and its ancestors. */
    method Ancestors(from: nat, to: nat, ghost d: map<nat, nat>) returns (path: seq<nat>)
      requires Closed(outgoing) && Tree(outgoing, from, visited, parent, d) && to in visited
      ensures |path| == d[to] + 1 && Walk(outgoing, Reversed(path), from, to)
    {
      var child := to;
      path := [];
      while child != 0
        invariant child != 0 ==> child in visited && |path| + d[child] == d[to]
        invariant child == 0 ==> |path| == d[to] + 1 && path[|path|-1] == from
        invariant path != [] ==> path[0] == to && (child != 0 ==> Step(outgoing, child, path[|path|-1]))
        invariant path == [] ==> child == to
        invariant forall i | 0 <= i < |path| - 1 :: Step(outgoing, path[i + 1], path[i])
        decreases if child != 0 then d[child] + 1 else 0
      {
        assert child != from ==> Found(outgoing, visited, parent, d, child);
        path := path + [child];
        child := parent[child];
      }
      var w := Reversed(path);
      forall i | 0 <= i < |w| - 1 ensures Step(outgoing, w[i], w[i + 1]) {
        assert Step(outgoing, path[|w| - 2 - i + 1], path[|w| - 2 - i]);
      }
    }

    /** Visits the nodes that a node refers to, until the one that is sought turns up. */
    method Expand(queue: Queue, from: nat, node: nat, to: nat, ghost d0: map<nat, nat>)
      returns (found: bool, path: seq<nat>, ghost d: map<nat, nat>)
      requires Closed(outgoing) && queue.Valid() && node in outgoing && (to in visited ==> to == from)
      requires Search(outgoing, from, visited, parent, d0, queue.items, node, 0)
      modifies queue, this`visited, this`parent
      ensures queue.Valid() && parent.Keys == outgoing.Keys && visited >= old(visited)
      ensures !found ==> Search(outgoing, from, visited, parent, d, queue.items, node, |outgoing[node]|)
      ensures !found ==> (to in visited ==> to == from)
      ensures !found ==> visited > old(visited) || (visited == old(visited) && queue.items == old(queue.items))
      ensures found ==> to != from && ShortestWalk(outgoing, Reversed(path), from, to)
    {
      hide Search, ShortestWalk, Closed, Queue.Valid;
      d, path, found := d0, [], false;
      var i := 0;
      while i < |outgoing[node]|
        invariant 0 <= i <= |outgoing[node]| && queue.Valid() && visited >= old(visited)
        invariant to in visited ==> to == from
        invariant Search(outgoing, from, visited, parent, d, queue.items, node, i)
        invariant visited > old(visited) || (visited == old(visited) && queue.items == old(queue.items))
      {
        var child := outgoing[node][i];
        SearchesNode(outgoing, from, visited, parent, d, queue.items, node, i);
        if child !in visited {
          found, path, d := VisitChild(queue, from, node, i, to, d);
          if found {
            return;
          }
        } else {
          FollowSeen(outgoing, from, visited, parent, d, queue.items, node, i);
        }
        i := i + 1;
      }
      SearchesNode(outgoing, from, visited, parent, d, queue.items, node, i);
    }

    /** Visits a new node: it is the one that is sought, or it has to wait. */
    method VisitChild(queue: Queue, from: nat, node: nat, i: nat, to: nat, ghost d0: map<nat, nat>)
      returns (found: bool, path: seq<nat>, ghost d: map<nat, nat>)
      requires Closed(outgoing) && queue.Valid() && node in outgoing && i < |outgoing[node]|
      requires outgoing[node][i] !in visited && (to in visited ==> to == from)
      requires Search(outgoing, from, visited, parent, d0, queue.items, node, i)
      modifies queue, this`visited, this`parent
      ensures queue.Valid() && parent.Keys == outgoing.Keys && visited == old(visited) + {outgoing[node][i]}
      ensures !found ==> Search(outgoing, from, visited, parent, d, queue.items, node, i + 1)
      ensures !found ==> (to in visited ==> to == from)
      ensures found ==> to != from && ShortestWalk(outgoing, Reversed(path), from, to)
    {
      var child := outgoing[node][i];
      IsNode(outgoing, node, i);
      hide Search, Walk, Closed, Queue.Valid;
      SearchesNode(outgoing, from, visited, parent, d0, queue.items, node, i);
      FollowNew(outgoing, from, visited, parent, d0, queue.items, node, i);
      if child == to {
        FoundIsFar(outgoing, from, visited, parent, d0, queue.items, node, i, to);
      }
      visited := visited + {child};
      parent := parent[child := node];
      d := d0[child := d0[node] + 1];
      if child == to {
        TreeOf(outgoing, from, visited, parent, d, queue.items + [child], node, i + 1);
        path := Ancestors(from, child, d);
        return true, path, d;
      }
      queue.Enqueue(child);
      return false, [], d;
    }

    /** Finds a shortest path, listed from its end to its start, exactly when there is one. */
    method FindPath(from: nat, to: nat) returns (found: bool, path: seq<nat>)
      requires Closed(outgoing) && IsReset() && from in outgoing
      modifies this`visited, this`parent
      ensures parent.Keys == outgoing.Keys
      ensures found <==> from != to && Reachable(outgoing, from, to)
      ensures found ==> ShortestWalk(outgoing, Reversed(path), from, to)
    {
      path := [];
      var queue := new Queue();
      hide Idle, Search, Walk, Closed, ShortestWalk, Reachable, Queue.Valid;
      Starts(outgoing, from, parent);
      visited := visited + {from};
      queue.Enqueue(from);
      assert visited == {from} && queue.items == [from];
      ghost var d: map<nat, nat>, near: nat := map[from := 0], 0;
      found := false;
      while queue.head != 0
        invariant queue.Valid() && fresh(queue) && parent.Keys == outgoing.Keys && (to in visited ==> to == from)
        invariant Idle(outgoing, from, visited, parent, d, queue.items, near)
        decreases |outgoing.Keys - visited|, |queue.items|
      {
        ghost var visited0 := visited;
        var node := TakeNode(queue, from, d, near);
        found, path, d := Expand(queue, from, node, to, d);
        if found {
          ShortestReaches(outgoing, Reversed(path), from, to);
          return;
        }
        SearchesNode(outgoing, from, visited, parent, d, queue.items, node, |outgoing[node]|);
        Finished(outgoing, from, visited, parent, d, queue.items, node);
        near := if queue.items == [] then d[node] else d[queue.items[0]];
        FewerLeft(outgoing.Keys, visited0, visited);
      }
      queue.Empty();
      NotReached(outgoing, from, visited, parent, d, near, to);
    }

    /** Takes the next node off the queue. */
    method TakeNode(queue: Queue, from: nat, ghost d: map<nat, nat>, ghost near: nat) returns (node: nat)
      requires Closed(outgoing) && queue.Valid() && queue.head != 0
      requires Idle(outgoing, from, visited, parent, d, queue.items, near)
      modifies queue
      ensures queue.Valid() && |queue.items| < |old(queue.items)| && node in outgoing
      ensures Search(outgoing, from, visited, parent, d, queue.items, node, 0)
    {
      hide Idle, Search, Closed;
      queue.Empty();
      TakeNext(outgoing, from, visited, parent, d, queue.items, near);
      node := queue.Dequeue();
      SearchesNode(outgoing, from, visited, parent, d, queue.items, node, 0);
    }

    /** Lists, for every node in turn that is a root and leads to the block, a shortest path from it. */
    method CopyRoots(nodes: seq<nat>, isRoot: set<nat>, block: nat) returns (paths: seq<seq<nat>>)
      requires Closed(outgoing) && IsReset() && forall v | v in nodes :: v in outgoing
      modifies this`visited, this`parent
      ensures IsReset()
      ensures PathsFrom(outgoing, Holders(outgoing, nodes, isRoot, block), block, paths)
    {
      hide Closed, Walk, Reachable, ShortestWalk;
      paths := [];
      var i := 0;
      while i < |nodes|
        invariant 0 <= i <= |nodes| && IsReset()
        invariant PathsFrom(outgoing, Holders(outgoing, nodes[..i], isRoot, block), block, paths)
      {
        HoldersNext(outgoing, nodes, i, isRoot, block);
        if nodes[i] in isRoot {
          var found, path := FindPath(nodes[i], block);
          if found {
            paths := paths + [Reversed(path)];
          }
          ResetNodes();
        }
        i := i + 1;
      }
      assert nodes[..i] == nodes;
    }
  }

  /** The roots among the nodes from which the block can be reached, in order. */
  ghost function Holders(g: Edges, nodes: seq<nat>, isRoot: set<nat>, block: nat): (r: seq<nat>) {
    if nodes == [] then []
    else
      var v := nodes[|nodes|-1];
      Holders(g, nodes[..|nodes|-1], isRoot, block)
      + if v in isRoot && v != block && Reachable(g, v, block) then [v] else []
  }

  lemma HoldersNext(g: Edges, nodes: seq<nat>, i: nat, isRoot: set<nat>, block: nat)
    requires i < |nodes|
    ensures Holders(g, nodes[..i + 1], isRoot, block)
            == Holders(g, nodes[..i], isRoot, block)
               + if nodes[i] in isRoot && nodes[i] != block && Reachable(g, nodes[i], block) then [nodes[i]] else []
  {
    assert nodes[..i + 1][..i] == nodes[..i];
  }

  ghost predicate PathsFrom(g: Edges, starts: seq<nat>, block: nat, paths: seq<seq<nat>>) {
    |paths| == |starts| && forall k | 0 <= k < |starts| :: ShortestWalk(g, paths[k], starts[k], block)
  }

  lemma IsNode(g: Edges, u: nat, i: nat)
    requires Closed(g) && u in g && i < |g[u]|
    ensures g[u][i] != 0 && g[u][i] in g
  {}

  lemma SearchesNode(g: Edges, from: nat, visited: set<nat>, parent: map<nat, nat>, d: map<nat, nat>, queue: seq<nat>,
          cur: nat, done: int)
    requires Search(g, from, visited, parent, d, queue, cur, done)
    ensures cur in g && cur in d && d.Keys == visited && (forall q | q in queue :: q in visited) && visited <= g.Keys
    ensures parent.Keys == g.Keys
  {}

  lemma TreeOf(g: Edges, from: nat, visited: set<nat>, parent: map<nat, nat>, d: map<nat, nat>, queue: seq<nat>,
          cur: nat, done: int)
    requires Search(g, from, visited, parent, d, queue, cur, done)
    ensures Tree(g, from, visited, parent, d)
  {}

  lemma Starts(g: Edges, from: nat, parent: map<nat, nat>)
    requires Closed(g) && from in g && parent.Keys == g.Keys && forall v | v in parent :: parent[v] == 0
    ensures from != 0 && Idle(g, from, {from}, parent, map[from := 0], [from], 0)
  {}

  lemma FewerLeft(all: set<nat>, a: set<nat>, b: set<nat>)
    requires a <= b <= all
    ensures a < b ==> |all - b| < |all - a|
  {
    if a < b {
      var x :| x in b && x !in a;
      assert all - b <= all - a - {x} && x in all - a;
      Smaller(all - b, all - a - {x});
    }
  }

  lemma {:induction false} Smaller(a: set<nat>, b: set<nat>)
    requires a <= b
    ensures |a| <= |b|
  {
    if a != {} {
      var x :| x in a;
      Smaller(a - {x}, b - {x});
    }
  }

  lemma NotReached(g: Edges, from: nat, visited: set<nat>, parent: map<nat, nat>, d: map<nat, nat>, near: nat, to: nat)
    requires Closed(g) && Idle(g, from, visited, parent, d, [], near) && (to in visited ==> to == from)
    ensures Reachable(g, from, to) ==> to == from
  {
    if w :| Walk(g, w, from, to) {
      ReachedIsVisited(g, from, visited, parent, d, near, w, to);
    }
  }

  function Reversed(s: seq<nat>): (r: seq<nat>)
    ensures |r| == |s| && forall i | 0 <= i < |s| :: r[i] == s[|s| - 1 - i]
  {
    seq(|s|, i requires 0 <= i < |s| => s[|s| - 1 - i])
  }
}
