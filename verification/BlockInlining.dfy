/**
 Block inlining: Integer#times, Range#each and Array#each with a literal block are turned into a
 while loop inside the block. The loop has the effect of yielding each element in turn.
 */
module BlockInlining {

  datatype Value = Nil | Bool(b: bool) | Int(n: int) | Array(id: nat)

  /** Variables of the block. The hidden ones have names that no program can write. */
  datatype Var = Named(x: nat) | HiddenSelf | HiddenLast | HiddenE | HiddenCount | HiddenIndex | HiddenFormal

  datatype Expr =
    | Lit(v: Value)
    | DVar(x: Var)
    | Outer(g: nat)
    | Less(a: Expr, b: Expr)
    | LessEq(a: Expr, b: Expr)
    | Succ(a: Expr)
    | Length(a: Expr)
    | Aref(a: Expr, i: Expr)

  /** The nodes of a block body. OptBlock marks where next and redo go. */
  datatype Node =
    | Skip
    | DAsgn(x: Var, e: Expr)
    | OuterAsgn(g: nat, e: Expr)
    | Push(a: Expr, e: Expr)
    | Pop(a: Expr)
    | Block(head: Node, tail: Node)
    | If(c: Expr, yes: Node, no: Node)
    | While(c: Expr, body: Node)
    | OptBlock(body: Node)
    | Next
    | Break(e: Expr)

  /** The variables outside the block and the arrays, which outlive a call of the block. */
  datatype World = World(outer: map<nat, Value>, arrays: map<nat, seq<Value>>)

  type Locals = map<Var, Value>

  // ----- evaluation -----

  function Get<K>(m: map<K, Value>, k: K): (v: Value) {
    if k in m then m[k] else Nil
  }

  function Contents(w: World, v: Value): (s: seq<Value>) {
    if v.Array? && v.id in w.arrays then w.arrays[v.id] else []
  }

  function Eval(e: Expr, l: Locals, w: World): (v: Value) {
    match e
    case Lit(v) => v
    case DVar(x) => Get(l, x)
    case Outer(g) => Get(w.outer, g)
    case Less(a, b) => var x, y := Eval(a, l, w), Eval(b, l, w); if x.Int? && y.Int? then Bool(x.n < y.n) else Nil
    case LessEq(a, b) => var x, y := Eval(a, l, w), Eval(b, l, w); if x.Int? && y.Int? then Bool(x.n <= y.n) else Nil
    case Succ(a) => var x := Eval(a, l, w); if x.Int? then Int(x.n + 1) else Nil
    case Length(a) => Int(|Contents(w, Eval(a, l, w))|)
    case Aref(a, i) =>
      var s, k := Contents(w, Eval(a, l, w)), Eval(i, l, w);
      if k.Int? && 0 <= k.n < |s| then s[k.n] else Nil
  }

  predicate Truthy(v: Value) {
    v != Nil && v != Bool(false)
  }

  function Stored(w: World, v: Value, s: seq<Value>): (r: World) {
    if v.Array? then w.(arrays := w.arrays[v.id := s]) else w
  }

  function Shortened(s: seq<Value>): (r: seq<Value>) {
    if s == [] then [] else s[..|s|-1]
  }

  /** How a node ends: with the value of a while that was left by break, by next, or by break. */
  datatype Ending = Normal(value: Option) | Nexted | Broke(v: Value)

  datatype Option = Undef | Def(v: Value)

  datatype Result = OutOfFuel | Done(ending: Ending, locals: Locals, world: World)

  /** Runs a node. Each round of a loop uses up fuel. */
  function Exec(fuel: nat, s: Node, l: Locals, w: World): (r: Result)
    decreases fuel, s
  {
    match s
    case Skip => Done(Normal(Undef), l, w)
    case DAsgn(x, e) => Done(Normal(Undef), l[x := Eval(e, l, w)], w)
    case OuterAsgn(g, e) => Done(Normal(Undef), l, w.(outer := w.outer[g := Eval(e, l, w)]))
    case Push(a, e) => Done(Normal(Undef), l, Stored(w, Eval(a, l, w), Contents(w, Eval(a, l, w)) + [Eval(e, l, w)]))
    case Pop(a) => Done(Normal(Undef), l, Stored(w, Eval(a, l, w), Shortened(Contents(w, Eval(a, l, w)))))
    case Block(head, tail) =>
      var r := Exec(fuel, head, l, w);
      if r.Done? && r.ending.Normal? then Exec(fuel, tail, r.locals, r.world) else r
    case If(c, yes, no) => if Truthy(Eval(c, l, w)) then Exec(fuel, yes, l, w) else Exec(fuel, no, l, w)
    case OptBlock(body) =>
      var r := Exec(fuel, body, l, w);
      if r.Done? && !r.ending.Broke? then r.(ending := Normal(Undef)) else r
    case Next => Done(Nexted, l, w)
    case Break(e) => Done(Broke(Eval(e, l, w)), l, w)
    case While(c, body) =>
      if !Truthy(Eval(c, l, w)) then Done(Normal(Undef), l, w)
      else if fuel == 0 then OutOfFuel
      else
        var r := Exec(fuel - 1, body, l, w);
        if r.OutOfFuel? then r
        else if r.ending.Broke? then Done(Normal(Def(r.ending.v)), r.locals, r.world)
        else Exec(fuel - 1, s, r.locals, r.world)
  }

  // ----- the transformation -----

  /** The parameter of the block: none, a variable of the block, or a variable outside. */
  datatype Param = NoParam | LocalParam(x: nat) | OuterParam(g: nat)

  /** The variable that receives the first argument. */
  function Formal(p: Param): (x: Var) {
    if p.LocalParam? then Named(p.x) else HiddenFormal
  }

  /** Assigns the element to the parameter. */
  function NewAssign(p: Param, e: Expr): (s: Node)
    requires !p.NoParam?
  {
    if p.LocalParam? then DAsgn(Named(p.x), e) else OuterAsgn(p.g, e)
  }

  function BuildIntegerTimes(p: Param, body: Node): (s: Node) {
    if p.NoParam? then
      While(Less(DVar(HiddenE), DVar(HiddenSelf)), Block(OptBlock(body), DAsgn(HiddenE, Succ(DVar(HiddenE)))))
    else
      Block(DAsgn(HiddenCount, DVar(Formal(p))),
            While(Less(DVar(HiddenCount), DVar(HiddenSelf)),
                  Block(NewAssign(p, DVar(HiddenCount)),
                        Block(OptBlock(body), DAsgn(HiddenCount, Succ(DVar(HiddenCount)))))))
  }

  function Compare(excl: bool, a: Expr, b: Expr): (c: Expr) {
    if excl then Less(a, b) else LessEq(a, b)
  }

  function BuildRangeEach(p: Param, body: Node, excl: bool): (s: Node) {
    if p.NoParam? then
      While(Compare(excl, DVar(HiddenE), DVar(HiddenLast)), Block(OptBlock(body), DAsgn(HiddenE, Succ(DVar(HiddenE)))))
    else
      Block(DAsgn(HiddenCount, DVar(Formal(p))),
            While(Compare(excl, DVar(HiddenCount), DVar(HiddenLast)),
                  Block(NewAssign(p, DVar(HiddenCount)),
                        Block(OptBlock(body), DAsgn(HiddenCount, Succ(DVar(HiddenCount)))))))
  }

  function BuildArrayEach(p: Param, body: Node): (s: Node) {
    var length := Length(DVar(HiddenSelf));
    if p.NoParam? then
      Block(DAsgn(HiddenIndex, Lit(Int(0))),
            While(Less(DVar(HiddenIndex), length), Block(OptBlock(body), DAsgn(HiddenIndex, Succ(DVar(HiddenIndex))))))
    else
      Block(DAsgn(HiddenIndex, Lit(Int(0))),
            While(Less(DVar(HiddenIndex), length),
                  Block(NewAssign(p, Aref(DVar(HiddenSelf), DVar(HiddenIndex))),
                        Block(OptBlock(body), DAsgn(HiddenIndex, Succ(DVar(HiddenIndex)))))))
  }

  // ----- the methods and their blocks -----

  datatype Iteration = Times(n: int) | RangeEach(beg: int, last: int, excl: bool) | ArrayEach(id: nat)

  datatype Answer = NoAnswer | Answer(broke: Option, world: World)

  function First(it: Iteration): (i: int) {
    if it.RangeEach? then it.beg else 0
  }

  predicate More(it: Iteration, i: int, w: World) {
    match it
    case Times(n) => i < n
    case RangeEach(_, last, excl) => if excl then i < last else i <= last
    case ArrayEach(id) => i < |Contents(w, Array(id))|
  }

  function Item(it: Iteration, i: int, w: World): (v: Value) {
    if it.ArrayEach? then (var s := Contents(w, Array(it.id)); if 0 <= i < |s| then s[i] else Nil) else Int(i)
  }

  /** The variables of a block that has just been called, and the world, with the argument in its place. */
  function Fresh(p: Param, v: Value): (l: Locals) {
    if p.LocalParam? then map[Named(p.x) := v] else map[]
  }

  function Passed(p: Param, v: Value, w: World): (r: World) {
    if p.OuterParam? then w.(outer := w.outer[p.g := v]) else w
  }

  /** The method as it is without inlining: each item in turn is yielded to the block. A break gives the value of
      the call. */
  function YieldEach(fuel: nat, it: Iteration, i: int, p: Param, body: Node, w: World): (a: Answer)
    decreases fuel
  {
    if !More(it, i, w) then Answer(Undef, w)
    else if fuel == 0 then NoAnswer
    else
      var v := Item(it, i, w);
      var r := Exec(fuel - 1, body, Fresh(p, v), Passed(p, v, w));
      if r.OutOfFuel? then NoAnswer
      else if r.ending.Broke? then Answer(Def(r.ending.v), r.world)
      else YieldEach(fuel - 1, it, i + 1, p, body, r.world)
  }

  function Build(it: Iteration, p: Param, body: Node): (s: Node) {
    match it
    case Times(_) => BuildIntegerTimes(p, body)
    case RangeEach(_, _, excl) => BuildRangeEach(p, body, excl)
    case ArrayEach(_) => BuildArrayEach(p, body)
  }

  /** The arguments that the special block is called with. */
  function Arguments(it: Iteration, p: Param): (l: Locals) {
    match it
    case Times(n) => map[(if p.NoParam? then HiddenE else Formal(p)) := Int(0), HiddenSelf := Int(n)]
    case RangeEach(beg, last, _) =>
      map[(if p.NoParam? then HiddenE else Formal(p)) := Int(beg), HiddenLast := Int(last)]
    case ArrayEach(id) => map[(if p.NoParam? then HiddenCount else Formal(p)) := Nil, HiddenSelf := Array(id)]
  }

  /** The method with the block inlined: the value of the special block, if it has one, is that of a break. */
  function Inlined(fuel: nat, it: Iteration, p: Param, body: Node, w: World): (a: Answer) {
    var r := Exec(fuel, Build(it, p, body), Arguments(it, p), w);
    if r.Done? && r.ending.Normal? then Answer(r.ending.value, r.world) else NoAnswer
  }

  // ----- which bodies -----

  ghost predicate ExprReads(e: Expr, a: set<Var>) {
    match e
    case Lit(_) => true
    case DVar(x) => x in a
    case Outer(_) => true
    case Less(x, y) => ExprReads(x, a) && ExprReads(y, a)
    case LessEq(x, y) => ExprReads(x, a) && ExprReads(y, a)
    case Succ(x) => ExprReads(x, a)
    case Length(x) => ExprReads(x, a)
    case Aref(x, y) => ExprReads(x, a) && ExprReads(y, a)
  }

  /** The variables that have been assigned when a node that starts with those of a has ended. */
  ghost function After(s: Node, a: set<Var>): (r: set<Var>)
    ensures a <= r
  {
    match s
    case DAsgn(x, _) => a + {x}
    case Block(head, tail) => After(tail, After(head, a))
    case If(_, yes, no) => After(yes, a) * After(no, a)
    case _ => a
  }

  /** The node reads no variable of the block but those of a and those it has assigned before, and names no hidden
      variable. */
  ghost predicate WellBehaved(s: Node, a: set<Var>) {
    match s
    case Skip => true
    case DAsgn(x, e) => x.Named? && ExprReads(e, a)
    case OuterAsgn(_, e) => ExprReads(e, a)
    case Push(x, e) => ExprReads(x, a) && ExprReads(e, a)
    case Pop(x) => ExprReads(x, a)
    case Block(head, tail) => WellBehaved(head, a) && WellBehaved(tail, After(head, a))
    case If(c, yes, no) => ExprReads(c, a) && WellBehaved(yes, a) && WellBehaved(no, a)
    case While(c, body) => ExprReads(c, a) && WellBehaved(body, a)
    case OptBlock(body) => WellBehaved(body, a)
    case Next => true
    case Break(e) => ExprReads(e, a)
  }

  ghost function Params(p: Param): (a: set<Var>) {
    if p.LocalParam? then {Named(p.x)} else {}
  }

  // ----- a well-behaved node does not see other variables -----

  ghost predicate Agree(l: Locals, m: Locals, a: set<Var>) {
    forall x | x in a :: Get(l, x) == Get(m, x)
  }

  /** The hidden variables are as before. */
  ghost predicate HiddenKept(l: Locals, m: Locals) {
    forall x: Var | !x.Named? :: Get(l, x) == Get(m, x)
  }

  lemma {:induction false} EvalAgrees(e: Expr, l: Locals, m: Locals, w: World, a: set<Var>)
    requires ExprReads(e, a) && Agree(l, m, a)
    ensures Eval(e, l, w) == Eval(e, m, w)
  {
    match e
    case Less(x, y) => EvalAgrees(x, l, m, w, a); EvalAgrees(y, l, m, w, a);
    case LessEq(x, y) => EvalAgrees(x, l, m, w, a); EvalAgrees(y, l, m, w, a);
    case Succ(x) => EvalAgrees(x, l, m, w, a);
    case Length(x) => EvalAgrees(x, l, m, w, a);
    case Aref(x, y) => EvalAgrees(x, l, m, w, a); EvalAgrees(y, l, m, w, a);
    case _ =>
  }

  ghost predicate SameRun(s: Node, a: set<Var>, r: Result, t: Result) {
    && (r.OutOfFuel? <==> t.OutOfFuel?)
    && (r.Done? && t.Done? ==>
          && r.ending == t.ending && r.world == t.world && Agree(r.locals, t.locals, a)
          && (r.ending.Normal? ==> Agree(r.locals, t.locals, After(s, a))))
  }

  lemma AgreeNow(l: Locals, m: Locals, a: set<Var>, x: Var, v: Value)
    requires Agree(l, m, a)
    ensures Agree(l[x := v], m[x := v], a + {x})
  {}

  /** Nodes without parts. */
  lemma SimpleAgrees(fuel: nat, s: Node, l: Locals, m: Locals, w: World, a: set<Var>)
    requires WellBehaved(s, a) && Agree(l, m, a)
    requires !s.Block? && !s.If? && !s.While? && !s.OptBlock?
    ensures SameRun(s, a, Exec(fuel, s, l, w), Exec(fuel, s, m, w))
  {
    match s
    case Skip =>
    case DAsgn(x, e) =>
      EvalAgrees(e, l, m, w, a);
      AgreeNow(l, m, a, x, Eval(e, l, w));
    case OuterAsgn(g, e) => EvalAgrees(e, l, m, w, a);
    case Push(x, e) => EvalAgrees(x, l, m, w, a); EvalAgrees(e, l, m, w, a);
    case Pop(x) => EvalAgrees(x, l, m, w, a);
    case Next =>
    case Break(e) => EvalAgrees(e, l, m, w, a);
  }

  lemma {:induction false} BlockAgrees(fuel: nat, s: Node, l: Locals, m: Locals, w: World, a: set<Var>)
    requires s.Block? && WellBehaved(s, a) && Agree(l, m, a)
    ensures SameRun(s, a, Exec(fuel, s, l, w), Exec(fuel, s, m, w))
    decreases fuel, s, 0
  {
    ExecAgrees(fuel, s.head, l, m, w, a);
    var r, t := Exec(fuel, s.head, l, w), Exec(fuel, s.head, m, w);
    if r.Done? && r.ending.Normal? {
      ExecAgrees(fuel, s.tail, r.locals, t.locals, r.world, After(s.head, a));
    }
  }

  lemma {:induction false} WhileAgrees(fuel: nat, s: Node, l: Locals, m: Locals, w: World, a: set<Var>)
    requires s.While? && WellBehaved(s, a) && Agree(l, m, a)
    ensures SameRun(s, a, Exec(fuel, s, l, w), Exec(fuel, s, m, w))
    decreases fuel, s, 0
  {
    EvalAgrees(s.c, l, m, w, a);
    if Truthy(Eval(s.c, l, w)) && fuel > 0 {
      ExecAgrees(fuel - 1, s.body, l, m, w, a);
      var r, t := Exec(fuel - 1, s.body, l, w), Exec(fuel - 1, s.body, m, w);
      if r.Done? && !r.ending.Broke? {
        WhileAgrees(fuel - 1, s, r.locals, t.locals, r.world, a);
      }
    }
  }

  lemma {:induction false} IfAgrees(fuel: nat, s: Node, l: Locals, m: Locals, w: World, a: set<Var>)
    requires s.If? && WellBehaved(s, a) && Agree(l, m, a)
    ensures SameRun(s, a, Exec(fuel, s, l, w), Exec(fuel, s, m, w))
    decreases fuel, s, 0
  {
    EvalAgrees(s.c, l, m, w, a);
    ExecAgrees(fuel, s.yes, l, m, w, a);
    ExecAgrees(fuel, s.no, l, m, w, a);
  }

  lemma {:induction false} OptBlockAgrees(fuel: nat, s: Node, l: Locals, m: Locals, w: World, a: set<Var>)
    requires s.OptBlock? && WellBehaved(s, a) && Agree(l, m, a)
    ensures SameRun(s, a, Exec(fuel, s, l, w), Exec(fuel, s, m, w))
    decreases fuel, s, 0
  {
    ExecAgrees(fuel, s.body, l, m, w, a);
  }

  lemma {:induction false} ExecAgrees(fuel: nat, s: Node, l: Locals, m: Locals, w: World, a: set<Var>)
    requires WellBehaved(s, a) && Agree(l, m, a)
    ensures SameRun(s, a, Exec(fuel, s, l, w), Exec(fuel, s, m, w))
    decreases fuel, s, 1
  {
    hide Exec, WellBehaved, SameRun, Agree;
    match s
    case Block(head, tail) => BlockAgrees(fuel, s, l, m, w, a);
    case While(c, body) => WhileAgrees(fuel, s, l, m, w, a);
    case If(c, yes, no) => IfAgrees(fuel, s, l, m, w, a);
    case OptBlock(body) => OptBlockAgrees(fuel, s, l, m, w, a);
    case _ => SimpleAgrees(fuel, s, l, m, w, a);
  }

  lemma {:induction false} ExecKeepsHidden(fuel: nat, s: Node, l: Locals, w: World, a: set<Var>)
    requires WellBehaved(s, a)
    ensures Exec(fuel, s, l, w).Done? ==> HiddenKept(l, Exec(fuel, s, l, w).locals)
    decreases fuel, s
  {
    match s
    case Block(head, tail) =>
      ExecKeepsHidden(fuel, head, l, w, a);
      var r := Exec(fuel, head, l, w);
      if r.Done? && r.ending.Normal? {
        ExecKeepsHidden(fuel, tail, r.locals, r.world, After(head, a));
      }
    case If(c, yes, no) =>
      ExecKeepsHidden(fuel, yes, l, w, a);
      ExecKeepsHidden(fuel, no, l, w, a);
    case OptBlock(body) => ExecKeepsHidden(fuel, body, l, w, a);
    case While(c, body) =>
      if Truthy(Eval(c, l, w)) && fuel > 0 {
        ExecKeepsHidden(fuel - 1, body, l, w, a);
        var r := Exec(fuel - 1, body, l, w);
        if r.Done? && !r.ending.Broke? {
          ExecKeepsHidden(fuel - 1, s, r.locals, r.world, a);
        }
      }
    case _ =>
  }

  // ----- the loop yields each item in turn -----

  /** The variable that counts, the loop, and the state at its head. */
  ghost function Counter(it: Iteration, p: Param): (x: Var) {
    if it.ArrayEach? then HiddenIndex else if p.NoParam? then HiddenE else HiddenCount
  }

  ghost function Guard(it: Iteration, p: Param): (c: Expr) {
    var x := DVar(Counter(it, p));
    match it
    case Times(_) => Less(x, DVar(HiddenSelf))
    case RangeEach(_, _, excl) => Compare(excl, x, DVar(HiddenLast))
    case ArrayEach(_) => Less(x, Length(DVar(HiddenSelf)))
  }

  ghost function Round(it: Iteration, p: Param, body: Node): (s: Node) {
    var x := Counter(it, p);
    var rest := Block(OptBlock(body), DAsgn(x, Succ(DVar(x))));
    if p.NoParam? then rest
    else Block(NewAssign(p, ItemExpr(it, p)), rest)
  }

  ghost predicate AtHead(it: Iteration, p: Param, i: int, l: Locals) {
    && Get(l, Counter(it, p)) == Int(i) && i >= First(it)
    && match it
       case Times(n) => Get(l, HiddenSelf) == Int(n)
       case RangeEach(_, last, _) => Get(l, HiddenLast) == Int(last)
       case ArrayEach(id) => Get(l, HiddenSelf) == Array(id)
  }

  lemma GuardIsMore(it: Iteration, p: Param, i: int, l: Locals, w: World)
    requires AtHead(it, p, i, l)
    ensures Truthy(Eval(Guard(it, p), l, w)) <==> More(it, i, w)
  {
    assert Eval(DVar(Counter(it, p)), l, w) == Int(i);
    match it
    case Times(n) => assert Eval(DVar(HiddenSelf), l, w) == Int(n);
    case RangeEach(_, last, _) => assert Eval(DVar(HiddenLast), l, w) == Int(last);
    case ArrayEach(id) =>
      assert Eval(DVar(HiddenSelf), l, w) == Array(id);
      assert Eval(Length(DVar(HiddenSelf)), l, w) == Int(|Contents(w, Array(id))|);
  }

  /** What the parameter is assigned. */
  ghost function ItemExpr(it: Iteration, p: Param): (e: Expr) {
    if it.ArrayEach? then Aref(DVar(HiddenSelf), DVar(Counter(it, p))) else DVar(Counter(it, p))
  }

  lemma ItemExprIsItem(it: Iteration, p: Param, i: int, l: Locals, w: World)
    requires AtHead(it, p, i, l) && More(it, i, w)
    ensures Eval(ItemExpr(it, p), l, w) == Item(it, i, w)
  {
    assert Eval(DVar(Counter(it, p)), l, w) == Int(i);
    if it.ArrayEach? {
      assert Eval(DVar(HiddenSelf), l, w) == Array(it.id);
    }
  }

  /** One round: the item is passed, the body runs as if it had been called, and the counter is raised. */
  lemma RoundIsYield(fuel: nat, it: Iteration, p: Param, body: Node, i: int, l: Locals, w: World)
    requires AtHead(it, p, i, l) && More(it, i, w) && WellBehaved(body, Params(p))
    ensures
      var v := Item(it, i, w);
      var r, t := Exec(fuel, Round(it, p, body), l, w), Exec(fuel, body, Fresh(p, v), Passed(p, v, w));
      && (r.OutOfFuel? <==> t.OutOfFuel?)
      && (t.Done? && t.ending.Broke? ==> r.ending == t.ending && r.world == t.world)
      && (t.Done? && !t.ending.Broke? ==>
            r.ending == Normal(Undef) && r.world == t.world && AtHead(it, p, i + 1, r.locals))
  {
    var v, x := Item(it, i, w), Counter(it, p);
    var l1, w1 := if p.LocalParam? then l[Named(p.x) := v] else l, Passed(p, v, w);
    RoundStarts(fuel, it, p, body, i, l, w);
    RestOfRound(fuel, body, x, l1, w1);
    BodyIsCalled(fuel, it, p, body, i, l1, w1, v);
  }

  lemma BodyIsCalled(fuel: nat, it: Iteration, p: Param, body: Node, i: int, l: Locals, w: World, v: Value)
    requires AtHead(it, p, i, l) && WellBehaved(body, Params(p)) && (p.LocalParam? ==> Get(l, Named(p.x)) == v)
    ensures
      var b, t := Exec(fuel, body, l, w), Exec(fuel, body, Fresh(p, v), w);
      && (b.OutOfFuel? <==> t.OutOfFuel?)
      && (b.Done? ==> b.ending == t.ending && b.world == t.world)
      && (b.Done? ==>
            var x := Counter(it, p);
            AtHead(it, p, i + 1, b.locals[x := Eval(Succ(DVar(x)), b.locals, b.world)]))
  {
    hide Exec, WellBehaved;
    ExecAgrees(fuel, body, l, Fresh(p, v), w, Params(p));
    ExecKeepsHidden(fuel, body, l, w, Params(p));
    var b := Exec(fuel, body, l, w);
    if b.Done? {
      HeadMoves(it, p, i, l, b.locals);
      assert Eval(DVar(Counter(it, p)), b.locals, b.world) == Int(i);
    }
  }

  /** Assigning the parameter passes the item. */
  lemma RoundStarts(fuel: nat, it: Iteration, p: Param, body: Node, i: int, l: Locals, w: World)
    requires AtHead(it, p, i, l) && More(it, i, w)
    ensures
      var v, x := Item(it, i, w), Counter(it, p);
      var l1 := if p.LocalParam? then l[Named(p.x) := v] else l;
      AtHead(it, p, i, l1)
      && Exec(fuel, Round(it, p, body), l, w)
         == Exec(fuel, Block(OptBlock(body), DAsgn(x, Succ(DVar(x)))), l1, Passed(p, v, w))
  {
    ItemExprIsItem(it, p, i, l, w);
    if !p.NoParam? {
      var v := Item(it, i, w);
      assert Exec(fuel, NewAssign(p, ItemExpr(it, p)), l, w)
        == Done(Normal(Undef), if p.LocalParam? then l[Named(p.x) := v] else l, Passed(p, v, w));
    }
  }

  lemma {:induction false} RestOfRound(fuel: nat, body: Node, x: Var, l: Locals, w: World)
    ensures
      var b := Exec(fuel, body, l, w);
      Exec(fuel, Block(OptBlock(body), DAsgn(x, Succ(DVar(x)))), l, w)
      == if b.OutOfFuel? || b.ending.Broke? then b
         else Done(Normal(Undef), b.locals[x := Eval(Succ(DVar(x)), b.locals, b.world)], b.world)
  {
    hide Exec, Eval;
    BlockRuns(fuel, OptBlock(body), DAsgn(x, Succ(DVar(x))), l, w);
    OptBlockRuns(fuel, body, l, w);
    var b := Exec(fuel, body, l, w);
    if b.Done? {
      AssignRuns(fuel, x, Succ(DVar(x)), b.locals, b.world);
    }
  }

  lemma {:induction false} BlockRuns(fuel: nat, head: Node, tail: Node, l: Locals, w: World)
    ensures
      var r := Exec(fuel, head, l, w);
      Exec(fuel, Block(head, tail), l, w)
      == if r.Done? && r.ending.Normal? then Exec(fuel, tail, r.locals, r.world) else r
  {}

  lemma {:induction false} OptBlockRuns(fuel: nat, body: Node, l: Locals, w: World)
    ensures
      var r := Exec(fuel, body, l, w);
      Exec(fuel, OptBlock(body), l, w) == if r.Done? && !r.ending.Broke? then r.(ending := Normal(Undef)) else r
  {}

  lemma {:induction false} AssignRuns(fuel: nat, x: Var, e: Expr, l: Locals, w: World)
    ensures Exec(fuel, DAsgn(x, e), l, w) == Done(Normal(Undef), l[x := Eval(e, l, w)], w)
  {}

  lemma HeadMoves(it: Iteration, p: Param, i: int, l: Locals, m: Locals)
    requires AtHead(it, p, i, l) && HiddenKept(l, m)
    ensures AtHead(it, p, i + 1, m[Counter(it, p) := Int(i + 1)]) && Get(m, Counter(it, p)) == Int(i)
  {}

  lemma {:induction false} LoopIsYieldEach(fuel: nat, it: Iteration, p: Param, body: Node, i: int, l: Locals, w: World)
    requires AtHead(it, p, i, l) && WellBehaved(body, Params(p))
    ensures
      var r, a := Exec(fuel, While(Guard(it, p), Round(it, p, body)), l, w), YieldEach(fuel, it, i, p, body, w);
      if a.NoAnswer? then r.OutOfFuel? else r.Done? && r.ending == Normal(a.broke) && r.world == a.world
    decreases fuel
  {
    hide Guard, Round, AtHead, More, Item, Fresh, Passed, WellBehaved, Truthy, Eval;
    GuardIsMore(it, p, i, l, w);
    if More(it, i, w) && fuel > 0 {
      RoundIsYield(fuel - 1, it, p, body, i, l, w);
      var r := Exec(fuel - 1, Round(it, p, body), l, w);
      if r.Done? && !r.ending.Broke? {
        LoopIsYieldEach(fuel - 1, it, p, body, i + 1, r.locals, r.world);
      }
    }
  }

  /** What the special block does before its loop. */
  lemma InlinedStarts(fuel: nat, it: Iteration, p: Param, body: Node, w: World) returns (l: Locals)
    ensures AtHead(it, p, First(it), l)
    ensures Exec(fuel, Build(it, p, body), Arguments(it, p), w)
            == Exec(fuel, While(Guard(it, p), Round(it, p, body)), l, w)
  {
    if it.ArrayEach? {
      l := ArrayStarts(fuel, it, p, body, w);
    } else if p.NoParam? {
      l := Arguments(it, p);
      hide Exec;
    } else {
      l := CountStarts(fuel, it, p, body, w);
    }
  }

  lemma ArrayStarts(fuel: nat, it: Iteration, p: Param, body: Node, w: World) returns (l: Locals)
    requires it.ArrayEach?
    ensures AtHead(it, p, First(it), l)
    ensures Exec(fuel, Build(it, p, body), Arguments(it, p), w)
            == Exec(fuel, While(Guard(it, p), Round(it, p, body)), l, w)
  {
    var loop := While(Guard(it, p), Round(it, p, body));
    assert Build(it, p, body) == Block(DAsgn(HiddenIndex, Lit(Int(0))), loop);
    hide Build, Guard, Round;
    l := Arguments(it, p)[HiddenIndex := Int(0)];
    assert Exec(fuel, DAsgn(HiddenIndex, Lit(Int(0))), Arguments(it, p), w) == Done(Normal(Undef), l, w);
  }

  lemma CountStarts(fuel: nat, it: Iteration, p: Param, body: Node, w: World) returns (l: Locals)
    requires !it.ArrayEach? && !p.NoParam?
    ensures AtHead(it, p, First(it), l)
    ensures Exec(fuel, Build(it, p, body), Arguments(it, p), w)
            == Exec(fuel, While(Guard(it, p), Round(it, p, body)), l, w)
  {
    var loop := While(Guard(it, p), Round(it, p, body));
    assert Build(it, p, body) == Block(DAsgn(HiddenCount, DVar(Formal(p))), loop);
    hide Build, Guard, Round;
    l := Arguments(it, p)[HiddenCount := Int(First(it))];
    assert Exec(fuel, DAsgn(HiddenCount, DVar(Formal(p))), Arguments(it, p), w) == Done(Normal(Undef), l, w);
  }

  /** The inlined method has the effect, and the value, of the method that yields, for every
      well-behaved body. */
  lemma InlinedIsYieldEach(fuel: nat, it: Iteration, p: Param, body: Node, w: World)
    requires WellBehaved(body, Params(p))
    ensures Inlined(fuel, it, p, body, w) == YieldEach(fuel, it, First(it), p, body, w)
  {
    hide Exec, YieldEach, Build, Arguments, Guard, Round, AtHead, WellBehaved;
    var l := InlinedStarts(fuel, it, p, body, w);
    LoopIsYieldEach(fuel, it, p, body, First(it), l, w);
  }

  // ----- which elements are yielded -----

  /** The integers from lo up to hi, without hi. */
  ghost function Ints(lo: int, hi: int): (s: seq<Value>)
    ensures |s| == if lo < hi then hi - lo else 0
    ensures forall k | 0 <= k < |s| :: s[k] == Int(lo + k)
    decreases hi - lo
  {
    if lo < hi then Ints(lo, hi - 1) + [Int(hi - 1)] else []
  }

  /** The elements of the receiver: for an exclusive range those below its end, for any other range
      those up to its end. */
  ghost function Elements(it: Iteration, w: World): (s: seq<Value>) {
    match it
    case Times(n) => Ints(0, n)
    case RangeEach(beg, last, excl) => Ints(beg, if excl then last else last + 1)
    case ArrayEach(id) => if id in w.arrays then w.arrays[id] else []
  }

  /** The block is called with each element of a list in turn, until it is left by break. */
  ghost function Calls(fuel: nat, s: seq<Value>, p: Param, body: Node, w: World): (a: Answer)
    decreases |s|
  {
    if s == [] then Answer(Undef, w)
    else if fuel == 0 then NoAnswer
    else
      var r := Exec(fuel - 1, body, Fresh(p, s[0]), Passed(p, s[0], w));
      if r.OutOfFuel? then NoAnswer
      else if r.ending.Broke? then Answer(Def(r.ending.v), r.world)
      else Calls(fuel - 1, s[1..], p, body, r.world)
  }

  /** No call of the body changes the elements of the receiver. */
  ghost predicate LeavesElements(it: Iteration, body: Node) {
    forall fuel: nat, l, w | Exec(fuel, body, l, w).Done? ::
      Elements(it, Exec(fuel, body, l, w).world) == Elements(it, w)
  }

  /** While there are more items, the item is the element at the distance from the first. */
  lemma ItemIsElement(it: Iteration, i: int, w: World)
    requires First(it) <= i
    ensures More(it, i, w) <==> i - First(it) < |Elements(it, w)|
    ensures More(it, i, w) ==> Item(it, i, w) == Elements(it, w)[i - First(it)]
  {}

  lemma CallLeavesElements(fuel: nat, it: Iteration, p: Param, body: Node, v: Value, w: World)
    requires LeavesElements(it, body)
    ensures
      var r := Exec(fuel, body, Fresh(p, v), Passed(p, v, w));
      r.Done? ==> Elements(it, r.world) == Elements(it, w)
  {
    hide Exec;
    assert Elements(it, Passed(p, v, w)) == Elements(it, w);
    hide Elements;
  }

  /** The elements that are still to come. */
  ghost predicate Rest(it: Iteration, i: int, w: World, rest: seq<Value>) {
    var s := Elements(it, w);
    First(it) <= i && i - First(it) <= |s| && rest == s[i - First(it)..]
  }

  lemma RestMoves(it: Iteration, i: int, w: World, rest: seq<Value>)
    requires Rest(it, i, w, rest)
    ensures More(it, i, w) <==> rest != []
    ensures rest != [] ==> Item(it, i, w) == rest[0]
    ensures forall u | rest != [] && Elements(it, u) == Elements(it, w) :: Rest(it, i + 1, u, rest[1..])
  {
    ItemIsElement(it, i, w);
    hide Elements, More, Item;
  }

  /** One item is yielded as one element is passed. */
  lemma {:induction false} YieldIsCall(fuel: nat, it: Iteration, i: int, p: Param, body: Node, w: World,
                                       rest: seq<Value>)
    requires More(it, i, w) <==> rest != []
    requires rest != [] ==> Item(it, i, w) == rest[0]
    ensures
      var y, c := YieldEach(fuel, it, i, p, body, w), Calls(fuel, rest, p, body, w);
      if rest == [] || fuel == 0 then y == c
      else
        var r := Exec(fuel - 1, body, Fresh(p, rest[0]), Passed(p, rest[0], w));
        if r.Done? && !r.ending.Broke? then
          && y == YieldEach(fuel - 1, it, i + 1, p, body, r.world)
          && c == Calls(fuel - 1, rest[1..], p, body, r.world)
        else y == c
  {
    hide Exec, More, Item, Fresh, Passed;
  }

  lemma {:induction false} YieldsFrom(fuel: nat, it: Iteration, i: int, p: Param, body: Node, w: World,
                                      rest: seq<Value>)
    requires Rest(it, i, w, rest) && LeavesElements(it, body)
    ensures YieldEach(fuel, it, i, p, body, w) == Calls(fuel, rest, p, body, w)
    decreases fuel
  {
    hide Exec, More, Item, Elements, Fresh, Passed, LeavesElements, Rest, YieldEach, Calls;
    RestMoves(it, i, w, rest);
    YieldIsCall(fuel, it, i, p, body, w, rest);
    if rest != [] && fuel > 0 {
      CallLeavesElements(fuel - 1, it, p, body, rest[0], w);
      var r := Exec(fuel - 1, body, Fresh(p, rest[0]), Passed(p, rest[0], w));
      if r.Done? && !r.ending.Broke? {
        YieldsFrom(fuel - 1, it, i + 1, p, body, r.world, rest[1..]);
      }
    }
  }

  /** Times and each call the block with the elements of the receiver, in order, each once. */
  lemma YieldsElements(fuel: nat, it: Iteration, p: Param, body: Node, w: World)
    requires it.ArrayEach? ==> LeavesElements(it, body)
    ensures YieldEach(fuel, it, First(it), p, body, w) == Calls(fuel, Elements(it, w), p, body, w)
  {
    if !it.ArrayEach? {
      assert forall u, x :: Elements(it, u) == Elements(it, x);
    }
    assert Elements(it, w)[0..] == Elements(it, w);
    hide Exec, YieldEach, Calls, Elements;
    YieldsFrom(fuel, it, First(it), p, body, w, Elements(it, w));
  }

  /** A body that appends its argument to array a. */
  function Recorder(p: Param, a: nat): (s: Node) {
    Push(Lit(Array(a)), if p.LocalParam? then DVar(Named(p.x)) else if p.OuterParam? then Outer(p.g) else Lit(Nil))
  }

  lemma Records(fuel: nat, p: Param, a: nat, v: Value, w: World)
    requires a in w.arrays
    ensures
      var r := Exec(fuel, Recorder(p, a), Fresh(p, v), Passed(p, v, w));
      && r.Done? && r.ending == Normal(Undef)
      && r.world.arrays == w.arrays[a := w.arrays[a] + [if p.NoParam? then Nil else v]]
  {}

  lemma RecorderLeavesElements(it: Iteration, p: Param, a: nat)
    requires it.ArrayEach? ==> it.id != a
    ensures LeavesElements(it, Recorder(p, a)) && WellBehaved(Recorder(p, a), Params(p))
  {
    forall fuel: nat, l, w | Exec(fuel, Recorder(p, a), l, w).Done?
      ensures Elements(it, Exec(fuel, Recorder(p, a), l, w).world) == Elements(it, w)
    {
    }
  }

  /** What a block that takes an argument is given. */
  ghost function Given(p: Param, s: seq<Value>): (r: seq<Value>)
    ensures |r| == |s| && forall k | 0 <= k < |s| :: r[k] == if p.NoParam? then Nil else s[k]
  {
    if s == [] then [] else [if p.NoParam? then Nil else s[0]] + Given(p, s[1..])
  }

  lemma GivenNext(p: Param, s: seq<Value>, before: seq<Value>)
    ensures before + Given(p, s)
            == if s == [] then before else (before + [if p.NoParam? then Nil else s[0]]) + Given(p, s[1..])
  {}

  lemma {:induction false} CallsRecord(fuel: nat, s: seq<Value>, p: Param, a: nat, w: World)
    requires fuel >= |s| && a in w.arrays
    ensures
      var r := Calls(fuel, s, p, Recorder(p, a), w);
      r.Answer? && r.broke == Undef && r.world.arrays == w.arrays[a := w.arrays[a] + Given(p, s)]
    decreases |s|
  {
    hide Exec, Recorder, Fresh, Passed, Given;
    GivenNext(p, s, w.arrays[a]);
    if s != [] {
      Records(fuel - 1, p, a, s[0], w);
      var r := Exec(fuel - 1, Recorder(p, a), Fresh(p, s[0]), Passed(p, s[0], w));
      CallsRecord(fuel - 1, s[1..], p, a, r.world);
    }
  }

  /** A block that appends its argument to an array, inlined: afterwards the array is longer by the
      elements of the receiver, in order; without a parameter by as many times nil. */
  lemma InlinedRecordsElements(fuel: nat, it: Iteration, p: Param, a: nat, w: World)
    requires a in w.arrays && (it.ArrayEach? ==> it.id != a) && fuel >= |Elements(it, w)|
    ensures
      var r := Inlined(fuel, it, p, Recorder(p, a), w);
      r.Answer? && r.broke == Undef && r.world.arrays == w.arrays[a := w.arrays[a] + Given(p, Elements(it, w))]
  {
    hide Inlined, YieldEach, Calls, Elements, Recorder, LeavesElements, WellBehaved;
    RecorderLeavesElements(it, p, a);
    InlinedIsYieldEach(fuel, it, p, Recorder(p, a), w);
    YieldsElements(fuel, it, p, Recorder(p, a), w);
    CallsRecord(fuel, Elements(it, w), p, a, w);
  }

  // ----- next and break -----

  lemma IntsFromFirst(lo: int, hi: int)
    requires lo < hi
    ensures Ints(lo, hi) == [Int(lo)] + Ints(lo + 1, hi) && Ints(lo, hi)[0] == Int(lo)
    ensures Ints(lo, hi)[1..] == Ints(lo + 1, hi)
  {}

  /** Appends its argument x to array a, but goes to the next element first if x is below m. */
  function Selector(x: nat, a: nat, m: int): (s: Node) {
    Block(If(Less(DVar(Named(x)), Lit(Int(m))), Next, Skip), Recorder(LocalParam(x), a))
  }

  /** Appends its argument x to array a, but breaks with the value v first unless x is below m. */
  function Stopper(x: nat, a: nat, m: int, v: Value): (s: Node) {
    Block(If(Less(DVar(Named(x)), Lit(Int(m))), Skip, Break(Lit(v))), Recorder(LocalParam(x), a))
  }

  lemma {:induction false} Selects(fuel: nat, x: nat, a: nat, m: int, n: int, w: World)
    requires a in w.arrays
    ensures
      var r := Exec(fuel, Selector(x, a, m), Fresh(LocalParam(x), Int(n)), w);
      && r.Done? && !r.ending.Broke?
      && r.world.arrays == if n < m then w.arrays else w.arrays[a := w.arrays[a] + [Int(n)]]
  {
    var l := Fresh(LocalParam(x), Int(n));
    assert Eval(Less(DVar(Named(x)), Lit(Int(m))), l, w) == Bool(n < m);
    BlockRuns(fuel, If(Less(DVar(Named(x)), Lit(Int(m))), Next, Skip), Recorder(LocalParam(x), a), l, w);
    Records(fuel, LocalParam(x), a, Int(n), w);
  }

  lemma {:induction false} Stops(fuel: nat, x: nat, a: nat, m: int, v: Value, n: int, w: World)
    requires a in w.arrays
    ensures
      var r := Exec(fuel, Stopper(x, a, m, v), Fresh(LocalParam(x), Int(n)), w);
      && r.Done? && r.ending == (if n < m then Normal(Undef) else Broke(v))
      && r.world.arrays == if n < m then w.arrays[a := w.arrays[a] + [Int(n)]] else w.arrays
  {
    var l := Fresh(LocalParam(x), Int(n));
    assert Eval(Less(DVar(Named(x)), Lit(Int(m))), l, w) == Bool(n < m);
    BlockRuns(fuel, If(Less(DVar(Named(x)), Lit(Int(m))), Skip, Break(Lit(v))), Recorder(LocalParam(x), a), l, w);
    Records(fuel, LocalParam(x), a, Int(n), w);
  }

  lemma {:induction false} CallsSelect(fuel: nat, lo: int, hi: int, x: nat, a: nat, m: int, w: World)
    requires a in w.arrays && fuel >= |Ints(lo, hi)|
    ensures
      var r := Calls(fuel, Ints(lo, hi), LocalParam(x), Selector(x, a, m), w);
      && r.Answer? && r.broke == Undef
      && r.world.arrays == w.arrays[a := w.arrays[a] + Ints(if lo < m then m else lo, hi)]
    decreases hi - lo
  {
    hide Exec, Selector;
    if lo < hi {
      IntsFromFirst(lo, hi);
      Selects(fuel - 1, x, a, m, lo, w);
      var r := Exec(fuel - 1, Selector(x, a, m), Fresh(LocalParam(x), Int(lo)), w);
      CallsSelect(fuel - 1, lo + 1, hi, x, a, m, r.world);
      assert lo >= m ==> w.arrays[a] + Ints(lo, hi) == (w.arrays[a] + [Int(lo)]) + Ints(lo + 1, hi);
    } else {
      assert w.arrays[a] + Ints(if lo < m then m else lo, hi) == w.arrays[a];
    }
  }

  lemma AppendInts(s: seq<Value>, lo: int, hi: int)
    ensures s + Ints(lo, hi) == if lo < hi then (s + [Int(lo)]) + Ints(lo + 1, hi) else s
  {}

  lemma {:induction false} CallsStop(fuel: nat, lo: int, hi: int, x: nat, a: nat, m: int, v: Value, w: World)
    requires a in w.arrays && fuel >= |Ints(lo, hi)| && lo <= m
    ensures
      var r := Calls(fuel, Ints(lo, hi), LocalParam(x), Stopper(x, a, m, v), w);
      && r.Answer? && r.broke == (if m < hi then Def(v) else Undef)
      && r.world.arrays == w.arrays[a := w.arrays[a] + Ints(lo, if m < hi then m else hi)]
    decreases hi - lo
  {
    hide Exec, Stopper, Ints, Fresh;
    AppendInts(w.arrays[a], lo, if m < hi then m else hi);
    if lo < hi {
      IntsFromFirst(lo, hi);
      Stops(fuel - 1, x, a, m, v, lo, w);
      if lo < m {
        var r := Exec(fuel - 1, Stopper(x, a, m, v), Fresh(LocalParam(x), Int(lo)), w);
        CallsStop(fuel - 1, lo + 1, hi, x, a, m, v, r.world);
      }
    }
  }

  lemma RecordersBehave(x: nat, a: nat, m: int, v: Value)
    ensures WellBehaved(Selector(x, a, m), Params(LocalParam(x)))
    ensures WellBehaved(Stopper(x, a, m, v), Params(LocalParam(x)))
  {
    RecorderBehaves(x, a, If(Less(DVar(Named(x)), Lit(Int(m))), Next, Skip));
    RecorderBehaves(x, a, If(Less(DVar(Named(x)), Lit(Int(m))), Skip, Break(Lit(v))));
  }

  lemma RecorderBehaves(x: nat, a: nat, before: Node)
    requires WellBehaved(before, Params(LocalParam(x)))
    ensures WellBehaved(Block(before, Recorder(LocalParam(x), a)), Params(LocalParam(x)))
  {
    assert Named(x) in After(before, Params(LocalParam(x)));
    assert ExprReads(DVar(Named(x)), After(before, Params(LocalParam(x))));
    assert WellBehaved(Recorder(LocalParam(x), a), After(before, Params(LocalParam(x))));
  }

  /** The inlined loop of a range in which the block goes to the next element below m: the elements
      from m on are appended. */
  lemma InlinedNextSkips(fuel: nat, beg: int, last: int, excl: bool, x: nat, a: nat, m: int, w: World)
    requires a in w.arrays && fuel >= |Elements(RangeEach(beg, last, excl), w)|
    ensures
      var r := Inlined(fuel, RangeEach(beg, last, excl), LocalParam(x), Selector(x, a, m), w);
      && r.Answer? && r.broke == Undef
      && r.world.arrays
         == w.arrays[a := w.arrays[a] + Ints(if beg < m then m else beg, if excl then last else last + 1)]
  {
    var it := RangeEach(beg, last, excl);
    assert Elements(it, w) == Ints(beg, if excl then last else last + 1) && First(it) == beg;
    hide Inlined, YieldEach, Calls, Elements, Selector, WellBehaved, Ints;
    RecordersBehave(x, a, m, Nil);
    InlinedIsYieldEach(fuel, it, LocalParam(x), Selector(x, a, m), w);
    YieldsElements(fuel, it, LocalParam(x), Selector(x, a, m), w);
    CallsSelect(fuel, beg, if excl then last else last + 1, x, a, m, w);
  }

  /** The inlined loop of a range in which the block breaks at m: the elements before m are appended, and
      the value of the break, if m is in the range, is that of the whole. */
  lemma InlinedBreakStops(fuel: nat, beg: int, last: int, excl: bool, x: nat, a: nat, m: int, v: Value, w: World)
    requires a in w.arrays && fuel >= |Elements(RangeEach(beg, last, excl), w)| && beg <= m
    ensures
      var end := if excl then last else last + 1;
      var r := Inlined(fuel, RangeEach(beg, last, excl), LocalParam(x), Stopper(x, a, m, v), w);
      && r.Answer? && r.broke == (if m < end then Def(v) else Undef)
      && r.world.arrays == w.arrays[a := w.arrays[a] + Ints(beg, if m < end then m else end)]
  {
    var it := RangeEach(beg, last, excl);
    assert Elements(it, w) == Ints(beg, if excl then last else last + 1) && First(it) == beg;
    hide Inlined, YieldEach, Calls, Elements, Stopper, WellBehaved, Ints;
    RecordersBehave(x, a, m, v);
    InlinedIsYieldEach(fuel, it, LocalParam(x), Stopper(x, a, m, v), w);
    YieldsElements(fuel, it, LocalParam(x), Stopper(x, a, m, v), w);
    CallsStop(fuel, beg, if excl then last else last + 1, x, a, m, v, w);
  }

  /** A call that pops the receiver. */
  lemma Pops(fuel: nat, p: Param, id: nat, v: Value, w: World)
    requires id in w.arrays && w.arrays[id] != []
    ensures
      var r := Exec(fuel, Pop(Lit(Array(id))), Fresh(p, v), Passed(p, v, w));
      && r.Done? && r.ending == Normal(Undef)
      && r.world.arrays == w.arrays[id := w.arrays[id][..|w.arrays[id]|-1]]
  {}

  lemma {:induction false} DrainsFrom(fuel: nat, id: nat, i: nat, p: Param, w: World, n: nat)
    requires id in w.arrays && 2 * i <= n + 1 && i <= n && |w.arrays[id]| == n - i && fuel >= n - i
    ensures
      var r := YieldEach(fuel, ArrayEach(id), i, p, Pop(Lit(Array(id))), w);
      r.Answer? && r.broke == Undef && r.world.arrays == w.arrays[id := w.arrays[id][..n / 2]]
    decreases n - i
  {
    hide Exec, Fresh, Passed;
    assert i < n - i <==> More(ArrayEach(id), i, w);
    if i < n - i {
      var v := Item(ArrayEach(id), i, w);
      Pops(fuel - 1, p, id, v, w);
      var r := Exec(fuel - 1, Pop(Lit(Array(id))), Fresh(p, v), Passed(p, v, w));
      DrainsFrom(fuel - 1, id, i + 1, p, r.world, n);
      assert w.arrays[id][..n - i - 1][..n / 2] == w.arrays[id][..n / 2];
    } else {
      assert w.arrays[id][..n / 2] == w.arrays[id];
    }
  }

  /** A block that pops the array it is called for, inlined: the length is looked at in every round, so
      the second half of the array is gone when the loop ends. */
  lemma InlinedDrains(fuel: nat, id: nat, p: Param, w: World)
    requires id in w.arrays && fuel >= |w.arrays[id]|
    ensures
      var r := Inlined(fuel, ArrayEach(id), p, Pop(Lit(Array(id))), w);
      r.Answer? && r.broke == Undef && r.world.arrays == w.arrays[id := w.arrays[id][..|w.arrays[id]| / 2]]
  {
    hide Inlined, YieldEach;
    InlinedIsYieldEach(fuel, ArrayEach(id), p, Pop(Lit(Array(id))), w);
    DrainsFrom(fuel, id, 0, p, w, |w.arrays[id]|);
  }

  // ----- the condition is needed -----

  /** Reads a variable of the block before writing it. */
  const STALE := Block(OuterAsgn(0, DVar(Named(1))), DAsgn(Named(1), Lit(Int(7))))

  /** Outside variable 0 receives what the variable of the block held. */
  function StaleSeen(l: Locals, w: World): (r: World) {
    w.(outer := w.outer[0 := Get(l, Named(1))])
  }

  lemma StaleRuns(fuel: nat, l: Locals, w: World)
    ensures Exec(fuel, STALE, l, w) == Done(Normal(Undef), l[Named(1) := Int(7)], StaleSeen(l, w))
  {
    assert Exec(fuel, OuterAsgn(0, DVar(Named(1))), l, w) == Done(Normal(Undef), l, StaleSeen(l, w));
  }

  lemma StaleYields(w: World)
    ensures YieldEach(2, Times(2), 0, NoParam, STALE, w) == Answer(Undef, w.(outer := w.outer[0 := Nil]))
  {
    var w1 := w.(outer := w.outer[0 := Nil]);
    StaleRuns(1, map[], w);
    StaleRuns(0, map[], w1);
    hide Exec;
    assert YieldEach(0, Times(2), 2, NoParam, STALE, w1) == Answer(Undef, w1);
    assert YieldEach(1, Times(2), 1, NoParam, STALE, w1) == Answer(Undef, w1);
  }

  lemma StaleRound(fuel: nat, i: int, l: Locals, w: World)
    requires Get(l, HiddenE) == Int(i)
    ensures Exec(fuel, Round(Times(2), NoParam, STALE), l, w)
            == Done(Normal(Undef), l[Named(1) := Int(7)][HiddenE := Int(i + 1)], StaleSeen(l, w))
  {
    StaleRuns(fuel, l, w);
    var m := l[Named(1) := Int(7)];
    assert Eval(DVar(HiddenE), m, w) == Int(i);
    hide Exec;
    RestOfRound(fuel, STALE, HiddenE, l, w);
  }

  lemma StaleLoop(fuel: nat, i: int, l: Locals, w: World)
    requires AtHead(Times(2), NoParam, i, l) && i <= 2 && fuel >= 2 - i
    ensures
      var r := Exec(fuel, While(Guard(Times(2), NoParam), Round(Times(2), NoParam, STALE)), l, w);
      && r.Done? && r.ending == Normal(Undef)
      && Get(r.world.outer, 0) == if i == 2 then Get(w.outer, 0) else if i == 1 then Get(l, Named(1)) else Int(7)
    decreases 2 - i
  {
    GuardIsMore(Times(2), NoParam, i, l, w);
    if i < 2 {
      StaleRound(fuel - 1, i, l, w);
      StaleLoop(fuel - 1, i + 1, l[Named(1) := Int(7)][HiddenE := Int(i + 1)], StaleSeen(l, w));
    }
  }

  /** A variable of the block that is read before it is written is new in each call of the block, but
      keeps its value in the inlined loop. */
  lemma StaleVariableShows(w: World)
    ensures !WellBehaved(STALE, Params(NoParam))
    ensures Inlined(2, Times(2), NoParam, STALE, w) != YieldEach(2, Times(2), 0, NoParam, STALE, w)
  {
    StaleYields(w);
    var l := Arguments(Times(2), NoParam);
    assert AtHead(Times(2), NoParam, 0, l);
    StaleLoop(2, 0, l, w);
    assert Build(Times(2), NoParam, STALE) == While(Guard(Times(2), NoParam), Round(Times(2), NoParam, STALE));
    hide Exec, YieldEach;
  }
}
