// The other direction: whatever the rules allow, the evaluator computes, if its limits leave room for it. So the rules
// determine one outcome, and it is the evaluator's.

module Replays {
  import opened Options
  import opened Script
  import opened FreeVariables
  import opened Evaluator
  import opened Meaning
  import opened Adequacy

  /** A run costs its steps. */
  ghost function Cost(t: Run): (c: nat)
    ensures c >= 1
    decreases t, 0
  {
    1 + CostAll(t.parts)
  }

  ghost function CostAll(p: seq<Run>): nat
    decreases p, 1
  {
    if p == [] then 0 else Cost(p[0]) + CostAll(p[1..])
  }

  /** The counters of a state. */
  datatype Meter = Meter(nodes: nat, loops: nat, depth: nat)

  ghost function MeterOf(st: State): Meter { Meter(st.nodes, st.loops, st.depth) }

  /** Room for a step and its parts. */
  ghost predicate Room(lim: Limits, m: Meter, c: nat) {
    m.nodes + c <= lim.maxNodes && m.loops + c <= lim.maxLoops + 1 && m.depth + c <= lim.maxDepth
  }

  /** Room for the parts of a step that is counted already; one of them may enter a function. */
  ghost predicate PartsRoom(lim: Limits, m: Meter, c: nat) {
    m.nodes + c <= lim.maxNodes && m.loops + c <= lim.maxLoops && m.depth + 1 + c <= lim.maxDepth
  }

  /** The counters went up by this much at most. */
  ghost predicate Within(end: Meter, start: Meter, nodes: nat, loops: nat) {
    end.nodes <= start.nodes + nodes && end.loops <= start.loops + loops && end.depth == start.depth
  }

  ghost predicate Arrives(end: State, st: State, r: World, c: nat) {
    WorldOf(end) == r && Clean(end) && Within(MeterOf(end), MeterOf(st), c, c)
  }

  ghost predicate Reaches(res: (Value, State), st: State, v: Value, r: World, c: nat) {
    res.0 == v && Arrives(res.1, st, r, c)
  }

  /** Two stretches of a run, one after the other. */
  lemma Onwards(res: (Value, State), middle: State, st: State, w: World, v: Value, r: World, a: nat, b: nat, c: nat)
    requires c == a + b && Arrives(middle, st, w, a) && Reaches(res, middle, v, r, b)
    ensures Reaches(res, st, v, r, c)
  {
  }

  lemma ReachesNow(st: State, v: Value, c: nat)
    requires Clean(st)
    ensures Reaches((v, st), st, v, WorldOf(st), c)
  {
  }

  lemma ReachesThen(end: State, st: State, v: Value, r: World, c: nat)
    requires Arrives(end, st, r, c)
    ensures Reaches((v, end), st, v, r, c)
  {
  }

  lemma Join(end: Meter, middle: Meter, start: Meter, a: nat, b: nat, c: nat)
    requires c == a + b && Within(middle, start, a, a) && Within(end, middle, b, b)
    ensures Within(end, start, c, c)
  {
  }

  lemma Parts(sem: Semantics, p: seq<Run>)
    requires AllSound(sem, p) && p != []
    ensures Sound(sem, p[0]) && AllSound(sem, p[1..]) && CostAll(p) == Cost(p[0]) + CostAll(p[1..])
    ensures |p| == 1 ==> CostAll(p) == Cost(p[0])
    ensures |p| == 2 ==> Sound(sem, p[1]) && CostAll(p) == Cost(p[0]) + Cost(p[1])
  {
    hide Sound, Cost;
    if |p| == 2 {
      assert p[1..] == [p[1]] && p[1..][1..] == [];
    }
  }

  lemma {:induction false} CostSplit(a: seq<Run>, b: seq<Run>)
    ensures CostAll(a + b) == CostAll(a) + CostAll(b)
    decreases |a|
  {
    hide Cost;
    if a == [] {
      assert a + b == b;
    } else {
      CostSplit(a[1..], b);
      assert (a + b)[1..] == a[1..] + b;
    }
  }

  lemma {:induction false} EvalReplays(sem: Semantics, lim: Limits, t: Run, st: State)
    requires Sound(sem, t) && WorldOf(st) == t.before && Clean(st) && Room(lim, MeterOf(st), Cost(t))
    ensures
      var (v, end) := Eval(sem, lim, t.node, st);
      v == t.value && WorldOf(end) == t.after && Clean(end) && Within(MeterOf(end), MeterOf(st), Cost(t), Cost(t) - 1)
    decreases Cost(t), 0
  {
    hide EvalBinary, EvalAssign, EvalIf, EvalWhile, EvalDoWhile, EvalForLoop, EvalBlock, EvalReturn, EvalCall, SnapshotNames,
         ClosureFreeVars, Honest, GetVar, BinaryRule, AssignRule, IfRule, WhileRule, DoWhileRule, ForLoopRule, InOrder,
         ReturnRule, CallRule, Meaning.Holds, Shown, CostAll;
    var s := st.(nodes := st.nodes + 1);
    var p, w, v, r := t.parts, t.before, t.value, t.after;
    match t.node
    case Lit(_) =>
    case Variable(name) => ShownIs(s.scopes, name);
    case Binary(op, left, right) => BinaryReplays(sem, lim, op, left, right, p, s, v, r);
    case Assign(name, value) => AssignReplays(sem, lim, name, value, p, s, v, r);
    case If(cond, thn, els) => IfReplays(sem, lim, cond, thn, els, p, s, v, r);
    case While(cond, body) => WhileReplays(sem, lim, cond, body, p, s, ZERO, v, r);
    case DoWhile(body, cond) => DoWhileReplays(sem, lim, body, cond, p, s, v, r);
    case For(init, guard, post, body) => ForLoopReplays(sem, lim, init, guard, post, body, p, s, v, r);
    case Block(stmts) => BlockReplays(sem, lim, stmts, p, s, ZERO);
    case Return(result) => ReturnReplays(sem, lim, result, p, s, v, r);
    case BreakLoop =>
    case ContinueLoop =>
    case Call(name, args) => CallReplays(sem, lim, name, args, p, s, v, r);
    case FunctionExpr(params, body) => HoldsIs(v.captured, s.scopes, params, body);
  }

  /** One part of a step runs, and there is room for the others. */
  lemma {:induction false} Step(sem: Semantics, lim: Limits, t: Run, st: State, rest: nat, c: nat)
    requires c == Cost(t) + rest && Sound(sem, t) && WorldOf(st) == t.before && Clean(st) && PartsRoom(lim, MeterOf(st), c)
    ensures
      var (v, end) := Eval(sem, lim, t.node, st);
      && v == t.value && Arrives(end, st, t.after, Cost(t)) && WorldOf(end) == t.after && Clean(end)
      && PartsRoom(lim, MeterOf(end), rest)
    decreases Cost(t), 1
  {
    hide Eval, Sound, Cost, Honest;
    EvalReplays(sem, lim, t, st);
  }

  lemma {:induction false} BinaryReplays(sem: Semantics, lim: Limits, op: string, left: Option<Node>, right: Node, p: seq<Run>,
                                         st: State, v: Value, r: World)
    requires AllSound(sem, p) && BinaryRule(sem, op, left, right, p, WorldOf(st), v, r)
    requires Clean(st) && PartsRoom(lim, MeterOf(st), CostAll(p))
    ensures Reaches(EvalBinary(sem, lim, op, left, right, st), st, v, r, CostAll(p))
    decreases CostAll(p), 3
  {
    hide Eval, Sound, AllSound, Honest, Advances, Cost, CostAll, Arrives, Reaches, PartsRoom, Combines, Finish;
    Parts(sem, p);
    if left.None? {
      RightReplays(sem, lim, op, ZERO, right, p[0], st, v, r);
    } else if |p| == 1 {
      Step(sem, lim, p[0], st, 0, CostAll(p));
      ReachesThen(Eval(sem, lim, left.value, st).1, st, v, r, CostAll(p));
    } else {
      var (l, s1) := Eval(sem, lim, left.value, st);
      Step(sem, lim, p[0], st, Cost(p[1]), CostAll(p));
      RightReplays(sem, lim, op, l, right, p[1], s1, v, r);
      var (x, s) := Eval(sem, lim, right, s1);
      assert EvalBinary(sem, lim, op, left, right, st) == if s.flow != Normal then (ZERO, s) else Finish(s, sem.binary(op, l, x));
      Onwards(EvalBinary(sem, lim, op, left, right, st), s1, st, p[0].after, v, r, Cost(p[0]), Cost(p[1]), CostAll(p));
    }
  }

  lemma {:induction false} RightReplays(sem: Semantics, lim: Limits, op: string, l: Value, right: Node, b: Run,
                                        st: State, v: Value, r: World)
    requires Sound(sem, b) && Starts(b, right, WorldOf(st)) && Combines(sem, op, l, b, v, r)
    requires Clean(st) && PartsRoom(lim, MeterOf(st), Cost(b))
    ensures
      var (x, s) := Eval(sem, lim, right, st);
      Reaches(if s.flow != Normal then (ZERO, s) else Finish(s, sem.binary(op, l, x)), st, v, r, Cost(b))
    decreases Cost(b), 2
  {
    hide Eval, Sound, Honest, Advances, Cost, Within, PartsRoom;
    Step(sem, lim, b, st, 0, Cost(b));
  }

  lemma {:induction false} AssignReplays(sem: Semantics, lim: Limits, name: string, value: Node, p: seq<Run>,
                                         st: State, v: Value, r: World)
    requires AllSound(sem, p) && AssignRule(name, value, p, WorldOf(st), v, r)
    requires Clean(st) && PartsRoom(lim, MeterOf(st), CostAll(p))
    ensures Reaches(EvalAssign(sem, lim, name, value, st), st, v, r, CostAll(p))
    decreases CostAll(p), 3
  {
    hide Eval, Sound, AllSound, Honest, Advances, Cost, CostAll, SetVar, GetVar, Assigned, Shown, Within, PartsRoom;
    Parts(sem, p);
    Step(sem, lim, p[0], st, 0, CostAll(p));
    AssignedIs(r.scopes, p[0].after.scopes, name, p[0].value);
    ShownIs(r.scopes, name);
  }

  lemma {:induction false} IfReplays(sem: Semantics, lim: Limits, cond: Node, thn: Option<Node>, els: Option<Node>, p: seq<Run>,
                                     st: State, v: Value, r: World)
    requires AllSound(sem, p) && IfRule(cond, thn, els, p, WorldOf(st), v, r)
    requires Clean(st) && PartsRoom(lim, MeterOf(st), CostAll(p))
    ensures Reaches(EvalIf(sem, lim, cond, thn, els, st), st, v, r, CostAll(p))
    decreases CostAll(p), 3
  {
    hide Eval, Sound, AllSound, Honest, Advances, Cost, CostAll, Truthy, IsTrue, Within, PartsRoom;
    Parts(sem, p);
    TruthyIs(p[0].value);
    if |p| == 1 {
      Step(sem, lim, p[0], st, 0, CostAll(p));
    } else {
      var s1 := Eval(sem, lim, cond, st).1;
      Step(sem, lim, p[0], st, Cost(p[1]), CostAll(p));
      Step(sem, lim, p[1], s1, 0, Cost(p[1]));
      var s2 := Eval(sem, lim, p[1].node, s1).1;
      Join(MeterOf(s2), MeterOf(s1), MeterOf(st), Cost(p[0]), Cost(p[1]), CostAll(p));
    }
  }

  lemma {:induction false} ReturnReplays(sem: Semantics, lim: Limits, result: Option<Node>, p: seq<Run>,
                                         st: State, v: Value, r: World)
    requires AllSound(sem, p) && ReturnRule(result, p, WorldOf(st), v, r)
    requires Clean(st) && PartsRoom(lim, MeterOf(st), CostAll(p))
    ensures Reaches(EvalReturn(sem, lim, result, st), st, v, r, CostAll(p))
    decreases CostAll(p), 3
  {
    hide Eval, Sound, AllSound, Honest, Advances, Cost, CostAll, Within, PartsRoom;
    if result.Some? {
      Parts(sem, p);
      Step(sem, lim, p[0], st, 0, CostAll(p));
    } else {
      Unmoved(MeterOf(st), CostAll(p));
    }
  }

  lemma Unmoved(m: Meter, c: nat)
    ensures Within(m, m, c, c)
  {
  }

  lemma {:induction false} BlockReplays(sem: Semantics, lim: Limits, stmts: seq<Node>, p: seq<Run>, st: State, last: Value)
    requires AllSound(sem, p) && InOrder(p, stmts, WorldOf(st)) && Clean(st) && PartsRoom(lim, MeterOf(st), CostAll(p))
    ensures Reaches(EvalBlock(sem, lim, stmts, st, last), st, ValueOf(p, last), EndOf(p, WorldOf(st)), CostAll(p))
    decreases CostAll(p), 3
  {
    hide Eval, Sound, AllSound, Honest, Advances, Cost, CostAll, Within, PartsRoom;
    if stmts == [] {
      Unmoved(MeterOf(st), CostAll(p));
    } else {
      Parts(sem, p);
      Step(sem, lim, p[0], st, CostAll(p[1..]), CostAll(p));
      var (v, s1) := Eval(sem, lim, stmts[0], st);
      if s1.flow == Normal {
        BlockReplays(sem, lim, stmts[1..], p[1..], s1, v);
        var s2 := EvalBlock(sem, lim, stmts[1..], s1, v).1;
        Join(MeterOf(s2), MeterOf(s1), MeterOf(st), Cost(p[0]), CostAll(p[1..]), CostAll(p));
      }
    }
  }

  lemma {:induction false} ArgsReplays(sem: Semantics, lim: Limits, args: seq<Node>, p: seq<Run>, st: State, vals: seq<Value>)
    requires AllSound(sem, p) && InOrder(p, args, WorldOf(st)) && Clean(st) && PartsRoom(lim, MeterOf(st), CostAll(p))
    ensures
      var (vs, end) := EvalArgs(sem, lim, args, st, vals);
      vs == vals + Values(p) && Arrives(end, st, EndOf(p, WorldOf(st)), CostAll(p))
    decreases CostAll(p), 2
  {
    hide Eval, Sound, AllSound, Honest, Advances, Cost, CostAll, Within, PartsRoom;
    if args == [] {
      Unmoved(MeterOf(st), CostAll(p));
    } else {
      Parts(sem, p);
      Step(sem, lim, p[0], st, CostAll(p[1..]), CostAll(p));
      var (v, s1) := Eval(sem, lim, args[0], st);
      if s1.flow == Normal {
        ArgsReplays(sem, lim, args[1..], p[1..], s1, vals + [v]);
        var s2 := EvalArgs(sem, lim, args[1..], s1, vals + [v]).1;
        Join(MeterOf(s2), MeterOf(s1), MeterOf(st), Cost(p[0]), CostAll(p[1..]), CostAll(p));
        assert vals + Values(p) == (vals + [v]) + Values(p[1..]);
      } else {
        assert vals + Values(p) == vals + [v];
      }
    }
  }

  lemma {:induction false} CallReplays(sem: Semantics, lim: Limits, name: string, args: seq<Node>, p: seq<Run>,
                                       st: State, v: Value, r: World)
    requires AllSound(sem, p) && CallRule(sem, name, args, p, WorldOf(st), v, r)
    requires Clean(st) && PartsRoom(lim, MeterOf(st), CostAll(p))
    ensures Reaches(EvalCall(sem, lim, name, args, st), st, v, r, CostAll(p))
    decreases CostAll(p), 4
  {
    hide Sound, Honest, Advances, Cost, CostAll, Within, PartsRoom, Called, InOrder;
    var a, b :| p == a + b && InOrder(a, args, WorldOf(st)) && Called(sem, name, a, b, WorldOf(st), v, r);
    CostSplit(a, b);
    assert AllSound(sem, a) && AllSound(sem, b);
    hide AllSound;
    CalledReplays(sem, lim, name, args, a, b, st, v, r, CostAll(p));
  }

  lemma {:induction false} CalledReplays(sem: Semantics, lim: Limits, name: string, args: seq<Node>, a: seq<Run>, b: seq<Run>,
                                         st: State, v: Value, r: World, c: nat)
    requires AllSound(sem, a) && AllSound(sem, b) && InOrder(a, args, WorldOf(st)) && Called(sem, name, a, b, WorldOf(st), v, r)
    requires c == CostAll(a) + CostAll(b) && Clean(st) && PartsRoom(lim, MeterOf(st), c)
    ensures Reaches(EvalCall(sem, lim, name, args, st), st, v, r, c)
    decreases c, 3
  {
    hide Eval, EvalArgs, CallClosure, Sound, AllSound, Honest, Advances, GetVar, Shown, InOrder, Enters, HandsOver, Cost,
         CostAll, Within;
    var none: seq<Value> := [];
    ArgsReplays(sem, lim, args, a, st, none);
    var (vs, s1) := EvalArgs(sem, lim, args, st, none);
    assert none + Values(a) == Values(a);
    ShownIs(st.scopes, name);
    ShownIs(s1.scopes, name);
    var f := Callee(st.scopes, s1.scopes, name);
    if f.Closure? {
      Parts(sem, b);
      Onward(lim, MeterOf(s1), MeterOf(st), CostAll(a), Cost(b[0]), c);
      BodyReplays(sem, lim, f, vs, b[0], s1, v, r);
      Join(MeterOf(CallClosure(sem, lim, f, vs, s1).1), MeterOf(s1), MeterOf(st), CostAll(a), Cost(b[0]), c);
    } else {
      NoCost();
    }
  }

  lemma NoCost()
    ensures CostAll([]) == 0
  {
  }

  lemma Onward(lim: Limits, middle: Meter, start: Meter, a: nat, b: nat, c: nat)
    requires c == a + b && Within(middle, start, a, a) && PartsRoom(lim, start, c)
    ensures PartsRoom(lim, middle, b)
  {
  }

  lemma {:induction false} BodyReplays(sem: Semantics, lim: Limits, f: Value, args: seq<Value>, t: Run, st: State,
                                       v: Value, r: World)
    requires f.Closure? && Sound(sem, t) && Enters(t, f, args) && HandsOver(t, WorldOf(st), v, r)
    requires Clean(st) && PartsRoom(lim, MeterOf(st), Cost(t))
    ensures Reaches(CallClosure(sem, lim, f, args, st), st, v, r, Cost(t))
    decreases Cost(t), 1
  {
    hide Eval, Sound, Honest, Advances, BindParams, Import, Bound, Cost;
    var frame := Frame(f, args, st.(depth := st.depth + 1));
    BoundIs(t.before.scopes[0], f.captured, f.params, args);
    assert t.before.scopes == [t.before.scopes[0], t.before.scopes[1]];
    EvalReplays(sem, lim, t, frame);
  }

  // ----- loops -----

  lemma {:induction false} LoopBodyReplays(sem: Semantics, lim: Limits, body: Node, b: Run, st: State, last: Value, rest: nat, c: nat)
    requires c == Cost(b) + rest && Sound(sem, b) && Starts(b, body, WorldOf(st)) && Clean(st) && PartsRoom(lim, MeterOf(st), c)
    ensures
      var t := LoopBody(sem, lim, body, st, last);
      && (t.Stop? <==> BodyLeaves(b)) && t.value == b.value
      && Arrives(t.st, st, Left(b), Cost(b)) && WorldOf(t.st) == Left(b) && Clean(t.st)
      && PartsRoom(lim, MeterOf(t.st), rest)
    decreases Cost(b), 1
  {
    hide Eval, Sound, Honest, Advances, Cost;
    EvalReplays(sem, lim, b, LoopTick(lim, st).0);
  }

  lemma {:induction false} TestReplays(sem: Semantics, lim: Limits, cond: Node, a: Run, st: State, rest: nat, c: nat)
    requires c == Cost(a) + rest && Sound(sem, a) && Starts(a, cond, WorldOf(st)) && Clean(st) && PartsRoom(lim, MeterOf(st), c)
    ensures
      var (x, s1) := Eval(sem, lim, cond, st);
      && x == a.value && Arrives(s1, st, a.after, Cost(a)) && WorldOf(s1) == a.after && Clean(s1)
      && PartsRoom(lim, MeterOf(s1), rest)
      && (Passes(a) <==> !Leaves(x, s1))
    decreases Cost(a), 2
  {
    hide Eval, Sound, Honest, Advances, Cost, Truthy, IsTrue, PartsRoom, Within;
    Step(sem, lim, a, st, rest, c);
    TruthyIs(a.value);
  }

  lemma {:induction false} WhileReplays(sem: Semantics, lim: Limits, cond: Node, body: Node, p: seq<Run>, st: State, last: Value,
                                        v: Value, r: World)
    requires AllSound(sem, p) && WhileRule(cond, body, p, WorldOf(st), last, v, r)
    requires Clean(st) && PartsRoom(lim, MeterOf(st), CostAll(p))
    ensures Reaches(EvalWhile(sem, lim, cond, body, st, last), st, v, r, CostAll(p))
    decreases CostAll(p), 4
  {
    hide Eval, EvalWhile, WhileTurn, LoopBody, Sound, AllSound, Honest, Advances, Leaves, Passes, WhileBody, Cost, CostAll,
         Arrives, Reaches, PartsRoom;
    UnfoldWhile(sem, lim, cond, body, st, last);
    WhileTurnCases(sem, lim, cond, body, st, last);
    if st.flow == Normal || st.flow == Continue {
      Parts(sem, p);
      var s := st.(flow := Normal);
      TestReplays(sem, lim, cond, p[0], s, CostAll(p[1..]), CostAll(p));
      var (x, s1) := Eval(sem, lim, cond, s);
      if Leaves(x, s1) {
        ReachesThen(s1, s, v, r, CostAll(p));
      } else {
        WhileBodyReplays(sem, lim, cond, body, p[1..], s1, last, v, r);
        Onwards(EvalWhile(sem, lim, cond, body, st, last), s1, s, p[0].after, v, r, Cost(p[0]), CostAll(p[1..]), CostAll(p));
      }
      SameMeter(EvalWhile(sem, lim, cond, body, st, last), s, st, v, r, CostAll(p));
    } else {
      ReachesNow(st, last, CostAll(p));
    }
  }

  lemma SameMeter(res: (Value, State), s: State, st: State, v: Value, r: World, c: nat)
    requires MeterOf(s) == MeterOf(st) && Reaches(res, s, v, r, c)
    ensures Reaches(res, st, v, r, c)
  {
  }

  /** The turn so far, and the rest of the loop. */
  lemma {:induction false} WhileBodyReplays(sem: Semantics, lim: Limits, cond: Node, body: Node, p: seq<Run>, st: State,
                                            last: Value, v: Value, r: World)
    requires AllSound(sem, p) && WhileBody(cond, body, p, WorldOf(st), v, r)
    requires Clean(st) && PartsRoom(lim, MeterOf(st), CostAll(p))
    ensures
      var t := LoopBody(sem, lim, body, st, last);
      Reaches(if t.Stop? then (t.value, t.st) else EvalWhile(sem, lim, cond, body, t.st, t.value), st, v, r, CostAll(p))
    decreases CostAll(p), 3
  {
    hide Eval, EvalWhile, LoopBody, Sound, AllSound, Honest, Advances, WhileRule, Cost, CostAll, Arrives, Reaches, PartsRoom;
    Parts(sem, p);
    LoopBodyReplays(sem, lim, body, p[0], st, last, CostAll(p[1..]), CostAll(p));
    var t := LoopBody(sem, lim, body, st, last);
    if t.Again? {
      WhileReplays(sem, lim, cond, body, p[1..], t.st, t.value, v, r);
      Onwards(EvalWhile(sem, lim, cond, body, t.st, t.value), t.st, st, p[0].after, v, r, Cost(p[0]), CostAll(p[1..]), CostAll(p));
    } else {
      ReachesThen(t.st, st, t.value, r, CostAll(p));
    }
  }

  lemma {:induction false} DoWhileReplays(sem: Semantics, lim: Limits, body: Node, cond: Node, p: seq<Run>, st: State,
                                          v: Value, r: World)
    requires AllSound(sem, p) && DoWhileRule(body, cond, p, WorldOf(st), v, r)
    requires Clean(st) && PartsRoom(lim, MeterOf(st), CostAll(p))
    ensures Reaches(EvalDoWhile(sem, lim, body, cond, st), st, v, r, CostAll(p))
    decreases CostAll(p), 4
  {
    hide Eval, EvalDoWhile, DoWhileTurn, DoWhileTest, Sound, AllSound, Honest, Advances, DoWhileRest, Cost, CostAll, Arrives, Reaches,
         PartsRoom;
    UnfoldDoWhile(sem, lim, body, cond, st);
    DoWhileTurnCases(sem, lim, body, cond, st);
    Parts(sem, p);
    Step(sem, lim, p[0], st, CostAll(p[1..]), CostAll(p));
    var (x, s1) := Eval(sem, lim, body, st);
    if s1.flow != Break && s1.flow != Flow.Return {
      DoWhileRestReplays(sem, lim, body, cond, p[1..], BeforeTest(s1), x, v, r);
      SameMeter(EvalDoWhile(sem, lim, body, cond, st), BeforeTest(s1), s1, v, r, CostAll(p[1..]));
      Onwards(EvalDoWhile(sem, lim, body, cond, st), s1, st, p[0].after, v, r, Cost(p[0]), CostAll(p[1..]), CostAll(p));
    } else {
      BrokenOff(s1, st, x, p[0].after, r, CostAll(p));
    }
  }

  /** A break is used up where the loop ends. */
  lemma BrokenOff(s: State, st: State, v: Value, w: World, r: World, c: nat)
    requires Arrives(s, st, w, c) && r == if w.flow == Break then w.(flow := Normal) else w
    ensures Reaches((v, if s.flow == Break then s.(flow := Normal) else s), st, v, r, c)
  {
  }

  /** A test that passes and the count of the turn stay within what the test costs. */
  lemma {:induction false} CountedTest(sem: Semantics, lim: Limits, cond: Node, a: Run, st: State, last: Value, rest: nat, c: nat)
    requires c == Cost(a) + rest && Sound(sem, a) && Starts(a, cond, WorldOf(st)) && Clean(st) && PartsRoom(lim, MeterOf(st), c)
    ensures
      var t := DoWhileTest(sem, lim, cond, st, last);
      && (t.Again? <==> Passes(a)) && (t.Stop? ==> t.value == last)
      && Arrives(t.st, st, a.after, Cost(a)) && WorldOf(t.st) == a.after && Clean(t.st)
      && PartsRoom(lim, MeterOf(t.st), rest)
    decreases Cost(a), 1
  {
    hide Eval, Sound, Honest, Advances, Cost, Truthy, IsTrue;
    EvalReplays(sem, lim, a, st);
    TruthyIs(a.value);
  }

  lemma {:induction false} DoWhileRestReplays(sem: Semantics, lim: Limits, body: Node, cond: Node, p: seq<Run>, st: State,
                                              last: Value, v: Value, r: World)
    requires AllSound(sem, p) && DoWhileRest(body, cond, p, WorldOf(st), last, v, r)
    requires Clean(st) && PartsRoom(lim, MeterOf(st), CostAll(p))
    ensures
      var t := DoWhileTest(sem, lim, cond, st, last);
      Reaches(if t.Stop? then (t.value, t.st) else EvalDoWhile(sem, lim, body, cond, t.st), st, v, r, CostAll(p))
    decreases CostAll(p), 3
  {
    hide Eval, EvalDoWhile, DoWhileTest, Sound, AllSound, Honest, Advances, Passes, DoWhileRule, Cost, CostAll, Arrives, Reaches, PartsRoom;
    Parts(sem, p);
    CountedTest(sem, lim, cond, p[0], st, last, CostAll(p[1..]), CostAll(p));
    var t := DoWhileTest(sem, lim, cond, st, last);
    if t.Again? {
      DoWhileReplays(sem, lim, body, cond, p[1..], t.st, v, r);
      Onwards(EvalDoWhile(sem, lim, body, cond, t.st), t.st, st, p[0].after, v, r, Cost(p[0]), CostAll(p[1..]), CostAll(p));
    } else {
      ReachesThen(t.st, st, t.value, r, CostAll(p));
    }
  }

  lemma {:induction false} ForReplays(sem: Semantics, lim: Limits, guard: Option<Node>, post: Option<Node>, body: Node,
                                      p: seq<Run>, st: State, last: Value, v: Value, r: World)
    requires AllSound(sem, p) && ForRule(guard, post, body, p, WorldOf(st), last, v, r)
    requires Clean(st) && PartsRoom(lim, MeterOf(st), CostAll(p))
    ensures Reaches(EvalFor(sem, lim, guard, post, body, st, last), st, v, r, CostAll(p))
    decreases CostAll(p), 5
  {
    hide Eval, EvalFor, ForTurn, ForPost, LoopBody, Sound, AllSound, Honest, Advances, Leaves, Passes, ForBody, Cost, CostAll,
         Arrives, Reaches, PartsRoom;
    UnfoldFor(sem, lim, guard, post, body, st, last);
    ForTurnCases(sem, lim, guard, post, body, st, last);
    if guard.None? {
      ForBodyReplays(sem, lim, guard, post, body, p, st, last, v, r);
    } else {
      ForGuardReplays(sem, lim, guard.value, post, body, p, st, last, v, r);
    }
  }

  lemma {:induction false} ForGuardReplays(sem: Semantics, lim: Limits, guard: Node, post: Option<Node>, body: Node,
                                           p: seq<Run>, st: State, last: Value, v: Value, r: World)
    requires AllSound(sem, p) && |p| >= 1 && Starts(p[0], guard, WorldOf(st))
    requires if !Passes(p[0]) then |p| == 1 && v == last && r == p[0].after
             else ForBody(Some(guard), post, body, p[1..], p[0].after, v, r)
    requires Clean(st) && PartsRoom(lim, MeterOf(st), CostAll(p))
    ensures
      var (x, s1) := Eval(sem, lim, guard, st);
      var t := ForPost(sem, lim, post, LoopBody(sem, lim, body, s1, last));
      && (Leaves(x, s1) ==> Reaches((last, s1), st, v, r, CostAll(p)))
      && (!Leaves(x, s1) ==>
           Reaches(if t.Stop? then (t.value, t.st) else EvalFor(sem, lim, Some(guard), post, body, t.st, t.value), st, v, r, CostAll(p)))
    decreases CostAll(p), 3
  {
    hide Eval, EvalFor, ForPost, LoopBody, Sound, AllSound, Honest, Advances, Leaves, Passes, ForBody, Cost, CostAll,
         Arrives, Reaches, PartsRoom;
    Parts(sem, p);
    TestReplays(sem, lim, guard, p[0], st, CostAll(p[1..]), CostAll(p));
    var (x, s1) := Eval(sem, lim, guard, st);
    if Leaves(x, s1) {
      ReachesThen(s1, st, last, r, CostAll(p));
    } else {
      ForBodyReplays(sem, lim, Some(guard), post, body, p[1..], s1, last, v, r);
      var t := ForPost(sem, lim, post, LoopBody(sem, lim, body, s1, last));
      var res := if t.Stop? then (t.value, t.st) else EvalFor(sem, lim, Some(guard), post, body, t.st, t.value);
      Onwards(res, s1, st, p[0].after, v, r, Cost(p[0]), CostAll(p[1..]), CostAll(p));
    }
  }

  lemma {:induction false} ForBodyReplays(sem: Semantics, lim: Limits, guard: Option<Node>, post: Option<Node>, body: Node,
                                          p: seq<Run>, st: State, last: Value, v: Value, r: World)
    requires AllSound(sem, p) && ForBody(guard, post, body, p, WorldOf(st), v, r)
    requires Clean(st) && PartsRoom(lim, MeterOf(st), CostAll(p))
    ensures
      var t := ForPost(sem, lim, post, LoopBody(sem, lim, body, st, last));
      Reaches(if t.Stop? then (t.value, t.st) else EvalFor(sem, lim, guard, post, body, t.st, t.value), st, v, r, CostAll(p))
    decreases CostAll(p), 3
  {
    hide Eval, EvalFor, LoopBody, ForPost, Sound, AllSound, Honest, Advances, ForRule, Cost, CostAll, Arrives, Reaches, PartsRoom;
    Parts(sem, p);
    LoopBodyReplays(sem, lim, body, p[0], st, last, CostAll(p[1..]), CostAll(p));
    var t := LoopBody(sem, lim, body, st, last);
    NoPost(sem, lim, post, t);
    if t.Again? {
      var u := ForPost(sem, lim, post, t);
      if post.None? {
        ForReplays(sem, lim, guard, post, body, p[1..], t.st, t.value, v, r);
      } else {
        ForPostReplays(sem, lim, guard, post.value, body, p[0], p[1..], t, v, r);
      }
      var res := if u.Stop? then (u.value, u.st) else EvalFor(sem, lim, guard, post, body, u.st, u.value);
      Onwards(res, t.st, st, p[0].after, v, r, Cost(p[0]), CostAll(p[1..]), CostAll(p));
    } else {
      ReachesThen(t.st, st, t.value, r, CostAll(p));
    }
  }

  lemma NoPost(sem: Semantics, lim: Limits, post: Option<Node>, t: Turn)
    ensures t.Stop? || post.None? ==> ForPost(sem, lim, post, t) == t
  {
  }

  lemma {:induction false} ForPostReplays(sem: Semantics, lim: Limits, guard: Option<Node>, post: Node, body: Node,
                                          b: Run, p: seq<Run>, t: Turn, v: Value, r: World)
    requires t.Again? && t.value == b.value && WorldOf(t.st) == b.after
    requires AllSound(sem, p) && Clean(t.st) && PartsRoom(lim, MeterOf(t.st), CostAll(p))
    requires |p| >= 1 && Starts(p[0], post, b.after)
    requires
      if p[0].after.flow != Normal && p[0].after.flow != Continue then |p| == 1 && v == b.value && r == p[0].after
      else ForRule(guard, Some(post), body, p[1..], p[0].after.(flow := Normal), b.value, v, r)
    ensures
      var u := ForPost(sem, lim, Some(post), t);
      Reaches(if u.Stop? then (u.value, u.st) else EvalFor(sem, lim, guard, Some(post), body, u.st, u.value), t.st, v, r, CostAll(p))
    decreases CostAll(p), 5
  {
    hide Eval, EvalFor, Sound, AllSound, Honest, Advances, ForRule, Cost, CostAll, Arrives, Reaches, PartsRoom;
    Parts(sem, p);
    Step(sem, lim, p[0], t.st, CostAll(p[1..]), CostAll(p));
    var u := ForPost(sem, lim, Some(post), t);
    var s := Eval(sem, lim, post, t.st).1;
    if u.Again? {
      var res := EvalFor(sem, lim, guard, Some(post), body, u.st, u.value);
      ForReplays(sem, lim, guard, Some(post), body, p[1..], u.st, u.value, v, r);
      SameMeter(res, u.st, s, v, r, CostAll(p[1..]));
      Onwards(res, s, t.st, p[0].after, v, r, Cost(p[0]), CostAll(p[1..]), CostAll(p));
    } else {
      ReachesThen(s, t.st, u.value, r, CostAll(p));
    }
  }

  lemma {:induction false} ForLoopReplays(sem: Semantics, lim: Limits, init: Option<Node>, guard: Option<Node>, post: Option<Node>,
                                          body: Node, p: seq<Run>, st: State, v: Value, r: World)
    requires AllSound(sem, p) && ForLoopRule(init, guard, post, body, p, WorldOf(st), v, r)
    requires Clean(st) && PartsRoom(lim, MeterOf(st), CostAll(p))
    ensures Reaches(EvalForLoop(sem, lim, init, guard, post, body, st), st, v, r, CostAll(p))
    decreases CostAll(p), 6
  {
    hide Eval, EvalFor, Sound, AllSound, Honest, Advances, ForRule, Cost, CostAll, Arrives, Reaches, PartsRoom;
    if init.Some? {
      ForInitReplays(sem, lim, init, guard, post, body, p, st, v, r);
    } else if st.flow == Normal {
      ForReplays(sem, lim, guard, post, body, p, st, ZERO, v, r);
    } else {
      ReachesNow(st, ZERO, CostAll(p));
    }
  }

  lemma {:induction false} ForInitReplays(sem: Semantics, lim: Limits, init: Option<Node>, guard: Option<Node>, post: Option<Node>,
                                          body: Node, p: seq<Run>, st: State, v: Value, r: World)
    requires init.Some? && AllSound(sem, p) && ForLoopRule(init, guard, post, body, p, WorldOf(st), v, r)
    requires Clean(st) && PartsRoom(lim, MeterOf(st), CostAll(p))
    ensures Reaches(EvalForLoop(sem, lim, init, guard, post, body, st), st, v, r, CostAll(p))
    decreases CostAll(p), 5
  {
    hide Eval, EvalFor, Sound, AllSound, Honest, Advances, ForRule, Cost, CostAll, Arrives, Reaches, PartsRoom;
    Parts(sem, p);
    Step(sem, lim, p[0], st, CostAll(p[1..]), CostAll(p));
    var s1 := Eval(sem, lim, init.value, st).1;
    if s1.flow == Normal {
      ForReplays(sem, lim, guard, post, body, p[1..], s1, ZERO, v, r);
      Onwards(EvalFor(sem, lim, guard, post, body, s1, ZERO), s1, st, p[0].after, v, r, Cost(p[0]), CostAll(p[1..]), CostAll(p));
    } else {
      ReachesThen(s1, st, ZERO, r, CostAll(p));
    }
  }

  // ----- the results -----

  ghost function StateOf(w: World): State { State(w.scopes, w.flow, w.returned, w.error, false, 0, 0, 0, false) }

  /** The rules determine the outcome. */
  lemma MeaningUnique(sem: Semantics, node: Node, w: World, v: Value, r: World, v': Value, r': World)
    requires Means(sem, node, w, v, r) && Means(sem, node, w, v', r')
    ensures v' == v && r' == r
  {
    hide Sound, Cost, Eval;
    var t :| Sound(sem, t) && Starts(t, node, w) && t.value == v && t.after == r;
    var t' :| Sound(sem, t') && Starts(t', node, w) && t'.value == v' && t'.after == r';
    var c := Cost(t) + Cost(t');
    EvalReplays(sem, Limits(c, c, c), t, StateOf(w));
    EvalReplays(sem, Limits(c, c, c), t', StateOf(w));
  }

  /** A run that passes no limit has exactly the outcome the rules give it: value, flow, variables, error. */
  lemma EveryRunMeans(sem: Semantics, lim: Limits, node: Node, st: State)
    requires Clean(st) && !Eval(sem, lim, node, st).1.overrun
    ensures
      var (v, end) := Eval(sem, lim, node, st);
      forall v', r' :: Means(sem, node, WorldOf(st), v', r') <==> v' == v && r' == WorldOf(end)
  {
    hide Eval, Sound;
    var (v, end) := Eval(sem, lim, node, st);
    var t := EvalRuns(sem, lim, node, st);
    assert Means(sem, node, WorldOf(st), v, WorldOf(end));
    forall v', r' | Means(sem, node, WorldOf(st), v', r') ensures v' == v && r' == WorldOf(end) {
      MeaningUnique(sem, node, WorldOf(st), v, WorldOf(end), v', r');
    }
  }

  /** The evaluator comes to this outcome from this world, under some limits, without passing any. */
  ghost predicate Computes(sem: Semantics, node: Node, w: World, v: Value, r: World) {
    exists lim, st :: ComputesFrom(sem, lim, node, st, w, v, r)
  }

  ghost predicate ComputesFrom(sem: Semantics, lim: Limits, node: Node, st: State, w: World, v: Value, r: World) {
    var (x, end) := Eval(sem, lim, node, st);
    Clean(st) && WorldOf(st) == w && !end.overrun && x == v && WorldOf(end) == r
  }

  /** The rules allow exactly the outcomes that the evaluator computes under limits it does not pass. */
  lemma MeaningExactly(sem: Semantics, node: Node, w: World, v: Value, r: World)
    ensures Means(sem, node, w, v, r) <==> Computes(sem, node, w, v, r)
  {
    hide Sound, Cost, Eval;
    if Means(sem, node, w, v, r) {
      var t :| Sound(sem, t) && Starts(t, node, w) && t.value == v && t.after == r;
      var lim := Limits(Cost(t), Cost(t), Cost(t));
      EvalReplays(sem, lim, t, StateOf(w));
      assert ComputesFrom(sem, lim, node, StateOf(w), w, v, r);
    }
    if Computes(sem, node, w, v, r) {
      var lim, st :| ComputesFrom(sem, lim, node, st, w, v, r);
      EveryRunMeans(sem, lim, node, st);
    }
  }

  // ----- three instances -----

  lemma LiteralRun(sem: Semantics, lim: Limits, l: Literal, x: Value, st: State)
    requires Clean(st) && st.nodes < lim.maxNodes && Denotes(l, x)
    ensures Eval(sem, lim, Lit(l), st) == (x, st.(nodes := st.nodes + 1))
  {
    hide GetVar, Honest;
  }

  /** An operator gets its left operand first. */
  lemma BinaryOfLiterals(sem: Semantics, lim: Limits, op: string, a: Literal, b: Literal, x: Value, y: Value, st: State)
    requires Clean(st) && st.flow == Normal && st.nodes + 3 <= lim.maxNodes && Denotes(a, x) && Denotes(b, y)
    ensures
      var (v, end) := Eval(sem, lim, Binary(op, Some(Lit(a)), Lit(b)), st);
      var spent := st.(nodes := st.nodes + 3);
      match sem.binary(op, x, y)
      case Result(z) => v == z && end == spent
      case Error(e) => v == ZERO && end == spent.(flow := Throw, error := e)
  {
    var s := st.(nodes := st.nodes + 1);
    LiteralRun(sem, lim, a, x, s);
    LiteralRun(sem, lim, b, y, s.(nodes := s.nodes + 1));
    assert Eval(sem, lim, Binary(op, Some(Lit(a)), Lit(b)), st) == EvalBinary(sem, lim, op, Some(Lit(a)), Lit(b), s);
    hide Eval, Denotes, Honest;
  }

  /** A builtin gets its arguments in order. */
  lemma BuiltinOfLiterals(sem: Semantics, lim: Limits, name: string, a: Literal, b: Literal, x: Value, y: Value, st: State)
    requires Clean(st) && st.flow == Normal && st.nodes + 3 <= lim.maxNodes && Denotes(a, x) && Denotes(b, y)
    requires !Shown(st.scopes, name).Closure?
    ensures
      var (v, end) := Eval(sem, lim, Call(name, [Lit(a), Lit(b)]), st);
      var spent := st.(nodes := st.nodes + 3);
      match sem.builtin(name, [x, y])
      case Result(z) => v == z && end == spent
      case Error(e) => v == ZERO && end == spent.(flow := Throw, error := e)
  {
    var s := st.(nodes := st.nodes + 1);
    var end := st.(nodes := st.nodes + 3);
    TwoArguments(sem, lim, a, b, x, y, s);
    ShownIs(st.scopes, name);
    assert Eval(sem, lim, Call(name, [Lit(a), Lit(b)]), st) == EvalCall(sem, lim, name, [Lit(a), Lit(b)], s);
    hide Eval, EvalArgs, Denotes, Honest, Shown, GetVar;
  }

  lemma TwoArguments(sem: Semantics, lim: Limits, a: Literal, b: Literal, x: Value, y: Value, st: State)
    requires Clean(st) && st.flow == Normal && st.nodes + 2 <= lim.maxNodes && Denotes(a, x) && Denotes(b, y)
    ensures EvalArgs(sem, lim, [Lit(a), Lit(b)], st, []) == ([x, y], st.(nodes := st.nodes + 2))
  {
    hide Eval, Denotes, Honest;
    var none: seq<Value> := [];
    var s := st.(nodes := st.nodes + 1);
    LiteralRun(sem, lim, a, x, st);
    LiteralRun(sem, lim, b, y, s);
    assert [Lit(a), Lit(b)][1..] == [Lit(b)] && [Lit(b)][1..] == [];
    assert none + [x] == [x] && [x] + [y] == [x, y];
    assert EvalArgs(sem, lim, [Lit(b)], s, [x]) == ([x, y], s.(nodes := s.nodes + 1));
  }

  /** What a function returns is what its caller gets. */
  lemma ReturnOfLiteral(sem: Semantics, lim: Limits, f: Value, l: Literal, x: Value, args: seq<Value>, st: State)
    requires f.Closure? && f.body == Node.Return(Some(Lit(l))) && Denotes(l, x)
    requires st.nodes + 2 <= lim.maxNodes && st.depth + 1 <= lim.maxDepth
    ensures CallClosure(sem, lim, f, args, st) == (x, st.(nodes := st.nodes + 2, aborted := false))
  {
    var frame := Frame(f, args, st.(depth := st.depth + 1));
    FrameReturns(sem, lim, l, x, frame);
    hide Eval, Denotes, Honest, BindParams, Import;
  }

  lemma FrameReturns(sem: Semantics, lim: Limits, l: Literal, x: Value, st: State)
    requires !st.aborted && st.flow == Normal && st.nodes + 2 <= lim.maxNodes && Denotes(l, x)
    ensures Eval(sem, lim, Node.Return(Some(Lit(l))), st) == (x, st.(nodes := st.nodes + 2, returned := x, flow := Flow.Return))
  {
    var s := st.(nodes := st.nodes + 1);
    assert Eval(sem, lim, Lit(l), s) == (x, s.(nodes := s.nodes + 1));
    assert EvalOption(sem, lim, Some(Lit(l)), s) == (x, s.(nodes := s.nodes + 1));
    assert EvalReturn(sem, lim, Some(Lit(l)), s) == (x, s.(nodes := s.nodes + 1, returned := x, flow := Flow.Return));
    assert Eval(sem, lim, Node.Return(Some(Lit(l))), st) == EvalReturn(sem, lim, Some(Lit(l)), s);
    hide Eval, Denotes, Honest;
  }
}
