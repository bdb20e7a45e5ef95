// The evaluator computes what a script means: a run that passes no limit is a run by the rules, and every run by the
// rules is computed under limits that leave room for it.

module Adequacy {
  import opened Options
  import opened Script
  import opened FreeVariables
  import opened Evaluator
  import opened Meaning

  ghost function WorldOf(st: State): World { World(st.scopes, st.flow, st.returned, st.error) }

  /** No limit has been passed in this run. */
  ghost predicate Clean(st: State) { !st.aborted && !st.overrun }

  lemma TruthyIs(v: Value)
    ensures IsTrue(v) <==> Truthy(v)
  {
  }

  lemma SoundNone(sem: Semantics)
    ensures AllSound(sem, [])
  {
    hide Sound;
  }

  lemma SoundOne(sem: Semantics, a: Run)
    requires Sound(sem, a)
    ensures AllSound(sem, [a])
  {
    hide Sound;
  }

  lemma SoundTwo(sem: Semantics, a: Run, b: Run)
    requires Sound(sem, a) && Sound(sem, b)
    ensures AllSound(sem, [a, b])
  {
    hide Sound;
  }

  lemma SoundMore(sem: Semantics, a: Run, q: seq<Run>)
    requires Sound(sem, a) && AllSound(sem, q)
    ensures AllSound(sem, [a] + q)
  {
    hide Sound;
  }

  lemma SoundBoth(sem: Semantics, a: seq<Run>, b: seq<Run>)
    requires AllSound(sem, a) && AllSound(sem, b)
    ensures AllSound(sem, a + b)
  {
    hide Sound;
  }

  // ----- from the evaluator to the rules -----

  ghost predicate Traces(sem: Semantics, t: Run, node: Node, st: State, res: (Value, State)) {
    Sound(sem, t) && Starts(t, node, WorldOf(st)) && t.value == res.0 && t.after == WorldOf(res.1)
  }

  lemma {:induction false} EvalRuns(sem: Semantics, lim: Limits, node: Node, st: State) returns (t: Run)
    requires Clean(st) && !Eval(sem, lim, node, st).1.overrun
    ensures Traces(sem, t, node, st, Eval(sem, lim, node, st))
    decreases NodeBudget(lim, st), LoopBudget(lim, st), 0
  {
    hide EvalBinary, EvalAssign, EvalIf, EvalWhile, EvalDoWhile, EvalForLoop, EvalBlock, EvalReturn, EvalCall, SnapshotNames,
         ClosureFreeVars, Honest, GetVar, BinaryRule, AssignRule, IfRule, WhileRule, DoWhileRule, ForLoopRule, InOrder, 
         CallRule, Meaning.Holds, Shown;
    var s := st.(nodes := st.nodes + 1);
    var p: seq<Run> := [];
    var (v, end) := Eval(sem, lim, node, st);
    match node {
      case Lit(_) =>
      case Variable(name) => ShownIs(s.scopes, name);
      case Binary(op, left, right) => p := BinaryRuns(sem, lim, op, left, right, s);
      case Assign(name, value) => p := AssignRuns(sem, lim, name, value, s);
      case If(cond, thn, els) => p := IfRuns(sem, lim, cond, thn, els, s);
      case While(cond, body) => p := WhileRuns(sem, lim, cond, body, s, ZERO);
      case DoWhile(body, cond) => p := DoWhileRuns(sem, lim, body, cond, s);
      case For(init, guard, post, body) => p := ForLoopRuns(sem, lim, init, guard, post, body, s);
      case Block(stmts) => p := BlockRuns(sem, lim, stmts, s, ZERO);
      case Return(result) => p := ReturnRuns(sem, lim, result, s);
      case BreakLoop =>
      case ContinueLoop =>
      case Call(name, args) => p := CallRuns(sem, lim, name, args, s);
      case FunctionExpr(params, body) => HoldsIs(v.captured, s.scopes, params, body);
    }
    t := Run(node, WorldOf(st), v, WorldOf(end), p);
    assert Rule(sem, node, p, WorldOf(st), v, WorldOf(end));
  }

  lemma {:induction false} BinaryRuns(sem: Semantics, lim: Limits, op: string, left: Option<Node>, right: Node, st: State)
    returns (p: seq<Run>)
    requires Clean(st) && !EvalBinary(sem, lim, op, left, right, st).1.overrun
    ensures var (v, end) := EvalBinary(sem, lim, op, left, right, st);
      AllSound(sem, p) && BinaryRule(sem, op, left, right, p, WorldOf(st), v, WorldOf(end))
    decreases NodeBudget(lim, st), LoopBudget(lim, st), 5
  {
    hide Eval, Sound, AllSound, Honest;
    if left.None? {
      var b := EvalRuns(sem, lim, right, st);
      SoundOne(sem, b);
      p := [b];
    } else {
      var a := EvalRuns(sem, lim, left.value, st);
      var (l, s1) := Eval(sem, lim, left.value, st);
      SoundOne(sem, a);
      p := [a];
      if s1.flow == Normal {
        var b := EvalRuns(sem, lim, right, s1);
        SoundTwo(sem, a, b);
        p := [a, b];
      }
    }
  }

  lemma {:induction false} AssignRuns(sem: Semantics, lim: Limits, name: string, value: Node, st: State) returns (p: seq<Run>)
    requires Clean(st) && !EvalAssign(sem, lim, name, value, st).1.overrun
    ensures var (v, end) := EvalAssign(sem, lim, name, value, st);
      AllSound(sem, p) && AssignRule(name, value, p, WorldOf(st), v, WorldOf(end))
    decreases NodeBudget(lim, st), LoopBudget(lim, st), 5
  {
    hide Eval, Sound, AllSound, Honest, SetVar, GetVar, Assigned, Shown;
    var a := EvalRuns(sem, lim, value, st);
    var (v, s1) := Eval(sem, lim, value, st);
    AssignedIs(SetVar(s1.scopes, name, v), s1.scopes, name, v);
    ShownIs(SetVar(s1.scopes, name, v), name);
    SoundOne(sem, a);
    p := [a];
  }

  lemma {:induction false} IfRuns(sem: Semantics, lim: Limits, cond: Node, thn: Option<Node>, els: Option<Node>, st: State)
    returns (p: seq<Run>)
    requires Clean(st) && !EvalIf(sem, lim, cond, thn, els, st).1.overrun
    ensures var (v, end) := EvalIf(sem, lim, cond, thn, els, st);
      AllSound(sem, p) && IfRule(cond, thn, els, p, WorldOf(st), v, WorldOf(end))
    decreases NodeBudget(lim, st), LoopBudget(lim, st), 5
  {
    hide Eval, Sound, AllSound, Honest, Truthy, IsTrue;
    var a := EvalRuns(sem, lim, cond, st);
    var (c, s1) := Eval(sem, lim, cond, st);
    SoundOne(sem, a);
    p := [a];
    TruthyIs(c);
    var branch := if Truthy(c) then thn else els;
    if s1.flow == Normal && branch.Some? {
      var b := EvalRuns(sem, lim, branch.value, s1);
      SoundTwo(sem, a, b);
      p := [a, b];
    }
  }

  lemma {:induction false} ReturnRuns(sem: Semantics, lim: Limits, result: Option<Node>, st: State) returns (p: seq<Run>)
    requires Clean(st) && !EvalReturn(sem, lim, result, st).1.overrun
    ensures var (v, end) := EvalReturn(sem, lim, result, st);
      AllSound(sem, p) && ReturnRule(result, p, WorldOf(st), v, WorldOf(end))
    decreases NodeBudget(lim, st), LoopBudget(lim, st), 5
  {
    hide Eval, Sound, AllSound, Honest;
    SoundNone(sem);
    p := [];
    if result.Some? {
      var a := EvalRuns(sem, lim, result.value, st);
      SoundOne(sem, a);
      p := [a];
    }
  }

  lemma {:induction false} BlockRuns(sem: Semantics, lim: Limits, stmts: seq<Node>, st: State, last: Value) returns (p: seq<Run>)
    requires Clean(st) && !EvalBlock(sem, lim, stmts, st, last).1.overrun
    ensures var (v, end) := EvalBlock(sem, lim, stmts, st, last);
      AllSound(sem, p) && InOrder(p, stmts, WorldOf(st)) && v == ValueOf(p, last) && WorldOf(end) == EndOf(p, WorldOf(st))
    decreases NodeBudget(lim, st), LoopBudget(lim, st), 1 + |stmts|
  {
    hide Eval, Sound, AllSound, Honest;
    SoundNone(sem);
    p := [];
    if stmts != [] {
      var a := EvalRuns(sem, lim, stmts[0], st);
      var (v, s1) := Eval(sem, lim, stmts[0], st);
      SoundOne(sem, a);
      p := [a];
      if s1.flow == Normal {
        var q := BlockRuns(sem, lim, stmts[1..], s1, v);
        SoundMore(sem, a, q);
        p := [a] + q;
        assert p[1..] == q;
      }
    }
  }

  lemma {:induction false} ArgsRuns(sem: Semantics, lim: Limits, args: seq<Node>, st: State, vals: seq<Value>)
    returns (p: seq<Run>)
    requires Clean(st) && !EvalArgs(sem, lim, args, st, vals).1.overrun
    ensures var (vs, end) := EvalArgs(sem, lim, args, st, vals);
      AllSound(sem, p) && InOrder(p, args, WorldOf(st)) && vs == vals + Values(p) && WorldOf(end) == EndOf(p, WorldOf(st))
    decreases NodeBudget(lim, st), LoopBudget(lim, st), 1 + |args|
  {
    hide Eval, Sound, AllSound, Honest;
    SoundNone(sem);
    p := [];
    if args != [] {
      var a := EvalRuns(sem, lim, args[0], st);
      var (v, s1) := Eval(sem, lim, args[0], st);
      SoundOne(sem, a);
      p := [a];
      if s1.flow == Normal {
        var q := ArgsRuns(sem, lim, args[1..], s1, vals + [v]);
        SoundMore(sem, a, q);
        p := [a] + q;
        assert p[1..] == q;
        assert vals + Values(p) == (vals + [v]) + Values(q);
      }
    }
  }

  lemma {:induction false} CallRuns(sem: Semantics, lim: Limits, name: string, args: seq<Node>, st: State) returns (p: seq<Run>)
    requires Clean(st) && !EvalCall(sem, lim, name, args, st).1.overrun
    ensures var (v, end) := EvalCall(sem, lim, name, args, st);
      AllSound(sem, p) && CallRule(sem, name, args, p, WorldOf(st), v, WorldOf(end))
    decreases NodeBudget(lim, st), LoopBudget(lim, st), 2 + |args|
  {
    hide Eval, EvalArgs, CallClosure, Sound, AllSound, Honest, GetVar, Shown, InOrder, Enters, HandsOver;
    var none: seq<Value> := [];
    var (vs, s1) := EvalArgs(sem, lim, args, st, none);
    var a := ArgsRuns(sem, lim, args, st, none);
    assert vs == Values(a);
    ShownIs(st.scopes, name);
    ShownIs(s1.scopes, name);
    var (v, end) := EvalCall(sem, lim, name, args, st);
    var b: seq<Run> := [];
    SoundNone(sem);
    var f := Callee(st.scopes, s1.scopes, name);
    if f.Closure? {
      var t := BodyOfCallRuns(sem, lim, f, vs, s1);
      SoundOne(sem, t);
      b := [t];
    }
    SoundBoth(sem, a, b);
    p := a + b;
    assert Called(sem, name, a, b, WorldOf(st), v, WorldOf(end));
  }

  lemma {:induction false} BodyOfCallRuns(sem: Semantics, lim: Limits, f: Value, args: seq<Value>, st: State) returns (t: Run)
    requires f.Closure? && Clean(st) && !CallClosure(sem, lim, f, args, st).1.overrun
    ensures var (v, end) := CallClosure(sem, lim, f, args, st);
      Sound(sem, t) && Enters(t, f, args) && HandsOver(t, WorldOf(st), v, WorldOf(end))
    decreases NodeBudget(lim, st), LoopBudget(lim, st), 1
  {
    hide Eval, Sound, AllSound, Honest, BindParams, Import, Bound;
    var frame := Frame(f, args, st.(depth := st.depth + 1));
    t := EvalRuns(sem, lim, f.body, frame);
    BoundIs(frame.scopes[0], f.captured, f.params, args);
  }

  // ----- loops -----

  lemma {:induction false} LoopBodyRuns(sem: Semantics, lim: Limits, body: Node, st: State, last: Value) returns (b: Run)
    requires Clean(st) && !LoopBody(sem, lim, body, st, last).st.overrun
    ensures Sound(sem, b) && Starts(b, body, WorldOf(st))
    ensures var t := LoopBody(sem, lim, body, st, last);
      Clean(t.st) && (t.Stop? <==> BodyLeaves(b)) && t.value == b.value && WorldOf(t.st) == Left(b)
    decreases NodeBudget(lim, st), LoopBudget(lim, st), 1
  {
    hide Eval, Sound, AllSound, Honest;
    b := EvalRuns(sem, lim, body, LoopTick(lim, st).0);
  }

  lemma {:induction false} TestRuns(sem: Semantics, lim: Limits, cond: Node, st: State) returns (a: Run)
    requires Clean(st) && !Eval(sem, lim, cond, st).1.overrun
    ensures Traces(sem, a, cond, st, Eval(sem, lim, cond, st))
    ensures
      var (c, s1) := Eval(sem, lim, cond, st);
      Clean(s1) && (Passes(a) <==> !Leaves(c, s1))
    decreases NodeBudget(lim, st), LoopBudget(lim, st), 1
  {
    hide Eval, Sound, AllSound, Honest, Truthy, IsTrue;
    a := EvalRuns(sem, lim, cond, st);
    TruthyIs(a.value);
  }

  /** The test leaves the loop, or a turn is counted within the limit. */
  lemma DoWhileTestCases(sem: Semantics, lim: Limits, cond: Node, st: State, v: Value)
    requires Clean(st) && !DoWhileTest(sem, lim, cond, st, v).st.overrun
    ensures
      var (c, s1) := Eval(sem, lim, cond, st);
      var t := DoWhileTest(sem, lim, cond, st, v);
      && !s1.overrun
      && t == if Leaves(c, s1) then Stop(v, s1) else Again(v, s1.(loops := s1.loops + 1))
  {
    hide Eval, Honest, Truthy;
  }

  /** The while loop from this state, as its rule sees it. */
  ghost predicate WhileTraced(sem: Semantics, lim: Limits, cond: Node, body: Node, st: State, last: Value, p: seq<Run>) {
    var (v, end) := EvalWhile(sem, lim, cond, body, st, last);
    AllSound(sem, p) && WhileRule(cond, body, p, WorldOf(st), last, v, WorldOf(end))
  }

  lemma {:induction false} WhileRuns(sem: Semantics, lim: Limits, cond: Node, body: Node, st: State, last: Value)
    returns (p: seq<Run>)
    requires Clean(st) && !EvalWhile(sem, lim, cond, body, st, last).1.overrun
    ensures WhileTraced(sem, lim, cond, body, st, last, p)
    decreases NodeBudget(lim, st), LoopBudget(lim, st), 4
  {
    hide Eval, EvalWhile, Sound, AllSound, Honest, WhileRule, WhileTraced;
    if st.flow == Normal || st.flow == Continue {
      var s := st.(flow := Normal);
      WhileContinues(sem, lim, cond, body, st, s, last);
      p := WhileTestRuns(sem, lim, cond, body, s, last);
      WhileResumes(sem, lim, cond, body, st, s, last, p);
    } else {
      p := [];
      WhileNotEntered(sem, lim, cond, body, st, last);
    }
  }

  lemma WhileNotEntered(sem: Semantics, lim: Limits, cond: Node, body: Node, st: State, last: Value)
    requires st.flow != Normal && st.flow != Continue
    ensures WhileTraced(sem, lim, cond, body, st, last, [])
  {
    hide Eval, EvalWhile, Sound, Honest;
    UnfoldWhile(sem, lim, cond, body, st, last);
    WhileTurnCases(sem, lim, cond, body, st, last);
  }

  lemma WhileResumes(sem: Semantics, lim: Limits, cond: Node, body: Node, st: State, s: State, last: Value, p: seq<Run>)
    requires (st.flow == Normal || st.flow == Continue) && s == st.(flow := Normal)
    requires WhileTraced(sem, lim, cond, body, s, last, p)
    ensures WhileTraced(sem, lim, cond, body, st, last, p)
  {
    hide Eval, EvalWhile, AllSound, Honest;
    WhileContinues(sem, lim, cond, body, st, s, last);
  }

  /** A loop that is entered after a continue goes on as after a normal end. */
  lemma WhileContinues(sem: Semantics, lim: Limits, cond: Node, body: Node, st: State, s: State, last: Value)
    requires (st.flow == Normal || st.flow == Continue) && s == st.(flow := Normal)
    ensures EvalWhile(sem, lim, cond, body, st, last) == EvalWhile(sem, lim, cond, body, s, last)
  {
    hide Eval, EvalWhile, WhileTurn, LoopBody, Honest, Leaves;
    UnfoldWhile(sem, lim, cond, body, st, last);
    UnfoldWhile(sem, lim, cond, body, s, last);
    WhileTurnCases(sem, lim, cond, body, st, last);
    WhileTurnCases(sem, lim, cond, body, s, last);
  }

  lemma WhileTurnNormal(sem: Semantics, lim: Limits, cond: Node, body: Node, st: State, last: Value)
    requires st.flow == Normal
    ensures
      var (c, s1) := Eval(sem, lim, cond, st);
      WhileTurn(sem, lim, cond, body, st, last) == if Leaves(c, s1) then Stop(last, s1) else LoopBody(sem, lim, body, s1, last)
  {
    hide Eval, WhileTurn, LoopBody, Honest, Leaves;
    WhileTurnCases(sem, lim, cond, body, st, last);
    assert st.(flow := Normal) == st;
  }

  lemma {:induction false} WhileTestRuns(sem: Semantics, lim: Limits, cond: Node, body: Node, st: State, last: Value)
    returns (p: seq<Run>)
    requires Clean(st) && st.flow == Normal && !EvalWhile(sem, lim, cond, body, st, last).1.overrun
    ensures WhileTraced(sem, lim, cond, body, st, last, p)
    decreases NodeBudget(lim, st), LoopBudget(lim, st), 3
  {
    hide Eval, EvalWhile, WhileTurn, LoopBody, Sound, AllSound, Honest, Leaves, Passes, WhileBody, WhileRule, WhileTraced;
    UnfoldWhile(sem, lim, cond, body, st, last);
    WhileTurnNormal(sem, lim, cond, body, st, last);
    var (c, s1) := Eval(sem, lim, cond, st);
    var a := TestRuns(sem, lim, cond, st);
    if Leaves(c, s1) {
      WhileStops(sem, lim, cond, body, st, last, a);
      p := [a];
    } else {
      var q := WhileBodyRuns(sem, lim, cond, body, st, s1, last);
      WhileGoesOn(sem, lim, cond, body, st, last, a, q);
      p := [a] + q;
    }
  }

  lemma WhileStops(sem: Semantics, lim: Limits, cond: Node, body: Node, st: State, last: Value, a: Run)
    requires st.flow == Normal && Traces(sem, a, cond, st, Eval(sem, lim, cond, st))
    requires var (c, s1) := Eval(sem, lim, cond, st); Leaves(c, s1) && !Passes(a)
    ensures WhileTraced(sem, lim, cond, body, st, last, [a])
  {
    hide Eval, EvalWhile, WhileTurn, LoopBody, Sound, AllSound, Honest, Leaves, Passes, WhileBody;
    UnfoldWhile(sem, lim, cond, body, st, last);
    WhileTurnNormal(sem, lim, cond, body, st, last);
    SoundOne(sem, a);
  }

  lemma WhileGoesOn(sem: Semantics, lim: Limits, cond: Node, body: Node, st: State, last: Value, a: Run, q: seq<Run>)
    requires st.flow == Normal && Traces(sem, a, cond, st, Eval(sem, lim, cond, st)) && AllSound(sem, q) && Passes(a)
    requires
      var (c, s1) := Eval(sem, lim, cond, st);
      var (v, end) := EvalWhile(sem, lim, cond, body, st, last);
      !Leaves(c, s1) && WhileBody(cond, body, q, WorldOf(s1), v, WorldOf(end))
    ensures WhileTraced(sem, lim, cond, body, st, last, [a] + q)
  {
    hide Eval, EvalWhile, Sound, AllSound, Honest, Leaves, Passes, WhileBody;
    SoundMore(sem, a, q);
    assert ([a] + q)[1..] == q;
  }

  /** The rest of a turn after the test, and the turns that follow. */
  lemma {:induction false} WhileBodyRuns(sem: Semantics, lim: Limits, cond: Node, body: Node, st: State, s: State, last: Value)
    returns (p: seq<Run>)
    requires Clean(s) && Advances(s, st)
    requires
      var t := LoopBody(sem, lim, body, s, last);
      !t.st.overrun && (t.Again? ==> !EvalWhile(sem, lim, cond, body, t.st, t.value).1.overrun)
    ensures
      var t := LoopBody(sem, lim, body, s, last);
      var (v, end) := if t.Stop? then (t.value, t.st) else EvalWhile(sem, lim, cond, body, t.st, t.value);
      AllSound(sem, p) && WhileBody(cond, body, p, WorldOf(s), v, WorldOf(end))
    decreases NodeBudget(lim, st), LoopBudget(lim, st), 2
  {
    hide Eval, EvalWhile, LoopBody, Sound, AllSound, Honest, WhileRule;
    var t := LoopBody(sem, lim, body, s, last);
    var a := LoopBodyRuns(sem, lim, body, s, last);
    SoundOne(sem, a);
    p := [a];
    if t.Again? {
      var q := WhileRuns(sem, lim, cond, body, t.st, t.value);
      SoundMore(sem, a, q);
      p := [a] + q;
      assert p[1..] == q;
    }
  }

  lemma {:induction false} DoWhileRuns(sem: Semantics, lim: Limits, body: Node, cond: Node, st: State) returns (p: seq<Run>)
    requires Clean(st) && !EvalDoWhile(sem, lim, body, cond, st).1.overrun
    ensures var (v, end) := EvalDoWhile(sem, lim, body, cond, st);
      AllSound(sem, p) && DoWhileRule(body, cond, p, WorldOf(st), v, WorldOf(end))
    decreases NodeBudget(lim, st), LoopBudget(lim, st), 4
  {
    hide Eval, EvalDoWhile, DoWhileTurn, DoWhileTest, Sound, AllSound, Honest, DoWhileRest;
    UnfoldDoWhile(sem, lim, body, cond, st);
    DoWhileTurnCases(sem, lim, body, cond, st);
    var (v, s1) := Eval(sem, lim, body, st);
    var a := EvalRuns(sem, lim, body, st);
    SoundOne(sem, a);
    p := [a];
    if s1.flow != Break && s1.flow != Flow.Return {
      var q := DoWhileRestRuns(sem, lim, body, cond, st, BeforeTest(s1), v);
      SoundMore(sem, a, q);
      p := [a] + q;
      assert p[1..] == q;
    }
  }

  /** The test after the body, and the turns that follow. */
  lemma {:induction false} DoWhileRestRuns(sem: Semantics, lim: Limits, body: Node, cond: Node, st: State, s: State, last: Value)
    returns (p: seq<Run>)
    requires Clean(s) && Advances(s, st)
    requires
      var t := DoWhileTest(sem, lim, cond, s, last);
      !t.st.overrun && (t.Again? ==> !EvalDoWhile(sem, lim, body, cond, t.st).1.overrun)
    ensures
      var t := DoWhileTest(sem, lim, cond, s, last);
      var (v, end) := if t.Stop? then (t.value, t.st) else EvalDoWhile(sem, lim, body, cond, t.st);
      AllSound(sem, p) && DoWhileRest(body, cond, p, WorldOf(s), last, v, WorldOf(end))
    decreases NodeBudget(lim, st), LoopBudget(lim, st), 2
  {
    hide Eval, EvalDoWhile, DoWhileTest, LoopTick, Sound, AllSound, Honest, Leaves, Passes, DoWhileRule;
    DoWhileTestCases(sem, lim, cond, s, last);
    var a := TestRuns(sem, lim, cond, s);
    SoundOne(sem, a);
    p := [a];
    var t := DoWhileTest(sem, lim, cond, s, last);
    if t.Again? {
      var q := DoWhileRuns(sem, lim, body, cond, t.st);
      SoundMore(sem, a, q);
      p := [a] + q;
      assert p[1..] == q;
    }
  }

  lemma {:induction false} ForRuns(sem: Semantics, lim: Limits, guard: Option<Node>, post: Option<Node>, body: Node,
                                   st: State, last: Value) returns (p: seq<Run>)
    requires Clean(st) && !EvalFor(sem, lim, guard, post, body, st, last).1.overrun
    ensures var (v, end) := EvalFor(sem, lim, guard, post, body, st, last);
      AllSound(sem, p) && ForRule(guard, post, body, p, WorldOf(st), last, v, WorldOf(end))
    decreases NodeBudget(lim, st), LoopBudget(lim, st), 4
  {
    hide Eval, EvalFor, ForTurn, ForPost, LoopBody, Sound, AllSound, Honest, Truthy, IsTrue, ForBody;
    UnfoldFor(sem, lim, guard, post, body, st, last);
    ForTurnCases(sem, lim, guard, post, body, st, last);
    var (c, s1) := EvalOption(sem, lim, guard, st);
    TruthyIs(c);
    if guard.None? {
      p := ForBodyRuns(sem, lim, guard, post, body, st, s1, last);
    } else {
      var a := EvalRuns(sem, lim, guard.value, st);
      SoundOne(sem, a);
      p := [a];
      if !Leaves(c, s1) {
        var q := ForBodyRuns(sem, lim, guard, post, body, st, s1, last);
        SoundMore(sem, a, q);
        p := [a] + q;
        assert p[1..] == q;
      }
    }
  }

  /** The rest of a turn after the guard, and the turns that follow. */
  lemma {:induction false} ForBodyRuns(sem: Semantics, lim: Limits, guard: Option<Node>, post: Option<Node>, body: Node,
                                       st: State, s: State, last: Value) returns (p: seq<Run>)
    requires Clean(s) && Advances(s, st)
    requires
      var t := ForPost(sem, lim, post, LoopBody(sem, lim, body, s, last));
      !t.st.overrun && (t.Again? ==> !EvalFor(sem, lim, guard, post, body, t.st, t.value).1.overrun)
    ensures
      var t := ForPost(sem, lim, post, LoopBody(sem, lim, body, s, last));
      var (v, end) := if t.Stop? then (t.value, t.st) else EvalFor(sem, lim, guard, post, body, t.st, t.value);
      AllSound(sem, p) && ForBody(guard, post, body, p, WorldOf(s), v, WorldOf(end))
    decreases NodeBudget(lim, st), LoopBudget(lim, st), 2
  {
    hide Eval, EvalFor, ForTurn, LoopBody, Sound, AllSound, Honest, Truthy, IsTrue, ForRule;
    var t := LoopBody(sem, lim, body, s, last);
    var a := LoopBodyRuns(sem, lim, body, s, last);
    SoundOne(sem, a);
    p := [a];
    if t.Again? {
      var u := ForPost(sem, lim, post, t);
      if post.None? {
        var q := ForRuns(sem, lim, guard, post, body, u.st, u.value);
        SoundMore(sem, a, q);
        p := [a] + q;
        assert p[1..] == q;
      } else {
        var b := EvalRuns(sem, lim, post.value, t.st);
        SoundTwo(sem, a, b);
        p := [a, b];
        if u.Again? {
          var q := ForRuns(sem, lim, guard, post, body, u.st, u.value);
          SoundMore(sem, b, q);
          SoundMore(sem, a, [b] + q);
          p := [a] + ([b] + q);
          assert p[2..] == q;
        }
      }
    }
  }

  lemma {:induction false} ForLoopRuns(sem: Semantics, lim: Limits, init: Option<Node>, guard: Option<Node>, post: Option<Node>,
                                       body: Node, st: State) returns (p: seq<Run>)
    requires Clean(st) && !EvalForLoop(sem, lim, init, guard, post, body, st).1.overrun
    ensures var (v, end) := EvalForLoop(sem, lim, init, guard, post, body, st);
      AllSound(sem, p) && ForLoopRule(init, guard, post, body, p, WorldOf(st), v, WorldOf(end))
    decreases NodeBudget(lim, st), LoopBudget(lim, st), 5
  {
    hide Eval, EvalFor, Sound, AllSound, Honest, ForRule;
    var s1 := EvalOption(sem, lim, init, st).1;
    SoundNone(sem);
    p := [];
    if init.None? {
      if st.flow == Normal {
        p := ForRuns(sem, lim, guard, post, body, st, ZERO);
      }
    } else {
      var a := EvalRuns(sem, lim, init.value, st);
      SoundOne(sem, a);
      p := [a];
      if s1.flow == Normal {
        var q := ForRuns(sem, lim, guard, post, body, s1, ZERO);
        SoundMore(sem, a, q);
        p := [a] + q;
        assert p[1..] == q;
      }
    }
  }
}
