// When does the abort flag survive a run? The node counter is handed through calls, so a run past the node budget aborts
// again. A passed loop or recursion limit leaves nothing but the flag, and a call overwrites the flag with the callee's.

module Overruns {
  import opened Options
  import opened Script
  import opened FreeVariables
  import opened Evaluator
  import opened Closures

  // ----- one call -----

  /**
   * A call whose arguments abort keeps the flag exactly if the callee is no function value, or the call is too deep, or
   * the body passes a limit of its own. The mark that a limit was passed stays in any case.
   */
  lemma FlagAfterCall(sem: Semantics, lim: Limits, name: string, args: seq<Node>, st: State)
    requires EvalArgs(sem, lim, args, st, []).1.aborted
    ensures
      var (vs, s1) := EvalArgs(sem, lim, args, st, []);
      var f := Callee(st.scopes, s1.scopes, name);
      EvalCall(sem, lim, name, args, st).1.aborted <==>
      (f.Closure? && s1.depth + 1 <= lim.maxDepth ==>
        Eval(sem, lim, f.body, Frame(f, vs, s1.(depth := s1.depth + 1))).1.aborted)
  {
    hide Eval, EvalArgs, GetVar, Frame, Honest;
    var (vs, s1) := EvalArgs(sem, lim, args, st, []);
  }

  /** A function that does nothing but yield a literal. */
  ghost predicate Trivial(f: Value) { f.Closure? && f.body.Lit? }

  /** Calling such a function forgets every abort but one past the node budget. */
  lemma FlagLost(sem: Semantics, lim: Limits, name: string, args: seq<Node>, st: State)
    requires Trivial(GetVar(st.scopes, name))
    requires var s1 := EvalArgs(sem, lim, args, st, []).1; s1.aborted && s1.nodes < lim.maxNodes && s1.depth + 1 <= lim.maxDepth
    ensures
      var s1 := EvalArgs(sem, lim, args, st, []).1;
      EvalCall(sem, lim, name, args, st).1 == s1.(aborted := false, nodes := s1.nodes + 1)
  {
    var f := GetVar(st.scopes, name);
    var (vs, s1) := EvalArgs(sem, lim, args, st, []);
    var frame := Frame(f, vs, s1.(depth := s1.depth + 1));
    assert Eval(sem, lim, f.body, frame) == (LiteralValue(f.body.literal), frame.(nodes := frame.nodes + 1));
    hide Eval, EvalArgs, GetVar, LiteralValue, Honest, BindParams, Import;
  }

  lemma OneArgument(sem: Semantics, lim: Limits, arg: Node, st: State)
    ensures EvalArgs(sem, lim, [arg], st, []).1 == Eval(sem, lim, arg, st).1
  {
    hide Eval;
    assert [arg][1..] == [];
  }

  /** A loop with a true test, when the iterations are used up: its body does not run, and the run is aborted. */
  lemma LoopRefused(sem: Semantics, lim: Limits, cond: Literal, body: Node, st: State)
    requires !st.aborted && st.flow == Normal && st.nodes + 2 <= lim.maxNodes && st.loops == lim.maxLoops
    requires Truthy(LiteralValue(cond))
    ensures Eval(sem, lim, While(Lit(cond), body), st).1 ==
      st.(nodes := st.nodes + 2, loops := st.loops + 1, aborted := true, overrun := true)
  {
    var s := st.(nodes := st.nodes + 1);
    var s2 := s.(nodes := st.nodes + 2);
    assert Eval(sem, lim, Lit(cond), s) == (LiteralValue(cond), s2);
    assert WhileTurn(sem, lim, Lit(cond), body, s, ZERO) == Stop(ZERO, s2.(loops := st.loops + 1, aborted := true, overrun := true)) by {
      WhileTurnCases(sem, lim, Lit(cond), body, s, ZERO);
      hide Eval, WhileTurn, Truthy, LiteralValue;
    }
    LoopEnds(sem, lim, cond, body, st);
  }

  lemma LoopEnds(sem: Semantics, lim: Limits, cond: Literal, body: Node, st: State)
    requires !st.aborted && st.nodes < lim.maxNodes
    ensures Eval(sem, lim, While(Lit(cond), body), st) ==
      EvalWhile(sem, lim, Lit(cond), body, st.(nodes := st.nodes + 1), ZERO)
  {
    hide EvalWhile, LiteralValue;
  }

  /**
   * The loop limit can be passed without a trace: whatever the limit, the loop and the caller, `f(while (1) { .. })` with
   * a trivial f comes back unaborted from one iteration too many.
   */
  lemma LoopLimitForgotten(sem: Semantics, lim: Limits, name: string, cond: Literal, body: Node, st: State)
    requires !st.aborted && st.flow == Normal && st.nodes + 3 <= lim.maxNodes && st.loops == lim.maxLoops
    requires st.depth + 1 <= lim.maxDepth && Trivial(GetVar(st.scopes, name)) && Truthy(LiteralValue(cond))
    ensures
      var end := EvalCall(sem, lim, name, [While(Lit(cond), body)], st).1;
      end.loops > lim.maxLoops && end.overrun && !end.aborted
  {
    hide Eval, EvalArgs, EvalCall, GetVar, LiteralValue, Truthy;
    LoopRefused(sem, lim, cond, body, st);
    OneArgument(sem, lim, While(Lit(cond), body), st);
    FlagLost(sem, lim, name, [While(Lit(cond), body)], st);
  }

  /** A function whose body calls a second function it captured, at the greatest depth allowed. */
  lemma CallRefused(sem: Semantics, lim: Limits, g: string, h: string, st: State)
    requires !st.aborted && st.nodes + 2 <= lim.maxNodes && st.depth + 1 == lim.maxDepth
    requires GetVar(st.scopes, g).Closure? && GetVar(st.scopes, g).params == [] && GetVar(st.scopes, g).body == Call(h, [])
    requires h in GetVar(st.scopes, g).captured && GetVar(st.scopes, g).captured[h].value.Closure?
    ensures Eval(sem, lim, Call(g, []), st).1 == st.(nodes := st.nodes + 2, aborted := true, overrun := true)
  {
    var f := GetVar(st.scopes, g);
    var s := st.(nodes := st.nodes + 1);
    var frame := Frame(f, [], s.(depth := s.depth + 1));
    FrameLookup(f.captured, f.params, [], h);
    CallWithout(sem, lim, g, st);
    CallWithout(sem, lim, h, frame);
    hide Eval, EvalCall, GetVar, BindParams, Import;
  }

  lemma CallWithout(sem: Semantics, lim: Limits, name: string, st: State)
    requires !st.aborted && st.nodes < lim.maxNodes && GetVar(st.scopes, name).Closure?
    ensures Eval(sem, lim, Call(name, []), st) ==
      CallClosure(sem, lim, GetVar(st.scopes, name), [], st.(nodes := st.nodes + 1))
  {
    hide CallClosure, GetVar;
    var s := st.(nodes := st.nodes + 1);
    assert EvalArgs(sem, lim, [], s, []) == ([], s);
    assert Eval(sem, lim, Call(name, []), st) == EvalCall(sem, lim, name, [], s);
  }

  /** The recursion limit is forgotten at the same place: `f(g())`, where g stands at the limit and calls once more. */
  lemma RecursionLimitForgotten(sem: Semantics, lim: Limits, name: string, g: string, h: string, st: State)
    requires !st.aborted && st.nodes + 3 <= lim.maxNodes && st.depth + 1 == lim.maxDepth && Trivial(GetVar(st.scopes, name))
    requires GetVar(st.scopes, g).Closure? && GetVar(st.scopes, g).params == [] && GetVar(st.scopes, g).body == Call(h, [])
    requires h in GetVar(st.scopes, g).captured && GetVar(st.scopes, g).captured[h].value.Closure?
    ensures
      var end := EvalCall(sem, lim, name, [Call(g, [])], st).1;
      end.overrun && !end.aborted
  {
    hide Eval, EvalArgs, EvalCall, GetVar;
    CallRefused(sem, lim, g, h, st);
    OneArgument(sem, lim, Call(g, []), st);
    FlagLost(sem, lim, name, [Call(g, [])], st);
  }

  // ----- whole runs -----

  /**
   * A discipline under which no flag is lost: names in `plain` never hold function values, so a call to one of them runs
   * a builtin; the arguments of every call are free of loops and of calls to other names.
   */
  datatype Discipline = Discipline(sem: Semantics, lim: Limits, plain: set<string>)
  {
    /** Evaluating the node meets no loop and calls nothing but builtins. */
    ghost predicate Quiet(node: Node)
      decreases node, 0
    {
      match node
      case Lit(_) => true
      case Variable(_) => true
      case Binary(_, left, right) => QuietOption(left) && Quiet(right)
      case Assign(_, value) => Quiet(value)
      case If(cond, thn, els) => Quiet(cond) && QuietOption(thn) && QuietOption(els)
      case While(_, _) => false
      case DoWhile(_, _) => false
      case For(_, _, _, _) => false
      case Block(stmts) => QuietAll(stmts)
      case Return(result) => QuietOption(result)
      case BreakLoop => true
      case ContinueLoop => true
      case Call(name, args) => name in plain && QuietAll(args)
      case FunctionExpr(_, _) => true
    }

    ghost predicate QuietOption(node: Option<Node>)
      decreases node, 1
    {
      node.Some? ==> Quiet(node.value)
    }

    ghost predicate QuietAll(nodes: seq<Node>)
      decreases nodes, 1
    {
      nodes == [] || (Quiet(nodes[0]) && QuietAll(nodes[1..]))
    }

    /** Every call in the node and in the functions it creates has quiet arguments, and no plain name is bound. */
    ghost predicate Safe(node: Node)
      decreases node, 0
    {
      match node
      case Lit(_) => true
      case Variable(_) => true
      case Binary(_, left, right) => SafeOption(left) && Safe(right)
      case Assign(name, value) => name !in plain && Safe(value)
      case If(cond, thn, els) => Safe(cond) && SafeOption(thn) && SafeOption(els)
      case While(cond, body) => Safe(cond) && Safe(body)
      case DoWhile(body, cond) => Safe(body) && Safe(cond)
      case For(init, guard, post, body) => SafeOption(init) && SafeOption(guard) && SafeOption(post) && Safe(body)
      case Block(stmts) => SafeAll(stmts)
      case Return(result) => SafeOption(result)
      case BreakLoop => true
      case ContinueLoop => true
      case Call(_, args) => QuietAll(args) && SafeAll(args)
      case FunctionExpr(params, body) => Free(params) && Safe(body)
    }

    ghost predicate SafeOption(node: Option<Node>)
      decreases node, 1
    {
      node.Some? ==> Safe(node.value)
    }

    ghost predicate SafeAll(nodes: seq<Node>)
      decreases nodes, 1
    {
      nodes == [] || (Safe(nodes[0]) && SafeAll(nodes[1..]))
    }

    ghost predicate Free(params: seq<string>) { forall p :: p in params ==> p !in plain }

    /** A function value keeps the discipline, and so does everything it captured. */
    ghost predicate SafeValue(v: Value)
      decreases v
    {
      v.Closure? ==>
        && Free(v.params)
        && Safe(v.body)
        && forall n | n in v.captured :: SafeValue(v.captured[n].value) && (n in plain ==> !v.captured[n].value.Closure?)
    }

    ghost predicate SafeNamed(n: string, v: Value) { SafeValue(v) && (n in plain ==> !v.Closure?) }

    ghost predicate SafeScopes(scopes: seq<Scope>) {
      forall n :: Lookup(scopes, n).Some? ==> SafeNamed(n, Lookup(scopes, n).value.value)
    }

    ghost predicate SafeValues(vs: seq<Value>) { forall v :: v in vs ==> SafeValue(v) }

    /** Operators and builtins make no unsafe function values out of safe ones. */
    ghost predicate Tame() {
      && (forall op, l, r :: SafeValue(l) && SafeValue(r) ==> SafeOutcome(sem.binary(op, l, r)))
      && (forall name, vs :: SafeValues(vs) ==> SafeOutcome(sem.builtin(name, vs)))
    }

    ghost predicate SafeOutcome(outcome: Outcome) { outcome.Result? ==> SafeValue(outcome.value) }

    /** The flag tells whether a limit was passed, the loop limit among them. */
    ghost predicate Told(st: State) {
      && st.aborted == st.overrun
      && (st.loops > lim.maxLoops ==> st.overrun)
    }

    ghost predicate Good(st: State) { SafeScopes(st.scopes) && SafeValue(st.returned) && Told(st) }

    ghost predicate Fine(r: (Value, State)) { SafeValue(r.0) && Good(r.1) }

    ghost predicate FineTurn(t: Turn) { SafeValue(t.value) && Good(t.st) }

    /** A quiet evaluation aborts only past the node budget. */
    ghost predicate Spent(quiet: bool, st: State, st': State) {
      quiet && !st.aborted && st'.aborted ==> st'.nodes > lim.maxNodes
    }
  }

  lemma GetVarSafe(d: Discipline, scopes: seq<Scope>, name: string)
    requires d.SafeScopes(scopes)
    ensures d.SafeNamed(name, GetVar(scopes, name))
  {
  }

  lemma SetVarSafe(d: Discipline, scopes: seq<Scope>, name: string, v: Value)
    requires d.SafeScopes(scopes) && d.SafeValue(v) && name !in d.plain
    ensures d.SafeScopes(SetVar(scopes, name, v))
  {
    if scopes != [] {
      hide SetVar, Lookup, Discipline.SafeValue;
      var updated := SetVar(scopes, name, v);
      forall n | Lookup(updated, n).Some? ensures d.SafeNamed(n, Lookup(updated, n).value.value) {
        SetVarLookup(scopes, name, v, n);
      }
    }
  }

  lemma FunctionSafe(d: Discipline, params: seq<string>, body: Node, scopes: seq<Scope>, names: seq<string>)
    requires d.SafeScopes(scopes) && d.Free(params) && d.Safe(body)
    ensures d.SafeValue(Closure(params, body, SnapshotNames(scopes, names)))
  {
    hide Lookup, SnapshotAll, Discipline.SafeValue, Discipline.Free, Discipline.Safe;
    var captured := SnapshotNames(scopes, names);
    forall n | n in captured ensures d.SafeNamed(n, captured[n].value) {
      SnapshotAllLookup(scopes, n);
    }
    ClosureSafe(d, params, body, captured);
  }

  lemma ClosureSafe(d: Discipline, params: seq<string>, body: Node, captured: Scope)
    requires d.Free(params) && d.Safe(body) && forall n :: n in captured ==> d.SafeNamed(n, captured[n].value)
    ensures d.SafeValue(Closure(params, body, captured))
  {
    hide Discipline.Free, Discipline.Safe;
  }

  lemma CapturedSafe(d: Discipline, f: Value, n: string)
    requires f.Closure? && d.SafeValue(f) && n in f.captured
    ensures d.SafeNamed(n, f.captured[n].value)
  {
  }

  lemma FrameSafe(d: Discipline, f: Value, args: seq<Value>, st: State)
    requires f.Closure? && d.SafeValue(f) && d.SafeValues(args)
    ensures d.SafeScopes(Frame(f, args, st).scopes)
  {
    var scopes := Frame(f, args, st).scopes;
    assert d.Free(f.params) && d.SafeValue(ZERO);
    hide Lookup, Discipline.SafeValue, BindParams, Import, LastArgument;
    forall n | Lookup(scopes, n).Some? ensures d.SafeNamed(n, Lookup(scopes, n).value.value) {
      FrameLookup(f.captured, f.params, args, n);
      if !Binds(f.captured, f.params, n) {
        CapturedSafe(d, f, n);
      }
    }
  }

  lemma {:induction false} EvalKept(d: Discipline, node: Node, st: State)
    requires d.Tame() && d.Safe(node) && d.Good(st)
    ensures d.Fine(Eval(d.sem, d.lim, node, st))
    ensures d.Spent(d.Quiet(node), st, Eval(d.sem, d.lim, node, st).1)
    decreases NodeBudget(d.lim, st), LoopBudget(d.lim, st), 0
  {
    hide EvalBinary, EvalAssign, EvalIf, EvalWhile, EvalDoWhile, EvalForLoop, EvalBlock, EvalReturn, EvalCall,
         SnapshotNames, ClosureFreeVars, Honest, GetVar, Lookup, Discipline.SafeScopes, Discipline.Free, Discipline.Tame;
    if !st.aborted && st.nodes < d.lim.maxNodes {
      var s := st.(nodes := st.nodes + 1);
      match node
      case Lit(_) =>
      case Variable(name) => GetVarSafe(d, s.scopes, name);
      case Binary(op, left, right) => BinaryKept(d, op, left, right, s);
      case Assign(name, value) => AssignKept(d, name, value, s);
      case If(cond, thn, els) => IfKept(d, cond, thn, els, s);
      case While(cond, body) => EvalWhileKept(d, cond, body, s, ZERO);
      case DoWhile(body, cond) => EvalDoWhileKept(d, body, cond, s);
      case For(init, guard, post, body) => ForLoopKept(d, init, guard, post, body, s);
      case Block(stmts) => EvalBlockKept(d, stmts, s, ZERO);
      case Return(result) => ReturnKept(d, result, s);
      case BreakLoop =>
      case ContinueLoop =>
      case Call(name, args) => CallNameKept(d, name, args, s);
      case FunctionExpr(params, body) => FunctionSafe(d, params, body, s.scopes, ClosureFreeVars(body, params));
    }
  }

  lemma {:induction false} BinaryKept(d: Discipline, op: string, left: Option<Node>, right: Node, st: State)
    requires d.Tame() && d.SafeOption(left) && d.Safe(right) && d.Good(st)
    ensures d.Fine(EvalBinary(d.sem, d.lim, op, left, right, st))
    ensures d.Spent(d.QuietOption(left) && d.Quiet(right), st, EvalBinary(d.sem, d.lim, op, left, right, st).1)
    decreases NodeBudget(d.lim, st), LoopBudget(d.lim, st), 5
  {
    hide Eval, EvalOption, Discipline.Safe, Discipline.SafeOption, Discipline.Quiet, Discipline.QuietOption,
         Discipline.SafeScopes, Honest;
    EvalOptionKept(d, left, st);
    var (l, s1) := EvalOption(d.sem, d.lim, left, st);
    if !(left.Some? && s1.flow != Normal) {
      EvalKept(d, right, s1);
      AbortedStays(d, right, s1);
      assert d.SafeOutcome(d.sem.binary(op, l, Eval(d.sem, d.lim, right, s1).0));
    }
  }

  /** Nothing happens after an abort. */
  lemma AbortedStays(d: Discipline, node: Node, st: State)
    ensures st.aborted ==> Eval(d.sem, d.lim, node, st) == (ZERO, st)
  {
  }

  lemma {:induction false} AssignKept(d: Discipline, name: string, value: Node, st: State)
    requires d.Tame() && d.Safe(value) && name !in d.plain && d.Good(st)
    ensures d.Fine(EvalAssign(d.sem, d.lim, name, value, st))
    ensures d.Spent(d.Quiet(value), st, EvalAssign(d.sem, d.lim, name, value, st).1)
    decreases NodeBudget(d.lim, st), LoopBudget(d.lim, st), 5
  {
    hide Eval, SetVar, GetVar, Discipline.Safe, Discipline.Quiet, Discipline.SafeScopes, Discipline.SafeValue, Honest;
    EvalKept(d, value, st);
    var (v, s1) := Eval(d.sem, d.lim, value, st);
    SetVarSafe(d, s1.scopes, name, v);
    GetVarSafe(d, SetVar(s1.scopes, name, v), name);
  }

  lemma {:induction false} IfKept(d: Discipline, cond: Node, thn: Option<Node>, els: Option<Node>, st: State)
    requires d.Tame() && d.Safe(cond) && d.SafeOption(thn) && d.SafeOption(els) && d.Good(st)
    ensures d.Fine(EvalIf(d.sem, d.lim, cond, thn, els, st))
    ensures d.Spent(d.Quiet(cond) && d.QuietOption(thn) && d.QuietOption(els), st, EvalIf(d.sem, d.lim, cond, thn, els, st).1)
    decreases NodeBudget(d.lim, st), LoopBudget(d.lim, st), 5
  {
    hide Eval, EvalOption, Truthy, Discipline.Safe, Discipline.SafeOption, Discipline.Quiet, Discipline.QuietOption,
         Discipline.SafeScopes, Honest;
    EvalKept(d, cond, st);
    var (c, s1) := Eval(d.sem, d.lim, cond, st);
    if s1.flow == Normal {
      var branch := if Truthy(c) then thn else els;
      EvalOptionKept(d, branch, s1);
      AbortedStaysOption(d, branch, s1);
    }
  }

  lemma AbortedStaysOption(d: Discipline, node: Option<Node>, st: State)
    ensures st.aborted ==> EvalOption(d.sem, d.lim, node, st) == (ZERO, st)
  {
  }

  lemma {:induction false} ForLoopKept(d: Discipline, init: Option<Node>, guard: Option<Node>, post: Option<Node>, body: Node,
                                       st: State)
    requires d.Tame() && d.SafeOption(init) && d.SafeOption(guard) && d.SafeOption(post) && d.Safe(body) && d.Good(st)
    ensures d.Fine(EvalForLoop(d.sem, d.lim, init, guard, post, body, st))
    decreases NodeBudget(d.lim, st), LoopBudget(d.lim, st), 5
  {
    hide EvalOption, EvalFor, Discipline.Safe, Discipline.SafeOption, Discipline.SafeScopes, Honest;
    EvalOptionKept(d, init, st);
    var s1 := EvalOption(d.sem, d.lim, init, st).1;
    if s1.flow == Normal && !s1.aborted {
      EvalForKept(d, guard, post, body, s1, ZERO);
    }
  }

  lemma {:induction false} ReturnKept(d: Discipline, result: Option<Node>, st: State)
    requires d.Tame() && d.SafeOption(result) && d.Good(st)
    ensures d.Fine(EvalReturn(d.sem, d.lim, result, st))
    ensures d.Spent(d.QuietOption(result), st, EvalReturn(d.sem, d.lim, result, st).1)
    decreases NodeBudget(d.lim, st), LoopBudget(d.lim, st), 5
  {
    hide EvalOption, Discipline.SafeOption, Discipline.QuietOption, Discipline.SafeScopes, Discipline.SafeValue, Honest;
    EvalOptionKept(d, result, st);
  }

  /** An argument list that aborts has spent the node budget, so the body of the function called aborts at once. */
  lemma {:induction false} CallNameKept(d: Discipline, name: string, args: seq<Node>, st: State)
    requires d.Tame() && d.QuietAll(args) && d.SafeAll(args) && d.Good(st) && !st.aborted
    ensures d.Fine(EvalCall(d.sem, d.lim, name, args, st))
    ensures d.Spent(name in d.plain, st, EvalCall(d.sem, d.lim, name, args, st).1)
    decreases NodeBudget(d.lim, st), LoopBudget(d.lim, st), 2 + |args|
  {
    hide EvalArgs, CallClosure, GetVar, Discipline.SafeAll, Discipline.QuietAll, Discipline.SafeScopes, Discipline.SafeValue,
         Honest;
    GetVarSafe(d, st.scopes, name);
    var none: seq<Value> := [];
    EvalArgsKept(d, args, st, none);
    var (vs, s1) := EvalArgs(d.sem, d.lim, args, st, none);
    GetVarSafe(d, s1.scopes, name);
    var callee := Callee(st.scopes, s1.scopes, name);
    if callee.Closure? {
      CallKept(d, callee, vs, s1);
    } else {
      assert d.SafeOutcome(d.sem.builtin(name, vs));
      ZeroSafe(d);
    }
  }

  lemma ZeroSafe(d: Discipline)
    ensures d.SafeValue(ZERO)
  {
  }

  lemma {:induction false} EvalOptionKept(d: Discipline, node: Option<Node>, st: State)
    requires d.Tame() && d.SafeOption(node) && d.Good(st)
    ensures d.Fine(EvalOption(d.sem, d.lim, node, st))
    ensures d.Spent(d.QuietOption(node), st, EvalOption(d.sem, d.lim, node, st).1)
    decreases NodeBudget(d.lim, st), LoopBudget(d.lim, st), 1
  {
    hide Eval, Discipline.Safe, Discipline.Quiet, Discipline.SafeScopes;
    match node
    case None =>
    case Some(n) => EvalKept(d, n, st);
  }

  lemma {:induction false} LoopBodyKept(d: Discipline, body: Node, st: State, last: Value)
    requires d.Tame() && d.Safe(body) && d.Good(st) && d.SafeValue(last)
    ensures d.FineTurn(LoopBody(d.sem, d.lim, body, st, last))
    decreases NodeBudget(d.lim, st), LoopBudget(d.lim, st), 1
  {
    hide Eval, Discipline.Safe, Discipline.SafeScopes, Discipline.SafeValue;
    var (s1, ok) := LoopTick(d.lim, st);
    if ok {
      EvalKept(d, body, s1);
    }
  }

  lemma {:induction false} WhileTurnKept(d: Discipline, cond: Node, body: Node, st: State, last: Value)
    requires d.Tame() && d.Safe(cond) && d.Safe(body) && d.Good(st) && d.SafeValue(last)
    ensures d.FineTurn(WhileTurn(d.sem, d.lim, cond, body, st, last))
    decreases NodeBudget(d.lim, st), LoopBudget(d.lim, st), 2
  {
    WhileTurnCases(d.sem, d.lim, cond, body, st, last);
    hide Eval, LoopBody, WhileTurn, Discipline.Safe, Discipline.SafeScopes, Discipline.SafeValue, Honest, Truthy;
    if st.flow == Normal || st.flow == Continue {
      EvalKept(d, cond, st.(flow := Normal));
      var (c, s1) := Eval(d.sem, d.lim, cond, st.(flow := Normal));
      if !Leaves(c, s1) {
        LoopBodyKept(d, body, s1, last);
      }
    }
  }

  lemma {:induction false} EvalWhileKept(d: Discipline, cond: Node, body: Node, st: State, last: Value)
    requires d.Tame() && d.Safe(cond) && d.Safe(body) && d.Good(st) && d.SafeValue(last)
    ensures d.Fine(EvalWhile(d.sem, d.lim, cond, body, st, last))
    decreases NodeBudget(d.lim, st), LoopBudget(d.lim, st), 4
  {
    hide Eval, WhileTurn, EvalWhile, Discipline.Safe, Discipline.SafeScopes, Discipline.SafeValue, Honest;
    UnfoldWhile(d.sem, d.lim, cond, body, st, last);
    WhileTurnKept(d, cond, body, st, last);
    var t := WhileTurn(d.sem, d.lim, cond, body, st, last);
    if t.Again? {
      EvalWhileKept(d, cond, body, t.st, t.value);
    }
  }

  lemma {:induction false} DoWhileTestKept(d: Discipline, cond: Node, st: State, v: Value)
    requires d.Tame() && d.Safe(cond) && d.Good(st) && d.SafeValue(v)
    ensures d.FineTurn(DoWhileTest(d.sem, d.lim, cond, st, v))
    decreases NodeBudget(d.lim, st), LoopBudget(d.lim, st), 1
  {
    hide Eval, Discipline.Safe, Discipline.SafeScopes, Discipline.SafeValue, Honest, Truthy;
    EvalKept(d, cond, st);
  }

  lemma {:induction false} DoWhileTurnKept(d: Discipline, body: Node, cond: Node, st: State)
    requires d.Tame() && d.Safe(body) && d.Safe(cond) && d.Good(st)
    ensures d.FineTurn(DoWhileTurn(d.sem, d.lim, body, cond, st))
    decreases NodeBudget(d.lim, st), LoopBudget(d.lim, st), 2
  {
    hide Eval, DoWhileTest, Discipline.Safe, Discipline.SafeScopes, Discipline.SafeValue, Honest;
    EvalKept(d, body, st);
    var (v, s1) := Eval(d.sem, d.lim, body, st);
    if s1.flow != Break && s1.flow != Flow.Return {
      DoWhileTestKept(d, cond, BeforeTest(s1), v);
    }
  }

  lemma {:induction false} EvalDoWhileKept(d: Discipline, body: Node, cond: Node, st: State)
    requires d.Tame() && d.Safe(body) && d.Safe(cond) && d.Good(st)
    ensures d.Fine(EvalDoWhile(d.sem, d.lim, body, cond, st))
    decreases NodeBudget(d.lim, st), LoopBudget(d.lim, st), 4
  {
    hide Eval, DoWhileTurn, EvalDoWhile, Discipline.Safe, Discipline.SafeScopes, Discipline.SafeValue, Honest;
    UnfoldDoWhile(d.sem, d.lim, body, cond, st);
    DoWhileTurnKept(d, body, cond, st);
    var t := DoWhileTurn(d.sem, d.lim, body, cond, st);
    if t.Again? {
      EvalDoWhileKept(d, body, cond, t.st);
    }
  }

  lemma {:induction false} ForPostKept(d: Discipline, post: Option<Node>, turn: Turn)
    requires d.Tame() && d.SafeOption(post) && d.FineTurn(turn)
    ensures d.FineTurn(ForPost(d.sem, d.lim, post, turn))
    decreases NodeBudget(d.lim, turn.st), LoopBudget(d.lim, turn.st), 1
  {
    hide Eval, Discipline.Safe, Discipline.SafeScopes, Discipline.SafeValue, Honest;
    if turn.Again? && post.Some? {
      EvalKept(d, post.value, turn.st);
    }
  }

  lemma {:induction false} ForTurnKept(d: Discipline, guard: Option<Node>, post: Option<Node>, body: Node,
                                       st: State, last: Value)
    requires d.Tame() && d.SafeOption(guard) && d.SafeOption(post) && d.Safe(body)
    requires d.Good(st) && d.SafeValue(last)
    ensures d.FineTurn(ForTurn(d.sem, d.lim, guard, post, body, st, last))
    decreases NodeBudget(d.lim, st), LoopBudget(d.lim, st), 2
  {
    ForTurnCases(d.sem, d.lim, guard, post, body, st, last);
    hide Eval, LoopBody, ForPost, ForTurn, Discipline.Safe, Discipline.SafeOption, Discipline.SafeScopes,
         Discipline.SafeValue, Honest, Truthy;
    EvalOptionKept(d, guard, st);
    var (c, s1) := EvalOption(d.sem, d.lim, guard, st);
    if !(guard.Some? && Leaves(c, s1)) {
      LoopBodyKept(d, body, s1, last);
      ForPostKept(d, post, LoopBody(d.sem, d.lim, body, s1, last));
    }
  }

  lemma {:induction false} EvalForKept(d: Discipline, guard: Option<Node>, post: Option<Node>, body: Node,
                                       st: State, last: Value)
    requires d.Tame() && d.SafeOption(guard) && d.SafeOption(post) && d.Safe(body)
    requires d.Good(st) && d.SafeValue(last)
    ensures d.Fine(EvalFor(d.sem, d.lim, guard, post, body, st, last))
    decreases NodeBudget(d.lim, st), LoopBudget(d.lim, st), 4
  {
    hide Eval, ForTurn, EvalFor, Discipline.Safe, Discipline.SafeOption, Discipline.SafeScopes, Discipline.SafeValue, Honest;
    UnfoldFor(d.sem, d.lim, guard, post, body, st, last);
    ForTurnKept(d, guard, post, body, st, last);
    var t := ForTurn(d.sem, d.lim, guard, post, body, st, last);
    if t.Again? {
      EvalForKept(d, guard, post, body, t.st, t.value);
    }
  }

  lemma {:induction false} EvalBlockKept(d: Discipline, stmts: seq<Node>, st: State, last: Value)
    requires d.Tame() && d.SafeAll(stmts) && d.Good(st) && d.SafeValue(last)
    ensures d.Fine(EvalBlock(d.sem, d.lim, stmts, st, last))
    ensures d.Spent(d.QuietAll(stmts), st, EvalBlock(d.sem, d.lim, stmts, st, last).1)
    decreases NodeBudget(d.lim, st), LoopBudget(d.lim, st), 1 + |stmts|
  {
    hide Eval, Discipline.Safe, Discipline.Quiet, Discipline.SafeScopes, Discipline.SafeValue, Honest;
    if stmts != [] {
      EvalKept(d, stmts[0], st);
      var (v, s1) := Eval(d.sem, d.lim, stmts[0], st);
      if s1.flow == Normal && !s1.aborted {
        EvalBlockKept(d, stmts[1..], s1, v);
      }
    }
  }

  lemma {:induction false} EvalArgsKept(d: Discipline, args: seq<Node>, st: State, vals: seq<Value>)
    requires d.Tame() && d.SafeAll(args) && d.Good(st) && d.SafeValues(vals)
    ensures d.SafeValues(EvalArgs(d.sem, d.lim, args, st, vals).0) && d.Good(EvalArgs(d.sem, d.lim, args, st, vals).1)
    ensures d.Spent(d.QuietAll(args), st, EvalArgs(d.sem, d.lim, args, st, vals).1)
    decreases NodeBudget(d.lim, st), LoopBudget(d.lim, st), 1 + |args|
  {
    hide Eval, Discipline.Safe, Discipline.Quiet, Discipline.SafeScopes, Discipline.SafeValue, Honest;
    if args != [] {
      EvalKept(d, args[0], st);
      var (v, s1) := Eval(d.sem, d.lim, args[0], st);
      if s1.flow == Normal && !s1.aborted {
        EvalArgsKept(d, args[1..], s1, vals + [v]);
      }
    }
  }

  lemma {:induction false} CallKept(d: Discipline, f: Value, args: seq<Value>, st: State)
    requires f.Closure? && d.Tame() && d.SafeValue(f) && d.SafeValues(args)
    requires d.Good(st) && (st.aborted ==> st.nodes > d.lim.maxNodes)
    ensures d.Fine(CallClosure(d.sem, d.lim, f, args, st))
    decreases NodeBudget(d.lim, st), LoopBudget(d.lim, st), 1
  {
    ZeroSafe(d);
    if st.depth + 1 <= d.lim.maxDepth {
      var frame := Frame(f, args, st.(depth := st.depth + 1));
      FrameSafe(d, f, args, st.(depth := st.depth + 1));
      if st.aborted {
        SpentFrame(d, f, frame);
      } else {
        BodySafe(d, f);
        EvalKept(d, f.body, frame);
      }
    }
    hide Eval, Discipline.SafeScopes, Discipline.SafeValue, Honest, BindParams, Import;
  }

  lemma BodySafe(d: Discipline, f: Value)
    requires f.Closure? && d.SafeValue(f)
    ensures d.Safe(f.body)
  {
  }

  lemma SpentFrame(d: Discipline, f: Value, frame: State)
    requires f.Closure? && !frame.aborted && frame.nodes > d.lim.maxNodes
    ensures Eval(d.sem, d.lim, f.body, frame) == (ZERO, frame.(nodes := frame.nodes + 1, aborted := true, overrun := true))
  {
    hide EvalBinary, EvalAssign, EvalIf, EvalWhile, EvalDoWhile, EvalForLoop, EvalBlock, EvalReturn, EvalCall,
         SnapshotNames, ClosureFreeVars, GetVar, LiteralValue, Honest;
  }

  /** Under the discipline the flag tells, at the end of every run, exactly whether a limit was passed. */
  lemma LimitsHonoured(d: Discipline, node: Node, st: State)
    requires d.Tame() && d.Safe(node) && d.SafeScopes(st.scopes) && d.SafeValue(st.returned)
    requires !st.aborted && !st.overrun && st.loops <= d.lim.maxLoops
    ensures
      var end := Eval(d.sem, d.lim, node, st).1;
      && end.aborted == end.overrun
      && (end.nodes > d.lim.maxNodes || end.loops > d.lim.maxLoops ==> end.aborted)
  {
    BudgetHonoured(d.sem, d.lim, node, st);
    EvalKept(d, node, st);
  }
}
