// Two runs side by side. One family of lemmas covers both questions asked about the
// evaluator: may the node budget grow, and may a closure see fewer variables?

module Simulation {
  import opened Options
  import opened Script
  import opened FreeVariables
  import opened Evaluator

  /** The same limits, except perhaps for a larger node budget. */
  ghost predicate Larger(lim': Limits, lim: Limits) {
    lim.maxNodes <= lim'.maxNodes && lim'.maxLoops == lim.maxLoops && lim'.maxDepth == lim.maxDepth
  }

  /**
   * What the two runs share: the semantics, the limits of either run, whether they start from equal
   * scopes, and otherwise the names they may read and the names they may assign.
   */
  datatype Setting = Setting(sem: Semantics, lim: Limits, lim': Limits, same: bool,
                             readable: set<string>, writable: set<string>)
  {
    ghost predicate Valid() { Larger(lim', lim) }

    /** The first run stayed within its budget, or the budgets are equal anyway. */
    ghost predicate Fits(st: State) { lim' == lim || st.nodes <= lim.maxNodes }

    ghost predicate Covers(node: Node) { Reads(node) <= readable && Assigns(node) <= writable }

    ghost predicate CoversOption(node: Option<Node>) { ReadsOption(node) <= readable && AssignsOption(node) <= writable }

    ghost predicate CoversAll(nodes: seq<Node>) { ReadsAll(nodes) <= readable && AssignsAll(nodes) <= writable }

    /** The second chain agrees on every name read; on names assigned it may lack variables that are not constant. */
    ghost predicate Alike(second: seq<Scope>, first: seq<Scope>) {
      if same then second == first
      else
        && |second| == |first| > 0
        && (forall n :: n in readable ==> Lookup(second, n) == Lookup(first, n))
        && (forall n :: n in writable ==> Lookup(second, n) == Lookup(first, n) || Unset(second, first, n))
    }

    ghost predicate Unset(second: seq<Scope>, first: seq<Scope>, n: string) {
      Lookup(second, n).None? && Lookup(first, n).Some? && !Lookup(first, n).value.constant
    }

    /** The two states differ at most in their scopes. */
    ghost predicate Matches(second: State, first: State) {
      second == first.(scopes := second.scopes) && Alike(second.scopes, first.scopes)
    }

    ghost predicate SameResult(second: (Value, State), first: (Value, State)) {
      second.0 == first.0 && Matches(second.1, first.1)
    }

    ghost predicate SameTurn(second: Turn, first: Turn) {
      second.Stop? == first.Stop? && second.value == first.value && Matches(second.st, first.st)
    }
  }

  lemma SetVarAlike(k: Setting, second: seq<Scope>, first: seq<Scope>, name: string, v: Value)
    requires k.Alike(second, first) && name in k.writable
    ensures k.Alike(SetVar(second, name, v), SetVar(first, name, v))
    ensures GetVar(SetVar(second, name, v), name) == GetVar(SetVar(first, name, v), name)
  {
    if !k.same {
      SetVarLookup(second, name, v, name);
      SetVarLookup(first, name, v, name);
      hide SetVar;
      forall n | n in k.readable ensures Lookup(SetVar(second, name, v), n) == Lookup(SetVar(first, name, v), n) {
        SetVarLookup(second, name, v, n);
        SetVarLookup(first, name, v, n);
      }
      forall n | n in k.writable
        ensures Lookup(SetVar(second, name, v), n) == Lookup(SetVar(first, name, v), n) ||
                k.Unset(SetVar(second, name, v), SetVar(first, name, v), n)
      {
        SetVarLookup(second, name, v, n);
        SetVarLookup(first, name, v, n);
      }
    }
  }

  lemma SnapshotAlike(second: seq<Scope>, first: seq<Scope>, names: seq<string>)
    requires forall n :: n in names ==> Lookup(second, n) == Lookup(first, n)
    ensures SnapshotNames(second, names) == SnapshotNames(first, names)
  {
    forall n ensures n in SnapshotNames(second, names) <==> n in SnapshotNames(first, names) {
      SnapshotAllLookup(second, n);
      SnapshotAllLookup(first, n);
    }
    forall n | n in SnapshotNames(second, names)
      ensures SnapshotNames(second, names)[n] == SnapshotNames(first, names)[n]
    {
      SnapshotAllLookup(second, n);
      SnapshotAllLookup(first, n);
    }
  }

  lemma FunctionAlike(k: Setting, params: seq<string>, body: Node, second: seq<Scope>, first: seq<Scope>)
    requires k.Alike(second, first) && Reads(body) <= k.readable
    ensures SnapshotNames(second, ClosureFreeVars(body, params)) == SnapshotNames(first, ClosureFreeVars(body, params))
  {
    if !k.same {
      ClosureFreeVarsMeaning(body, params);
      SnapshotAlike(second, first, ClosureFreeVars(body, params));
    }
  }

  lemma MatchFacts(k: Setting, second: State, first: State)
    requires k.Matches(second, first)
    ensures second.flow == first.flow && second.aborted == first.aborted
    ensures forall fl :: k.Matches(second.(flow := fl), first.(flow := fl))
  {
    hide Setting.Alike;
  }

  lemma TickMatches(k: Setting, second: State, first: State)
    requires k.Valid() && k.Matches(second, first)
    ensures LoopTick(k.lim', second).1 == LoopTick(k.lim, first).1
    ensures k.Matches(LoopTick(k.lim', second).0, LoopTick(k.lim, first).0)
  {
    hide Setting.Alike;
  }

  // ----- the simulation -----

  lemma {:induction false} EvalAlike(k: Setting, node: Node, st: State, st': State)
    requires k.Valid() && k.Covers(node) && k.Matches(st', st) && k.Fits(Eval(k.sem, k.lim, node, st).1)
    ensures k.SameResult(Eval(k.sem, k.lim', node, st'), Eval(k.sem, k.lim, node, st))
    decreases NodeBudget(k.lim, st), LoopBudget(k.lim, st), 0
  {
    hide EvalBinary, EvalAssign, EvalIf, EvalWhile, EvalDoWhile, EvalForLoop, EvalBlock, EvalReturn, EvalCall,
         SnapshotNames, ClosureFreeVars, Setting.Alike, Honest, LiteralValue, GetVar;
    if !st.aborted && st.nodes < k.lim.maxNodes {
      var s, s' := st.(nodes := st.nodes + 1), st'.(nodes := st.nodes + 1);
      match node
      case Lit(_) =>
      case Variable(name) => ReadAlike(k, name, s'.scopes, s.scopes);
      case Binary(op, left, right) => BinaryAlike(k, op, left, right, s, s');
      case Assign(name, value) => AssignAlike(k, name, value, s, s');
      case If(cond, thn, els) => IfAlike(k, cond, thn, els, s, s');
      case While(cond, body) => EvalWhileAlike(k, cond, body, s, s', ZERO);
      case DoWhile(body, cond) => EvalDoWhileAlike(k, body, cond, s, s');
      case For(init, guard, post, body) => ForLoopAlike(k, init, guard, post, body, s, s');
      case Block(stmts) => EvalBlockAlike(k, stmts, s, s', ZERO);
      case Return(result) => ReturnAlike(k, result, s, s');
      case BreakLoop =>
      case ContinueLoop =>
      case Call(name, args) => CallNameAlike(k, name, args, s, s');
      case FunctionExpr(params, body) => FunctionAlike(k, params, body, s'.scopes, s.scopes);
    }
  }

  lemma ReadAlike(k: Setting, name: string, second: seq<Scope>, first: seq<Scope>)
    requires k.Alike(second, first) && name in k.readable
    ensures GetVar(second, name) == GetVar(first, name)
  {
  }

  lemma {:induction false} BinaryAlike(k: Setting, op: string, left: Option<Node>, right: Node, st: State, st': State)
    requires k.Valid() && k.CoversOption(left) && k.Covers(right) && k.Matches(st', st)
    requires k.Fits(EvalBinary(k.sem, k.lim, op, left, right, st).1)
    ensures k.SameResult(EvalBinary(k.sem, k.lim', op, left, right, st'), EvalBinary(k.sem, k.lim, op, left, right, st))
    decreases NodeBudget(k.lim, st), LoopBudget(k.lim, st), 5
  {
    hide Eval, EvalOption, Setting.Alike, Setting.Covers, Setting.CoversOption, Honest;
    EvalOptionAlike(k, left, st, st');
    var (l, s1) := EvalOption(k.sem, k.lim, left, st);
    if !(left.Some? && s1.flow != Normal) {
      EvalAlike(k, right, s1, EvalOption(k.sem, k.lim', left, st').1);
    }
  }

  lemma {:induction false} AssignAlike(k: Setting, name: string, value: Node, st: State, st': State)
    requires k.Valid() && k.Covers(value) && name in k.writable && k.Matches(st', st)
    requires k.Fits(EvalAssign(k.sem, k.lim, name, value, st).1)
    ensures k.SameResult(EvalAssign(k.sem, k.lim', name, value, st'), EvalAssign(k.sem, k.lim, name, value, st))
    decreases NodeBudget(k.lim, st), LoopBudget(k.lim, st), 5
  {
    hide Eval, SetVar, GetVar, Setting.Alike, Setting.Covers, Honest;
    EvalAlike(k, value, st, st');
    var (v, s1) := Eval(k.sem, k.lim, value, st);
    SetVarAlike(k, Eval(k.sem, k.lim', value, st').1.scopes, s1.scopes, name, v);
  }

  lemma {:induction false} IfAlike(k: Setting, cond: Node, thn: Option<Node>, els: Option<Node>, st: State, st': State)
    requires k.Valid() && k.Covers(cond) && k.CoversOption(thn) && k.CoversOption(els) && k.Matches(st', st)
    requires k.Fits(EvalIf(k.sem, k.lim, cond, thn, els, st).1)
    ensures k.SameResult(EvalIf(k.sem, k.lim', cond, thn, els, st'), EvalIf(k.sem, k.lim, cond, thn, els, st))
    decreases NodeBudget(k.lim, st), LoopBudget(k.lim, st), 5
  {
    hide Eval, EvalOption, Truthy, Setting.Alike, Setting.Covers, Setting.CoversOption, Honest;
    EvalAlike(k, cond, st, st');
    var (c, s1) := Eval(k.sem, k.lim, cond, st);
    if s1.flow == Normal {
      EvalOptionAlike(k, if Truthy(c) then thn else els, s1, Eval(k.sem, k.lim', cond, st').1);
    }
  }

  lemma {:induction false} ForLoopAlike(k: Setting, init: Option<Node>, guard: Option<Node>, post: Option<Node>, body: Node,
                                        st: State, st': State)
    requires k.Valid() && k.CoversOption(init) && k.CoversOption(guard) && k.CoversOption(post) && k.Covers(body) && k.Matches(st', st)
    requires k.Fits(EvalForLoop(k.sem, k.lim, init, guard, post, body, st).1)
    ensures k.SameResult(EvalForLoop(k.sem, k.lim', init, guard, post, body, st'), EvalForLoop(k.sem, k.lim, init, guard, post, body, st))
    decreases NodeBudget(k.lim, st), LoopBudget(k.lim, st), 5
  {
    hide EvalOption, EvalFor, Setting.Alike, Setting.Covers, Setting.CoversOption, Honest;
    EvalOptionAlike(k, init, st, st');
    var (_, s1) := EvalOption(k.sem, k.lim, init, st);
    if s1.flow == Normal && !s1.aborted {
      EvalForAlike(k, guard, post, body, s1, EvalOption(k.sem, k.lim', init, st').1, ZERO);
    }
  }

  lemma {:induction false} ReturnAlike(k: Setting, result: Option<Node>, st: State, st': State)
    requires k.Valid() && k.CoversOption(result) && k.Matches(st', st)
    requires k.Fits(EvalReturn(k.sem, k.lim, result, st).1)
    ensures k.SameResult(EvalReturn(k.sem, k.lim', result, st'), EvalReturn(k.sem, k.lim, result, st))
    decreases NodeBudget(k.lim, st), LoopBudget(k.lim, st), 5
  {
    hide EvalOption, Setting.Alike, Setting.CoversOption, Honest;
    EvalOptionAlike(k, result, st, st');
  }

  lemma {:induction false} CallNameAlike(k: Setting, name: string, args: seq<Node>, st: State, st': State)
    requires k.Valid() && name in k.readable && k.CoversAll(args) && k.Matches(st', st)
    requires k.Fits(EvalCall(k.sem, k.lim, name, args, st).1)
    ensures k.SameResult(EvalCall(k.sem, k.lim', name, args, st'), EvalCall(k.sem, k.lim, name, args, st))
    decreases NodeBudget(k.lim, st), LoopBudget(k.lim, st), 2 + |args|
  {
    hide EvalArgs, CallClosure, GetVar, Setting.Alike, Setting.CoversAll, Honest;
    ReadAlike(k, name, st'.scopes, st.scopes);
    var (vs, s1) := EvalArgs(k.sem, k.lim, args, st, []);
    var s1' := EvalArgs(k.sem, k.lim', args, st', []).1;
    ArgsFit(k, name, args, st);
    EvalArgsAlike(k, args, st, st', []);
    ReadAlike(k, name, s1'.scopes, s1.scopes);
    var callee := Callee(st.scopes, s1.scopes, name);
    if callee.Closure? {
      CallAlike(k, callee, vs, s1, s1');
    }
  }

  lemma ArgsFit(k: Setting, name: string, args: seq<Node>, st: State)
    requires k.Fits(EvalCall(k.sem, k.lim, name, args, st).1)
    ensures k.Fits(EvalArgs(k.sem, k.lim, args, st, []).1)
  {
    hide EvalArgs, CallClosure, GetVar, Honest;
  }

  lemma {:induction false} EvalOptionAlike(k: Setting, node: Option<Node>, st: State, st': State)
    requires k.Valid() && k.CoversOption(node) && k.Matches(st', st) && k.Fits(EvalOption(k.sem, k.lim, node, st).1)
    ensures k.SameResult(EvalOption(k.sem, k.lim', node, st'), EvalOption(k.sem, k.lim, node, st))
    decreases NodeBudget(k.lim, st), LoopBudget(k.lim, st), 1
  {
    hide Eval, Setting.Alike;
    match node
    case None =>
    case Some(n) => EvalAlike(k, n, st, st');
  }

  lemma {:induction false} LoopBodyAlike(k: Setting, body: Node, st: State, st': State, last: Value)
    requires k.Valid() && k.Covers(body) && k.Matches(st', st) && k.Fits(LoopBody(k.sem, k.lim, body, st, last).st)
    ensures k.SameTurn(LoopBody(k.sem, k.lim', body, st', last), LoopBody(k.sem, k.lim, body, st, last))
    decreases NodeBudget(k.lim, st), LoopBudget(k.lim, st), 1
  {
    hide Eval, Setting.Alike;
    var (s1, ok) := LoopTick(k.lim, st);
    if ok {
      EvalAlike(k, body, s1, LoopTick(k.lim', st').0);
    }
  }

  lemma {:induction false} WhileTurnAlike(k: Setting, cond: Node, body: Node, st: State, st': State, last: Value)
    requires k.Valid() && k.Covers(cond) && k.Covers(body) && k.Matches(st', st)
    requires k.Fits(WhileTurn(k.sem, k.lim, cond, body, st, last).st)
    ensures k.SameTurn(WhileTurn(k.sem, k.lim', cond, body, st', last), WhileTurn(k.sem, k.lim, cond, body, st, last))
    decreases NodeBudget(k.lim, st), LoopBudget(k.lim, st), 3
  {
    hide Eval, LoopBody, Setting.Alike, Setting.Covers, Honest, Truthy;
    if st.flow == Normal || st.flow == Continue {
      var s, s' := st.(flow := Normal), st'.(flow := Normal);
      assert k.Matches(s', s) && k.Fits(Eval(k.sem, k.lim, cond, s).1);
      hide Setting.Matches;
      WhileTestAlike(k, cond, s, s');
      WhileTurnRest(k, cond, body, st, st', last);
    }
  }

  lemma {:induction false} WhileTestAlike(k: Setting, cond: Node, st: State, st': State)
    requires k.Valid() && k.Covers(cond) && k.Matches(st', st) && k.Fits(Eval(k.sem, k.lim, cond, st).1)
    ensures k.SameResult(Eval(k.sem, k.lim', cond, st'), Eval(k.sem, k.lim, cond, st))
    decreases NodeBudget(k.lim, st), LoopBudget(k.lim, st), 1
  {
    hide Eval, Setting.Alike, Setting.Covers, Setting.Matches;
    EvalAlike(k, cond, st, st');
  }

  lemma {:induction false} WhileTurnRest(k: Setting, cond: Node, body: Node, st: State, st': State, last: Value)
    requires k.Valid() && k.Covers(body) && k.Matches(st', st) && (st.flow == Normal || st.flow == Continue)
    requires k.Fits(WhileTurn(k.sem, k.lim, cond, body, st, last).st)
    requires k.SameResult(Eval(k.sem, k.lim', cond, st'.(flow := Normal)), Eval(k.sem, k.lim, cond, st.(flow := Normal)))
    ensures k.SameTurn(WhileTurn(k.sem, k.lim', cond, body, st', last), WhileTurn(k.sem, k.lim, cond, body, st, last))
    decreases NodeBudget(k.lim, st), LoopBudget(k.lim, st), 2
  {
    WhileTurnCases(k.sem, k.lim, cond, body, st, last);
    WhileTurnCases(k.sem, k.lim', cond, body, st', last);
    hide Eval, LoopBody, WhileTurn, Setting.Alike, Setting.Matches, Setting.Covers, Honest, Truthy;
    MatchFacts(k, st', st);
    var (c, s1) := Eval(k.sem, k.lim, cond, st.(flow := Normal));
    var s1' := Eval(k.sem, k.lim', cond, st'.(flow := Normal)).1;
    MatchFacts(k, s1', s1);
    if s1.flow == Normal && !s1.aborted && Truthy(c) {
      LoopBodyAlike(k, body, s1, s1', last);
    }
  }

  lemma {:induction false} EvalWhileAlike(k: Setting, cond: Node, body: Node, st: State, st': State, last: Value)
    requires k.Valid() && k.Covers(cond) && k.Covers(body) && k.Matches(st', st)
    requires k.Fits(EvalWhile(k.sem, k.lim, cond, body, st, last).1)
    ensures k.SameResult(EvalWhile(k.sem, k.lim', cond, body, st', last), EvalWhile(k.sem, k.lim, cond, body, st, last))
    decreases NodeBudget(k.lim, st), LoopBudget(k.lim, st), 4
  {
    hide Eval, WhileTurn, EvalWhile, Setting.Alike, Setting.Matches, Setting.Covers, Honest;
    UnfoldWhile(k.sem, k.lim, cond, body, st, last);
    UnfoldWhile(k.sem, k.lim', cond, body, st', last);
    WhileTurnAlike(k, cond, body, st, st', last);
    var t := WhileTurn(k.sem, k.lim, cond, body, st, last);
    if t.Again? {
      EvalWhileAlike(k, cond, body, t.st, WhileTurn(k.sem, k.lim', cond, body, st', last).st, t.value);
    }
  }

  lemma {:induction false} DoWhileTestAlike(k: Setting, cond: Node, st: State, st': State, v: Value)
    requires k.Valid() && k.Covers(cond) && k.Matches(st', st) && k.Fits(DoWhileTest(k.sem, k.lim, cond, st, v).st)
    ensures k.SameTurn(DoWhileTest(k.sem, k.lim', cond, st', v), DoWhileTest(k.sem, k.lim, cond, st, v))
    decreases NodeBudget(k.lim, st), LoopBudget(k.lim, st), 2
  {
    hide Eval, Setting.Alike, Setting.Covers, Setting.Matches, LoopTick, Honest, Truthy;
    var s1, s1' := Eval(k.sem, k.lim, cond, st).1, Eval(k.sem, k.lim', cond, st').1;
    TickFits(k, s1);
    WhileTestAlike(k, cond, st, st');
    MatchFacts(k, s1', s1);
    TickMatches(k, s1', s1);
  }

  lemma TickFits(k: Setting, st: State)
    ensures k.Fits(LoopTick(k.lim, st).0) ==> k.Fits(st)
  {
  }

  lemma {:induction false} DoWhileTurnAlike(k: Setting, body: Node, cond: Node, st: State, st': State)
    requires k.Valid() && k.Covers(cond) && k.Covers(body) && k.Matches(st', st)
    requires k.Fits(DoWhileTurn(k.sem, k.lim, body, cond, st).st)
    ensures k.SameTurn(DoWhileTurn(k.sem, k.lim', body, cond, st'), DoWhileTurn(k.sem, k.lim, body, cond, st))
    decreases NodeBudget(k.lim, st), LoopBudget(k.lim, st), 3
  {
    hide Eval, DoWhileTest, Setting.Alike, Setting.Matches, Setting.Covers, Honest;
    WhileTestAlike(k, body, st, st');
    var (v, s1) := Eval(k.sem, k.lim, body, st);
    var s1' := Eval(k.sem, k.lim', body, st').1;
    MatchFacts(k, s1', s1);
    if s1.flow != Break && s1.flow != Flow.Return {
      DoWhileTestAlike(k, cond, BeforeTest(s1), BeforeTest(s1'), v);
    }
  }

  lemma {:induction false} EvalDoWhileAlike(k: Setting, body: Node, cond: Node, st: State, st': State)
    requires k.Valid() && k.Covers(cond) && k.Covers(body) && k.Matches(st', st)
    requires k.Fits(EvalDoWhile(k.sem, k.lim, body, cond, st).1)
    ensures k.SameResult(EvalDoWhile(k.sem, k.lim', body, cond, st'), EvalDoWhile(k.sem, k.lim, body, cond, st))
    decreases NodeBudget(k.lim, st), LoopBudget(k.lim, st), 4
  {
    hide Eval, DoWhileTurn, EvalDoWhile, Setting.Alike, Setting.Matches, Setting.Covers, Honest;
    UnfoldDoWhile(k.sem, k.lim, body, cond, st);
    UnfoldDoWhile(k.sem, k.lim', body, cond, st');
    DoWhileTurnAlike(k, body, cond, st, st');
    var t := DoWhileTurn(k.sem, k.lim, body, cond, st);
    if t.Again? {
      EvalDoWhileAlike(k, body, cond, t.st, DoWhileTurn(k.sem, k.lim', body, cond, st').st);
    }
  }

  lemma {:induction false} ForPostAlike(k: Setting, post: Option<Node>, turn: Turn, turn': Turn)
    requires k.Valid() && k.CoversOption(post) && k.SameTurn(turn', turn)
    requires k.Fits(ForPost(k.sem, k.lim, post, turn).st)
    ensures k.SameTurn(ForPost(k.sem, k.lim', post, turn'), ForPost(k.sem, k.lim, post, turn))
    decreases NodeBudget(k.lim, turn.st), LoopBudget(k.lim, turn.st), 1
  {
    hide Eval, Setting.Alike;
    if turn.Again? && post.Some? {
      EvalAlike(k, post.value, turn.st, turn'.st);
    }
  }

  lemma {:induction false} ForTurnAlike(k: Setting, guard: Option<Node>, post: Option<Node>, body: Node,
                                        st: State, st': State, last: Value)
    requires k.Valid() && k.CoversOption(guard) && k.CoversOption(post) && k.Covers(body) && k.Matches(st', st)
    requires k.Fits(ForTurn(k.sem, k.lim, guard, post, body, st, last).st)
    ensures k.SameTurn(ForTurn(k.sem, k.lim', guard, post, body, st', last),
                       ForTurn(k.sem, k.lim, guard, post, body, st, last))
    decreases NodeBudget(k.lim, st), LoopBudget(k.lim, st), 3
  {
    hide Eval, EvalOption, LoopBody, ForPost, Setting.Alike, Setting.Matches, Setting.Covers, Setting.CoversOption, Honest,
         Truthy;
    ForFits(k, guard, post, body, st, last);
    hide ForTurn;
    EvalOptionAlike(k, guard, st, st');
    ForTurnRest(k, guard, post, body, st, st', last);
  }

  lemma ForFits(k: Setting, guard: Option<Node>, post: Option<Node>, body: Node, st: State, last: Value)
    requires k.Fits(ForTurn(k.sem, k.lim, guard, post, body, st, last).st)
    ensures k.Fits(EvalOption(k.sem, k.lim, guard, st).1)
  {
    hide Eval, EvalOption, LoopBody, ForPost, Honest, Truthy;
  }

  lemma {:induction false} ForTurnRest(k: Setting, guard: Option<Node>, post: Option<Node>, body: Node,
                                       st: State, st': State, last: Value)
    requires k.Valid() && k.CoversOption(post) && k.Covers(body)
    requires k.Fits(ForTurn(k.sem, k.lim, guard, post, body, st, last).st)
    requires k.SameResult(EvalOption(k.sem, k.lim', guard, st'), EvalOption(k.sem, k.lim, guard, st))
    ensures k.SameTurn(ForTurn(k.sem, k.lim', guard, post, body, st', last),
                       ForTurn(k.sem, k.lim, guard, post, body, st, last))
    decreases NodeBudget(k.lim, st), LoopBudget(k.lim, st), 2
  {
    ForTurnCases(k.sem, k.lim, guard, post, body, st, last);
    ForTurnCases(k.sem, k.lim', guard, post, body, st', last);
    hide Eval, EvalOption, LoopBody, ForPost, ForTurn, Setting.Alike, Setting.Matches, Setting.Covers, Setting.CoversOption,
         Honest, Truthy;
    var (c, s1) := EvalOption(k.sem, k.lim, guard, st);
    var s1' := EvalOption(k.sem, k.lim', guard, st').1;
    MatchFacts(k, s1', s1);
    if !(guard.Some? && (s1.flow != Normal || s1.aborted || !Truthy(c))) {
      LoopBodyAlike(k, body, s1, s1', last);
      ForPostAlike(k, post, LoopBody(k.sem, k.lim, body, s1, last), LoopBody(k.sem, k.lim', body, s1', last));
    }
  }

  lemma {:induction false} EvalForAlike(k: Setting, guard: Option<Node>, post: Option<Node>, body: Node,
                                        st: State, st': State, last: Value)
    requires k.Valid() && k.CoversOption(guard) && k.CoversOption(post) && k.Covers(body) && k.Matches(st', st)
    requires k.Fits(EvalFor(k.sem, k.lim, guard, post, body, st, last).1)
    ensures k.SameResult(EvalFor(k.sem, k.lim', guard, post, body, st', last),
                         EvalFor(k.sem, k.lim, guard, post, body, st, last))
    decreases NodeBudget(k.lim, st), LoopBudget(k.lim, st), 4
  {
    hide Eval, ForTurn, EvalFor, Setting.Alike, Setting.Matches, Setting.Covers, Setting.CoversOption, Honest;
    UnfoldFor(k.sem, k.lim, guard, post, body, st, last);
    UnfoldFor(k.sem, k.lim', guard, post, body, st', last);
    ForTurnAlike(k, guard, post, body, st, st', last);
    var t := ForTurn(k.sem, k.lim, guard, post, body, st, last);
    if t.Again? {
      EvalForAlike(k, guard, post, body, t.st, ForTurn(k.sem, k.lim', guard, post, body, st', last).st, t.value);
    }
  }

  lemma {:induction false} EvalBlockAlike(k: Setting, stmts: seq<Node>, st: State, st': State, last: Value)
    requires k.Valid() && k.CoversAll(stmts) && k.Matches(st', st)
    requires k.Fits(EvalBlock(k.sem, k.lim, stmts, st, last).1)
    ensures k.SameResult(EvalBlock(k.sem, k.lim', stmts, st', last), EvalBlock(k.sem, k.lim, stmts, st, last))
    decreases NodeBudget(k.lim, st), LoopBudget(k.lim, st), 1 + |stmts|
  {
    hide Eval, Setting.Alike;
    if stmts != [] {
      EvalAlike(k, stmts[0], st, st');
      var (v, s1) := Eval(k.sem, k.lim, stmts[0], st);
      if s1.flow == Normal && !s1.aborted {
        EvalBlockAlike(k, stmts[1..], s1, Eval(k.sem, k.lim', stmts[0], st').1, v);
      }
    }
  }

  lemma {:induction false} EvalArgsAlike(k: Setting, args: seq<Node>, st: State, st': State, vals: seq<Value>)
    requires k.Valid() && k.CoversAll(args) && k.Matches(st', st)
    requires k.Fits(EvalArgs(k.sem, k.lim, args, st, vals).1)
    ensures EvalArgs(k.sem, k.lim', args, st', vals).0 == EvalArgs(k.sem, k.lim, args, st, vals).0
    ensures k.Matches(EvalArgs(k.sem, k.lim', args, st', vals).1, EvalArgs(k.sem, k.lim, args, st, vals).1)
    decreases NodeBudget(k.lim, st), LoopBudget(k.lim, st), 1 + |args|
  {
    hide Eval, Setting.Alike;
    if args != [] {
      EvalAlike(k, args[0], st, st');
      var (v, s1) := Eval(k.sem, k.lim, args[0], st);
      if s1.flow == Normal && !s1.aborted {
        EvalArgsAlike(k, args[1..], s1, Eval(k.sem, k.lim', args[0], st').1, vals + [v]);
      }
    }
  }

  /** The frame of a call does not depend on the caller's scopes, so the two calls run from equal states. */
  lemma {:induction false} CallAlike(k: Setting, f: Value, args: seq<Value>, st: State, st': State)
    requires f.Closure? && k.Valid() && k.Matches(st', st) && k.Fits(CallClosure(k.sem, k.lim, f, args, st).1)
    ensures k.SameResult(CallClosure(k.sem, k.lim', f, args, st'), CallClosure(k.sem, k.lim, f, args, st))
    decreases NodeBudget(k.lim, st), LoopBudget(k.lim, st), 1
  {
    hide Eval, Setting.Alike;
    if st.depth + 1 <= k.lim.maxDepth {
      var frame := Frame(f, args, st.(depth := st.depth + 1));
      var inner := k.(same := true, readable := Reads(f.body), writable := Assigns(f.body));
      SameScopesAlike(inner, frame.scopes);
      EvalAlike(inner, f.body, frame, frame);
      SameScopesEqual(inner, Eval(k.sem, k.lim', f.body, frame).1, Eval(k.sem, k.lim, f.body, frame).1);
    }
  }

  lemma SameScopesAlike(k: Setting, scopes: seq<Scope>)
    requires k.same
    ensures k.Alike(scopes, scopes)
  {
  }

  lemma SameScopesEqual(k: Setting, second: State, first: State)
    requires k.same && k.Matches(second, first)
    ensures second == first
  {
  }
}
