// The results about whole runs: the node budget, and capture by need.

module Closures {
  import opened Options
  import opened Script
  import opened FreeVariables
  import opened Evaluator
  import opened Simulation

  // ----- the node budget -----

  /** Whatever the script does, a run that spent more nodes than allowed comes back marked as aborted. */
  lemma BudgetHonoured(sem: Semantics, lim: Limits, node: Node, st: State)
    requires !st.aborted
    ensures Eval(sem, lim, node, st).1.nodes > lim.maxNodes ==> Eval(sem, lim, node, st).1.aborted
  {
    var r := Eval(sem, lim, node, st);
    assert Honest(lim, r.1);
  }

  /** A run that fits its budget has the same value, flow, variables and counters under every larger budget. */
  lemma LargerBudget(sem: Semantics, lim: Limits, lim': Limits, node: Node, st: State)
    requires Larger(lim', lim) && Eval(sem, lim, node, st).1.nodes <= lim.maxNodes
    ensures Eval(sem, lim', node, st) == Eval(sem, lim, node, st)
  {
    hide Eval;
    var k := Setting(sem, lim, lim', true, Reads(node), Assigns(node));
    SameScopesAlike(k, st.scopes);
    EvalAlike(k, node, st, st);
    SameScopesEqual(k, Eval(sem, lim', node, st).1, Eval(sem, lim, node, st).1);
  }

  // ----- capture by need -----

  /**
   * Capturing only the collected names loses nothing about n: no parameter of that name is kept out by a constant, no
   * constant of that name is assigned without being read, and the empty name, which is never captured, is not read.
   */
  ghost predicate Suffices(all: Scope, params: seq<string>, body: Node, n: string) {
    && (n in params && n != "this" && n in Reads(body) + Assigns(body) ==> NotConstant(all, n))
    && (n !in params && n in Assigns(body) - Reads(body) ==> NotConstant(all, n))
    && (n !in params && n in Reads(body) && n == "" ==> n !in all)
  }

  ghost predicate CaptureSuffices(scopes: seq<Scope>, params: seq<string>, body: Node) {
    forall n :: Suffices(SnapshotAll(scopes), params, body, n)
  }

  /** The variables captured for a closure. */
  function Needed(scopes: seq<Scope>, params: seq<string>, body: Node): Scope {
    SnapshotNames(scopes, ClosureFreeVars(body, params))
  }

  function FrameScopes(captured: Scope, params: seq<string>, args: seq<Value>): seq<Scope> {
    [BindParams(Import(captured), params, args), captured]
  }

  /** The two frames agree about n as far as the body can tell. */
  ghost predicate NameAlike(k: Setting, second: seq<Scope>, first: seq<Scope>, n: string) {
    && (n in k.readable ==> Lookup(second, n) == Lookup(first, n))
    && (n in k.writable ==> Lookup(second, n) == Lookup(first, n) || k.Unset(second, first, n))
  }

  lemma NameAlikeExactly(k: Setting, scopes: seq<Scope>, params: seq<string>, body: Node, args: seq<Value>, n: string)
    requires k.readable == Reads(body) && k.writable == Assigns(body)
    ensures
      NameAlike(k, FrameScopes(Needed(scopes, params, body), params, args), FrameScopes(SnapshotAll(scopes), params, args), n)
      <==> Suffices(SnapshotAll(scopes), params, body, n)
  {
    ClosureFreeVarsMeaning(body, params);
    FrameLookup(SnapshotAll(scopes), params, args, n);
    FrameLookup(Needed(scopes, params, body), params, args, n);
    hide ClosureFreeVars, Import, BindParams, SnapshotAll, Lookup, Reads, Assigns, LastArgument;
  }

  /** The frames over either capture agree on what the body reads and assigns exactly if the collected names suffice. */
  lemma FramesAlike(k: Setting, scopes: seq<Scope>, params: seq<string>, body: Node, args: seq<Value>)
    requires !k.same && k.readable == Reads(body) && k.writable == Assigns(body)
    ensures
      k.Alike(FrameScopes(Needed(scopes, params, body), params, args), FrameScopes(SnapshotAll(scopes), params, args))
      <==> CaptureSuffices(scopes, params, body)
  {
    hide ClosureFreeVars, Import, BindParams, SnapshotAll, SnapshotNames, Lookup, Reads, Assigns, Suffices, Setting.Unset;
    var first, second := FrameScopes(SnapshotAll(scopes), params, args), FrameScopes(Needed(scopes, params, body), params, args);
    forall n ensures NameAlike(k, second, first, n) <==> Suffices(SnapshotAll(scopes), params, body, n) {
      NameAlikeExactly(k, scopes, params, body, args, n);
    }
    assert CaptureSuffices(scopes, params, body) <==> forall n :: NameAlike(k, second, first, n);
    AlikeByName(k, second, first);
  }

  lemma AlikeByName(k: Setting, second: seq<Scope>, first: seq<Scope>)
    requires !k.same && |second| == |first| > 0
    ensures k.Alike(second, first) <==> forall n :: NameAlike(k, second, first, n)
  {
    hide Lookup, Setting.Unset;
    if forall n :: NameAlike(k, second, first, n) {
      forall n | n in k.readable ensures Lookup(second, n) == Lookup(first, n) {
        assert NameAlike(k, second, first, n);
      }
      forall n | n in k.writable ensures Lookup(second, n) == Lookup(first, n) || k.Unset(second, first, n) {
        assert NameAlike(k, second, first, n);
      }
    }
  }

  /** The two calls to compare: over the collected names, and over everything visible. */
  ghost predicate SameCall(sem: Semantics, lim: Limits, scopes: seq<Scope>, params: seq<string>, body: Node,
                           args: seq<Value>, st: State)
  {
    CallClosure(sem, lim, Closure(params, body, Needed(scopes, params, body)), args, st) ==
    CallClosure(sem, lim, Closure(params, body, SnapshotAll(scopes)), args, st)
  }

  /**
   * A closure that captures only the collected names behaves, in every call, like one that captures everything
   * visible: same value, same flow, same error, same counters, and the caller's variables are untouched by either.
   */
  lemma CaptureByNeed(sem: Semantics, lim: Limits, scopes: seq<Scope>, params: seq<string>, body: Node,
                      args: seq<Value>, st: State)
    requires CaptureSuffices(scopes, params, body)
    ensures SameCall(sem, lim, scopes, params, body, args, st)
  {
    hide Eval, ClosureFreeVars, SnapshotAll, SnapshotNames, CaptureSuffices, BindParams, Import;
    var full, need := Closure(params, body, SnapshotAll(scopes)), Closure(params, body, Needed(scopes, params, body));
    var k := Setting(sem, lim, lim, false, Reads(body), Assigns(body));
    if st.depth + 1 <= lim.maxDepth {
      FramesAlike(k, scopes, params, body, args);
      var f, f' := Frame(full, args, st.(depth := st.depth + 1)), Frame(need, args, st.(depth := st.depth + 1));
      hide Setting.Alike;
      EvalAlike(k, body, f, f');
    }
  }

  // ----- the condition cannot be weaker -----

  /** The tail, behind a body that is not entered but whose names the collector sees. */
  function Guarded(body: Node, tail: Node): Node {
    Block([If(Lit(NullLit), Some(body), None), tail])
  }

  lemma GuardedNames(body: Node, tail: Node)
    ensures Reads(Guarded(body, tail)) == Reads(body) + Reads(tail)
    ensures Assigns(Guarded(body, tail)) == Assigns(body) + Assigns(tail)
  {
    var first := If(Lit(NullLit), Some(body), None);
    BranchNames(body);
    PairNames(first, tail);
    BlockNames([first, tail]);
    hide Reads, Assigns;
  }

  lemma BranchNames(body: Node)
    ensures Reads(If(Lit(NullLit), Some(body), None)) == Reads(body)
    ensures Assigns(If(Lit(NullLit), Some(body), None)) == Assigns(body)
  {
    assert ReadsOption(Some(body)) == Reads(body) && AssignsOption(Some(body)) == Assigns(body);
    assert Reads(Lit(NullLit)) == {} && Assigns(Lit(NullLit)) == {};
  }

  lemma PairNames(first: Node, tail: Node)
    ensures ReadsAll([first, tail]) == Reads(first) + Reads(tail)
    ensures AssignsAll([first, tail]) == Assigns(first) + Assigns(tail)
  {
    hide Reads, Assigns;
    assert [first, tail][1..] == [tail] && [tail][1..] == [];
    assert ReadsAll([tail]) == Reads(tail) + ReadsAll([]);
    assert AssignsAll([tail]) == Assigns(tail) + AssignsAll([]);
  }

  lemma BlockNames(stmts: seq<Node>)
    ensures Reads(Block(stmts)) == ReadsAll(stmts) && Assigns(Block(stmts)) == AssignsAll(stmts)
  {
    hide ReadsAll, AssignsAll;
  }

  lemma GuardedRuns(sem: Semantics, lim: Limits, body: Node, tail: Node, st: State)
    requires !st.aborted && st.flow == Normal && st.nodes + 3 <= lim.maxNodes
    ensures Eval(sem, lim, Guarded(body, tail), st) == Eval(sem, lim, tail, st.(nodes := st.nodes + 3))
  {
    var none: Option<Node> := None;
    var first := If(Lit(NullLit), Some(body), none);
    var s, s3 := st.(nodes := st.nodes + 1), st.(nodes := st.nodes + 3);
    assert Eval(sem, lim, Lit(NullLit), st.(nodes := st.nodes + 2)) == (Null, s3);
    assert EvalIf(sem, lim, Lit(NullLit), Some(body), none, st.(nodes := st.nodes + 2)) == (ZERO, s3);
    assert Eval(sem, lim, first, s) == (ZERO, s3);
    BlockOfTwo(sem, lim, first, tail, s, s3);
  }

  lemma BlockOfTwo(sem: Semantics, lim: Limits, first: Node, tail: Node, st: State, s1: State)
    requires Eval(sem, lim, first, st) == (ZERO, s1) && s1.flow == Normal && !s1.aborted
    ensures EvalBlock(sem, lim, [first, tail], st, ZERO) == Eval(sem, lim, tail, s1)
  {
    hide Eval;
    assert [first, tail][1..] == [tail] && [tail][1..] == [];
    var (v, s2) := Eval(sem, lim, tail, s1);
    assert EvalBlock(sem, lim, [tail], s1, ZERO) == (v, s2);
  }

  /** A run that starts with room for a few nodes and one more call. */
  ghost predicate Room(lim: Limits, st: State) { st.nodes + 5 <= lim.maxNodes && st.depth + 1 <= lim.maxDepth }

  /** The value of the call is the constant if the frame has one, and else what was assigned. */
  lemma AssignInFrame(sem: Semantics, lim: Limits, captured: Scope, params: seq<string>, body: Node, n: string, l: Literal,
                      args: seq<Value>, st: State)
    requires Room(lim, st)
    ensures CallClosure(sem, lim, Closure(params, Guarded(body, Assign(n, Lit(l))), captured), args, st).0 ==
      if Binds(captured, params, n) || NotConstant(captured, n) then LiteralValue(l) else captured[n].value
  {
    var tail := Assign(n, Lit(l));
    var f := Frame(Closure(params, Guarded(body, tail), captured), args, st.(depth := st.depth + 1));
    GuardedRuns(sem, lim, body, tail, f);
    var s := f.(nodes := f.nodes + 4);
    assert Eval(sem, lim, Lit(l), s) == (LiteralValue(l), s.(nodes := s.nodes + 1));
    assert Eval(sem, lim, tail, f.(nodes := f.nodes + 3)) == EvalAssign(sem, lim, n, Lit(l), s);
    FrameLookup(captured, params, args, n);
    SetVarLookup(f.scopes, n, LiteralValue(l), n);
    hide Eval, SetVar, BindParams, Import, LiteralValue, Guarded;
  }

  /** The value of the call is what the parameter is bound to. */
  lemma ReadInFrame(sem: Semantics, lim: Limits, captured: Scope, params: seq<string>, body: Node, n: string,
                    args: seq<Value>, st: State)
    requires Room(lim, st) && n in params
    ensures CallClosure(sem, lim, Closure(params, Guarded(body, Variable(n)), captured), args, st).0 ==
      if Binds(captured, params, n) then LastArgument(params, args, n).value else captured[n].value
  {
    var f := Frame(Closure(params, Guarded(body, Variable(n)), captured), args, st.(depth := st.depth + 1));
    GuardedRuns(sem, lim, body, Variable(n), f);
    var s := f.(nodes := f.nodes + 3);
    assert Eval(sem, lim, Variable(n), s) == (GetVar(f.scopes, n), s.(nodes := s.nodes + 1));
    FrameLookup(captured, params, args, n);
    hide Eval, BindParams, Import, Guarded;
  }

  /**
   * An assigned constant that is not captured: over the full snapshot the assignment has no effect, over the collected
   * names it takes place. This is so for every constant, every literal, every argument list and every caller.
   */
  lemma ConstantsMatter(sem: Semantics, lim: Limits, scopes: seq<Scope>, params: seq<string>, body: Node, n: string,
                        l: Literal, args: seq<Value>, st: State)
    requires Room(lim, st) && !NotConstant(SnapshotAll(scopes), n)
    requires if n in params then n != "this" else n !in Reads(body)
    ensures
      var b := Guarded(body, Assign(n, Lit(l)));
      && CallClosure(sem, lim, Closure(params, b, SnapshotAll(scopes)), args, st).0 == SnapshotAll(scopes)[n].value
      && CallClosure(sem, lim, Closure(params, b, Needed(scopes, params, b)), args, st).0 == LiteralValue(l)
  {
    hide CallClosure, SnapshotAll, Guarded;
    var b := Guarded(body, Assign(n, Lit(l)));
    GuardedNames(body, Assign(n, Lit(l)));
    ClosureFreeVarsMeaning(b, params);
    assert n !in Needed(scopes, params, b);
    AssignInFrame(sem, lim, SnapshotAll(scopes), params, body, n, l, args, st);
    AssignInFrame(sem, lim, Needed(scopes, params, b), params, body, n, l, args, st);
  }

  /** A constant with the name of a parameter: over the full snapshot it hides the argument, over the collected names not. */
  lemma ArgumentsMatter(sem: Semantics, lim: Limits, scopes: seq<Scope>, params: seq<string>, body: Node, n: string,
                        args: seq<Value>, st: State)
    requires Room(lim, st) && !NotConstant(SnapshotAll(scopes), n) && n in params && n != "this"
    ensures
      var b := Guarded(body, Variable(n));
      && CallClosure(sem, lim, Closure(params, b, SnapshotAll(scopes)), args, st).0 == SnapshotAll(scopes)[n].value
      && CallClosure(sem, lim, Closure(params, b, Needed(scopes, params, b)), args, st).0 == LastArgument(params, args, n).value
  {
    hide CallClosure, SnapshotAll, Guarded;
    var b := Guarded(body, Variable(n));
    ClosureFreeVarsMeaning(b, params);
    assert n !in Needed(scopes, params, b);
    ReadInFrame(sem, lim, SnapshotAll(scopes), params, body, n, args, st);
    ReadInFrame(sem, lim, Needed(scopes, params, b), params, body, n, args, st);
  }

  lemma {:induction false} SameArguments(params: seq<string>, v: Value, n: string)
    requires n in params
    ensures LastArgument(params, seq(|params|, _ => v), n) == Some(v)
    decreases |params|
  {
    assert seq(|params|, _ => v)[1..] == seq(|params[1..]|, _ => v);
    if n in params[1..] {
      SameArguments(params[1..], v, n);
    }
  }

  ghost predicate SameNames(b: Node, body: Node) { Reads(b) == Reads(body) && Assigns(b) == Assigns(body) }

  /** A name for which capture by need loses something shows up in a body with the same names. */
  lemma Distinguished(sem: Semantics, lim: Limits, scopes: seq<Scope>, params: seq<string>, body: Node, n: string, st: State)
    returns (b: Node, args: seq<Value>)
    requires Room(lim, st) && "" !in Reads(body) && !Suffices(SnapshotAll(scopes), params, body, n)
    ensures SameNames(b, body) && !SameCall(sem, lim, scopes, params, b, args, st)
  {
    hide CallClosure, SnapshotAll, Guarded, Reads, Assigns, Needed;
    var value := SnapshotAll(scopes)[n].value;
    var other := if value == Integer(0) then 1 else 0;
    if n in Assigns(body) {
      b, args := Guarded(body, Assign(n, Lit(IntegerLit(other)))), [];
      ConstantsMatter(sem, lim, scopes, params, body, n, IntegerLit(other), args, st);
      GuardedNames(body, Assign(n, Lit(IntegerLit(other))));
      AssignNames(n, IntegerLit(other));
    } else {
      b, args := Guarded(body, Variable(n)), seq(|params|, _ => Integer(other));
      ArgumentsMatter(sem, lim, scopes, params, body, n, args, st);
      SameArguments(params, Integer(other), n);
      GuardedNames(body, Variable(n));
      VariableNames(n);
    }
  }

  lemma AssignNames(n: string, l: Literal)
    ensures Reads(Assign(n, Lit(l))) == {} && Assigns(Assign(n, Lit(l))) == {n}
  {
  }

  lemma VariableNames(n: string)
    ensures Reads(Variable(n)) == {n} && Assigns(Variable(n)) == {}
  {
  }

  /**
   * The condition is exact for what the collector knows: all bodies that read and assign these names behave alike over
   * either capture, in all calls, if and only if it holds.
   */
  lemma CaptureExactly(sem: Semantics, lim: Limits, scopes: seq<Scope>, params: seq<string>, body: Node)
    requires lim.maxNodes >= 5 && lim.maxDepth >= 1 && "" !in Reads(body)
    ensures CaptureSuffices(scopes, params, body) <==>
      forall b, args, st :: SameNames(b, body) ==> SameCall(sem, lim, scopes, params, b, args, st)
  {
    hide SameCall, Reads, Assigns;
    if CaptureSuffices(scopes, params, body) {
      forall b, args, st | SameNames(b, body) ensures SameCall(sem, lim, scopes, params, b, args, st) {
        assert forall n :: Suffices(SnapshotAll(scopes), params, body, n) ==> Suffices(SnapshotAll(scopes), params, b, n);
        CaptureByNeed(sem, lim, scopes, params, b, args, st);
      }
    } else {
      var n :| !Suffices(SnapshotAll(scopes), params, body, n);
      var b, args := Distinguished(sem, lim, scopes, params, body, n, State([], Normal, ZERO, ZERO, false, 0, 0, 0, false));
    }
  }
}
