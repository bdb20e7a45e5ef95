// The evaluator under a node budget, as a function from states to states.

module Evaluator {
  import opened Options
  import opened Script
  import opened FreeVariables

  datatype Flow = Normal | Break | Continue | Return | Throw

  /** What an operator or a builtin function does: a value, or an error to throw. */
  datatype Outcome = Result(value: Value) | Error(error: Value)

  /** Operators and builtin functions are not interpreted: the results hold for every choice. */
  datatype Semantics = Semantics(binary: (string, Value, Value) -> Outcome, builtin: (string, seq<Value>) -> Outcome)

  datatype Limits = Limits(maxNodes: nat, maxLoops: nat, maxDepth: nat)

  /**
   * One environment: its scope chain, control flow, and counters. The last field is history, not kept by the runtime:
   * some limit has been passed in this run. No decision depends on it.
   */
  datatype State = State(scopes: seq<Scope>, flow: Flow, returned: Value, error: Value, aborted: bool,
                         nodes: nat, loops: nat, depth: nat, overrun: bool)

  function NodeBudget(lim: Limits, st: State): nat { if st.nodes < lim.maxNodes then lim.maxNodes - st.nodes else 0 }
  function LoopBudget(lim: Limits, st: State): nat { if st.loops < lim.maxLoops then lim.maxLoops - st.loops else 0 }

  /** Counters never go back, the scope chain keeps its length, and an abort leaves its mark. */
  ghost predicate Advances(st': State, st: State) {
    && st.nodes <= st'.nodes && st.loops <= st'.loops && |st'.scopes| == |st.scopes|
    && (st.overrun ==> st'.overrun)
    && (st'.aborted ==> st.aborted || st'.overrun)
  }

  /** A state past the node budget is marked as aborted. */
  ghost predicate Honest(lim: Limits, st: State) { st.nodes > lim.maxNodes ==> st.aborted }

  /** Counts one loop iteration; false when the limit is passed. */
  function LoopTick(lim: Limits, st: State): (State, bool) {
    var st1 := st.(loops := st.loops + 1);
    if st1.loops > lim.maxLoops then (st1.(aborted := true, overrun := true), false) else (st1, true)
  }

  function Finish(st: State, outcome: Outcome): (Value, State) {
    match outcome
    case Result(v) => (v, st)
    case Error(e) => (ZERO, st.(flow := Throw, error := e))
  }

  /** The frame of a call: the captured variables, the parameters, and behind them the captured scope itself. */
  function Frame(f: Value, args: seq<Value>, st: State): State
    requires f.Closure?
  {
    State([BindParams(Import(f.captured), f.params, args), f.captured], Normal, ZERO, ZERO, false,
          st.nodes, st.loops, st.depth, st.overrun)
  }

  /** What the caller takes over from the frame. */
  function Leave(st: State, v: Value, frame: State): (Value, State) {
    var back := st.(nodes := frame.nodes, loops := frame.loops, aborted := frame.aborted, overrun := frame.overrun);
    if frame.flow.Return? then (frame.returned, back)
    else if frame.flow.Throw? then (v, back.(flow := Throw, error := frame.error))
    else (v, back)
  }

  function Eval(sem: Semantics, lim: Limits, node: Node, st: State): (r: (Value, State))
    ensures Advances(r.1, st)
    ensures !st.aborted ==> st.nodes < r.1.nodes
    ensures !st.aborted || Honest(lim, st) ==> Honest(lim, r.1)
    decreases NodeBudget(lim, st), LoopBudget(lim, st), 0
  {
    if st.aborted then (ZERO, st)
    else
      var s := st.(nodes := st.nodes + 1);
      if s.nodes > lim.maxNodes then (ZERO, s.(aborted := true, overrun := true))
      else
        match node
        case Lit(l) => (LiteralValue(l), s)
        case Variable(name) => (GetVar(s.scopes, name), s)
        case Binary(op, left, right) => EvalBinary(sem, lim, op, left, right, s)
        case Assign(name, value) => EvalAssign(sem, lim, name, value, s)
        case If(cond, thn, els) => EvalIf(sem, lim, cond, thn, els, s)
        case While(cond, body) => EvalWhile(sem, lim, cond, body, s, ZERO)
        case DoWhile(body, cond) => EvalDoWhile(sem, lim, body, cond, s)
        case For(init, guard, post, body) => EvalForLoop(sem, lim, init, guard, post, body, s)
        case Block(stmts) => EvalBlock(sem, lim, stmts, s, ZERO)
        case Return(result) => EvalReturn(sem, lim, result, s)
        case BreakLoop => (ZERO, s.(flow := Break))
        case ContinueLoop => (ZERO, s.(flow := Continue))
        case Call(name, args) => EvalCall(sem, lim, name, args, s)
        case FunctionExpr(params, body) =>
          (Closure(params, body, SnapshotNames(s.scopes, ClosureFreeVars(body, params))), s)
  }

  function EvalBinary(sem: Semantics, lim: Limits, op: string, left: Option<Node>, right: Node, st: State): (r: (Value, State))
    ensures Advances(r.1, st)
    ensures Honest(lim, st) ==> Honest(lim, r.1)
    decreases NodeBudget(lim, st), LoopBudget(lim, st), 4
  {
    var (l, s1) := EvalOption(sem, lim, left, st);
    if left.Some? && s1.flow != Normal then (ZERO, s1)
    else
      var (r, s2) := Eval(sem, lim, right, s1);
      if s2.flow != Normal then (ZERO, s2) else Finish(s2, sem.binary(op, l, r))
  }

  function EvalAssign(sem: Semantics, lim: Limits, name: string, value: Node, st: State): (r: (Value, State))
    ensures Advances(r.1, st)
    ensures Honest(lim, st) ==> Honest(lim, r.1)
    decreases NodeBudget(lim, st), LoopBudget(lim, st), 4
  {
    var (v, s1) := Eval(sem, lim, value, st);
    var s2 := s1.(scopes := SetVar(s1.scopes, name, v));
    assert |s2.scopes| == |s1.scopes| by {
      OverwriteLookup(s1.scopes, name, v, name);
    }
    (GetVar(s2.scopes, name), s2)
  }

  function EvalIf(sem: Semantics, lim: Limits, cond: Node, thn: Option<Node>, els: Option<Node>, st: State): (r: (Value, State))
    ensures Advances(r.1, st)
    ensures Honest(lim, st) ==> Honest(lim, r.1)
    decreases NodeBudget(lim, st), LoopBudget(lim, st), 4
  {
    var (c, s1) := Eval(sem, lim, cond, st);
    if s1.flow != Normal then (ZERO, s1) else EvalOption(sem, lim, if Truthy(c) then thn else els, s1)
  }

  function EvalForLoop(sem: Semantics, lim: Limits, init: Option<Node>, guard: Option<Node>, post: Option<Node>, body: Node,
                       st: State): (r: (Value, State))
    ensures Advances(r.1, st)
    ensures Honest(lim, st) ==> Honest(lim, r.1)
    decreases NodeBudget(lim, st), LoopBudget(lim, st), 4
  {
    var (_, s1) := EvalOption(sem, lim, init, st);
    if s1.flow != Normal || s1.aborted then (ZERO, s1) else EvalFor(sem, lim, guard, post, body, s1, ZERO)
  }

  function EvalReturn(sem: Semantics, lim: Limits, result: Option<Node>, st: State): (r: (Value, State))
    ensures Advances(r.1, st)
    ensures Honest(lim, st) ==> Honest(lim, r.1)
    decreases NodeBudget(lim, st), LoopBudget(lim, st), 4
  {
    var (v, s1) := EvalOption(sem, lim, result, st);
    var s2 := s1.(returned := v);
    if result.Some? && (s1.flow != Normal || s1.aborted) then (v, s2) else (v, s2.(flow := Flow.Return))
  }

  /** The name is looked up before the arguments are evaluated and, if it holds no function value yet, again afterwards. */
  function Callee(before: seq<Scope>, after: seq<Scope>, name: string): Value {
    var f := GetVar(before, name);
    if f.Closure? then f else GetVar(after, name)
  }

  /** A name bound to a function value calls that value; any other name is a builtin. */
  function EvalCall(sem: Semantics, lim: Limits, name: string, args: seq<Node>, st: State): (r: (Value, State))
    ensures Advances(r.1, st)
    ensures Honest(lim, st) ==> Honest(lim, r.1)
    decreases NodeBudget(lim, st), LoopBudget(lim, st), 2 + |args|
  {
    var (vs, s1) := EvalArgs(sem, lim, args, st, []);
    var callee := Callee(st.scopes, s1.scopes, name);
    if callee.Closure? then CallClosure(sem, lim, callee, vs, s1) else Finish(s1, sem.builtin(name, vs))
  }

  /** An absent part evaluates to 0 and costs nothing. */
  function EvalOption(sem: Semantics, lim: Limits, node: Option<Node>, st: State): (r: (Value, State))
    ensures Advances(r.1, st)
    ensures Honest(lim, st) ==> Honest(lim, r.1)
    decreases NodeBudget(lim, st), LoopBudget(lim, st), 1
  {
    match node
    case None => (ZERO, st)
    case Some(n) => Eval(sem, lim, n, st)
  }

  /** How one turn of a loop ends: the loop is left, or it goes around again. */
  datatype Turn = Stop(value: Value, st: State) | Again(value: Value, st: State)

  /** A loop that goes around again has used up some of its budgets. */
  ghost predicate Progress(lim: Limits, turn: Turn, st: State) {
    && Advances(turn.st, st)
    && (turn.Again? ==>
          NodeBudget(lim, turn.st) < NodeBudget(lim, st) || LoopBudget(lim, turn.st) < LoopBudget(lim, st))
  }

  /** After the loop test: leave, or count the turn and run the body. */
  function LoopBody(sem: Semantics, lim: Limits, body: Node, st: State, last: Value): (t: Turn)
    ensures Progress(lim, t, st)
    ensures Honest(lim, st) ==> Honest(lim, t.st)
    decreases NodeBudget(lim, st), LoopBudget(lim, st), 1
  {
    var (s1, ok) := LoopTick(lim, st);
    if !ok then Stop(last, s1)
    else
      var (v, s2) := Eval(sem, lim, body, s1);
      if s2.flow == Break then Stop(v, s2.(flow := Normal))
      else if s2.flow == Flow.Return then Stop(v, s2)
      else Again(v, s2)
  }

  function WhileTurn(sem: Semantics, lim: Limits, cond: Node, body: Node, st: State, last: Value): (t: Turn)
    ensures Progress(lim, t, st)
    ensures Honest(lim, st) ==> Honest(lim, t.st)
    decreases NodeBudget(lim, st), LoopBudget(lim, st), 2
  {
    if st.flow != Normal && st.flow != Continue then Stop(last, st)
    else
      var (c, s1) := Eval(sem, lim, cond, st.(flow := Normal));
      if s1.flow != Normal || s1.aborted || !Truthy(c) then Stop(last, s1)
      else LoopBody(sem, lim, body, s1, last)
  }

  function EvalWhile(sem: Semantics, lim: Limits, cond: Node, body: Node, st: State, last: Value): (r: (Value, State))
    ensures Advances(r.1, st)
    ensures Honest(lim, st) ==> Honest(lim, r.1)
    decreases NodeBudget(lim, st), LoopBudget(lim, st), 3
  {
    match WhileTurn(sem, lim, cond, body, st, last)
    case Stop(v, s) => (v, s)
    case Again(v, s) => EvalWhile(sem, lim, cond, body, s, v)
  }

  /** A continue in the body goes on with the test. */
  function BeforeTest(s: State): State { if s.flow == Continue then s.(flow := Normal) else s }

  /** The second half of a turn of a do-while loop. */
  function DoWhileTest(sem: Semantics, lim: Limits, cond: Node, st: State, v: Value): (t: Turn)
    ensures Progress(lim, t, st)
    ensures Honest(lim, st) ==> Honest(lim, t.st)
    decreases NodeBudget(lim, st), LoopBudget(lim, st), 1
  {
    var (c, s1) := Eval(sem, lim, cond, st);
    if s1.flow != Normal || s1.aborted || !Truthy(c) then Stop(v, s1)
    else
      var (s2, ok) := LoopTick(lim, s1);
      if ok then Again(v, s2) else Stop(v, s2)
  }

  function DoWhileTurn(sem: Semantics, lim: Limits, body: Node, cond: Node, st: State): (t: Turn)
    ensures Progress(lim, t, st)
    ensures Honest(lim, st) ==> Honest(lim, t.st)
    decreases NodeBudget(lim, st), LoopBudget(lim, st), 2
  {
    var (v, s1) := Eval(sem, lim, body, st);
    if s1.flow == Break then Stop(v, s1.(flow := Normal))
    else if s1.flow == Flow.Return then Stop(v, s1)
    else DoWhileTest(sem, lim, cond, BeforeTest(s1), v)
  }

  function EvalDoWhile(sem: Semantics, lim: Limits, body: Node, cond: Node, st: State): (r: (Value, State))
    ensures Advances(r.1, st)
    ensures Honest(lim, st) ==> Honest(lim, r.1)
    decreases NodeBudget(lim, st), LoopBudget(lim, st), 3
  {
    match DoWhileTurn(sem, lim, body, cond, st)
    case Stop(v, s) => (v, s)
    case Again(v, s) => EvalDoWhile(sem, lim, body, cond, s)
  }

  /** The step of a for loop; without one the flow is left as it is. */
  function ForPost(sem: Semantics, lim: Limits, post: Option<Node>, turn: Turn): (t: Turn)
    ensures Advances(t.st, turn.st) && (t.Again? ==> turn.Again?)
    ensures Honest(lim, turn.st) ==> Honest(lim, t.st)
    decreases NodeBudget(lim, turn.st), LoopBudget(lim, turn.st), 1
  {
    if turn.Stop? || post.None? then turn
    else
      var (_, s) := Eval(sem, lim, post.value, turn.st);
      if s.flow != Normal && s.flow != Continue then Stop(turn.value, s) else Again(turn.value, s.(flow := Normal))
  }

  function ForTurn(sem: Semantics, lim: Limits, guard: Option<Node>, post: Option<Node>, body: Node,
                   st: State, last: Value): (t: Turn)
    ensures Progress(lim, t, st)
    ensures Honest(lim, st) ==> Honest(lim, t.st)
    decreases NodeBudget(lim, st), LoopBudget(lim, st), 2
  {
    var (c, s1) := EvalOption(sem, lim, guard, st);
    if guard.Some? && (s1.flow != Normal || s1.aborted || !Truthy(c)) then Stop(last, s1)
    else ForPost(sem, lim, post, LoopBody(sem, lim, body, s1, last))
  }

  function EvalFor(sem: Semantics, lim: Limits, guard: Option<Node>, post: Option<Node>, body: Node,
                   st: State, last: Value): (r: (Value, State))
    ensures Advances(r.1, st)
    ensures Honest(lim, st) ==> Honest(lim, r.1)
    decreases NodeBudget(lim, st), LoopBudget(lim, st), 3
  {
    match ForTurn(sem, lim, guard, post, body, st, last)
    case Stop(v, s) => (v, s)
    case Again(v, s) => EvalFor(sem, lim, guard, post, body, s, v)
  }

  function EvalBlock(sem: Semantics, lim: Limits, stmts: seq<Node>, st: State, last: Value): (r: (Value, State))
    ensures Advances(r.1, st)
    ensures Honest(lim, st) ==> Honest(lim, r.1)
    decreases NodeBudget(lim, st), LoopBudget(lim, st), 1 + |stmts|
  {
    if stmts == [] then (last, st)
    else
      var (v, s1) := Eval(sem, lim, stmts[0], st);
      if s1.flow != Normal || s1.aborted then (v, s1) else EvalBlock(sem, lim, stmts[1..], s1, v)
  }

  /** Arguments are evaluated left to right; evaluation stops early, but the call still takes place. */
  function EvalArgs(sem: Semantics, lim: Limits, args: seq<Node>, st: State, vals: seq<Value>): (r: (seq<Value>, State))
    ensures Advances(r.1, st)
    ensures Honest(lim, st) ==> Honest(lim, r.1)
    decreases NodeBudget(lim, st), LoopBudget(lim, st), 1 + |args|
  {
    if args == [] then (vals, st)
    else
      var (v, s1) := Eval(sem, lim, args[0], st);
      if s1.flow != Normal || s1.aborted then (vals + [v], s1) else EvalArgs(sem, lim, args[1..], s1, vals + [v])
  }

  function CallClosure(sem: Semantics, lim: Limits, f: Value, args: seq<Value>, st: State): (r: (Value, State))
    requires f.Closure?
    ensures Advances(r.1, st)
    ensures Honest(lim, st) ==> Honest(lim, r.1)
    decreases NodeBudget(lim, st), LoopBudget(lim, st), 1
  {
    if st.depth + 1 > lim.maxDepth then (ZERO, st.(aborted := true, overrun := true))
    else
      var (v, frame) := Eval(sem, lim, f.body, Frame(f, args, st.(depth := st.depth + 1)));
      Leave(st, v, frame)
  }

  // ----- loops, one turn at a time -----

  lemma UnfoldWhile(sem: Semantics, lim: Limits, cond: Node, body: Node, st: State, last: Value)
    ensures var t := WhileTurn(sem, lim, cond, body, st, last);
      EvalWhile(sem, lim, cond, body, st, last) ==
        (if t.Stop? then (t.value, t.st) else EvalWhile(sem, lim, cond, body, t.st, t.value))
  {
    hide Eval, WhileTurn;
  }

  lemma UnfoldDoWhile(sem: Semantics, lim: Limits, body: Node, cond: Node, st: State)
    ensures var t := DoWhileTurn(sem, lim, body, cond, st);
      EvalDoWhile(sem, lim, body, cond, st) ==
        (if t.Stop? then (t.value, t.st) else EvalDoWhile(sem, lim, body, cond, t.st))
  {
    hide Eval, DoWhileTurn;
  }

  lemma UnfoldFor(sem: Semantics, lim: Limits, guard: Option<Node>, post: Option<Node>, body: Node, st: State, last: Value)
    ensures var t := ForTurn(sem, lim, guard, post, body, st, last);
      EvalFor(sem, lim, guard, post, body, st, last) ==
        (if t.Stop? then (t.value, t.st) else EvalFor(sem, lim, guard, post, body, t.st, t.value))
  {
    hide Eval, ForTurn;
  }

  /** The test of a loop failed, or control flow does not go on normally. */
  ghost predicate Leaves(c: Value, s: State) { s.flow != Normal || s.aborted || !Truthy(c) }

  lemma WhileTurnCases(sem: Semantics, lim: Limits, cond: Node, body: Node, st: State, last: Value)
    ensures st.flow != Normal && st.flow != Continue ==> WhileTurn(sem, lim, cond, body, st, last) == Stop(last, st)
    ensures st.flow == Normal || st.flow == Continue ==>
      var (c, s1) := Eval(sem, lim, cond, st.(flow := Normal));
      WhileTurn(sem, lim, cond, body, st, last) == if Leaves(c, s1) then Stop(last, s1) else LoopBody(sem, lim, body, s1, last)
  {
    hide Eval, LoopBody, Truthy;
  }

  lemma ForTurnCases(sem: Semantics, lim: Limits, guard: Option<Node>, post: Option<Node>, body: Node, st: State, last: Value)
    ensures
      var (c, s1) := EvalOption(sem, lim, guard, st);
      ForTurn(sem, lim, guard, post, body, st, last) ==
      if guard.Some? && Leaves(c, s1) then Stop(last, s1) else ForPost(sem, lim, post, LoopBody(sem, lim, body, s1, last))
  {
    hide Eval, EvalOption, LoopBody, ForPost, Truthy;
  }

  lemma DoWhileTurnCases(sem: Semantics, lim: Limits, body: Node, cond: Node, st: State)
    ensures
      var (v, s1) := Eval(sem, lim, body, st);
      DoWhileTurn(sem, lim, body, cond, st) ==
      if s1.flow == Break then Stop(v, s1.(flow := Normal))
      else if s1.flow == Flow.Return then Stop(v, s1)
      else DoWhileTest(sem, lim, cond, BeforeTest(s1), v)
  {
    hide Eval, DoWhileTest;
  }
}
