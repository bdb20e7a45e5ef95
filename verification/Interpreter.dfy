// The evaluator as the runtime runs it: one environment object per frame, updated in
// place, with explicit loops. Every method is proved equal to its specification in
// module Evaluator.

module Interpreter {
  import opened Options
  import opened Script
  import opened FreeVariables
  import opened Evaluator

  class Environment {
    var scopes: seq<Scope>
    var flow: Flow
    var returned: Value
    var error: Value
    var aborted: bool
    var nodes: nat
    var loops: nat
    var depth: nat
    ghost var overrun: bool

    ghost function Now(): State
      reads this
    {
      State(scopes, flow, returned, error, aborted, nodes, loops, depth, overrun)
    }

    /** The frame of a call, with the caller's counters. */
    constructor Frame(f: Value, args: seq<Value>, nodes: nat, loops: nat, depth: nat, ghost overrun: bool)
      requires f.Closure?
      ensures Now() == State([BindParams(Import(f.captured), f.params, args), f.captured],
                             Normal, ZERO, ZERO, false, nodes, loops, depth, overrun)
    {
      scopes := [BindParams(Import(f.captured), f.params, args), f.captured];
      flow := Normal;
      returned := ZERO;
      error := ZERO;
      aborted := false;
      this.nodes := nodes;
      this.loops := loops;
      this.depth := depth;
      this.overrun := overrun;
    }

    lemma Fields()
      ensures Now().flow == flow && Now().aborted == aborted
    {
    }

    /** Control flow goes on normally. */
    method Resume()
      modifies this
      ensures Now() == old(Now()).(flow := Normal)
    {
      flow := Normal;
    }

    method Tick(lim: Limits) returns (ok: bool)
      modifies this
      ensures (Now(), ok) == LoopTick(lim, old(Now()))
    {
      loops := loops + 1;
      if loops > lim.maxLoops {
        aborted := true;
        overrun := true;
        return false;
      }
      return true;
    }

    method Conclude(outcome: Outcome) returns (v: Value)
      modifies this
      ensures (v, Now()) == Finish(old(Now()), outcome)
    {
      match outcome
      case Result(r) => v := r;
      case Error(e) => flow := Throw; error := e; v := ZERO;
    }

    method EvaluateOption(sem: Semantics, lim: Limits, node: Option<Node>) returns (v: Value)
      modifies this
      ensures (v, Now()) == EvalOption(sem, lim, node, old(Now()))
      decreases NodeBudget(lim, Now()), LoopBudget(lim, Now()), 1
    {
      hide Eval;
      match node
      case None => v := ZERO;
      case Some(n) => v := Evaluate(sem, lim, n);
    }

    method Evaluate(sem: Semantics, lim: Limits, node: Node) returns (v: Value)
      modifies this
      ensures (v, Now()) == Eval(sem, lim, node, old(Now()))
      decreases NodeBudget(lim, Now()), LoopBudget(lim, Now()), 0
    {
      hide EvalBinary, EvalAssign, EvalIf, EvalWhile, EvalDoWhile, EvalForLoop, EvalBlock, EvalReturn, EvalCall,
           SnapshotNames, ClosureFreeVars, GetVar, LiteralValue, Honest;
      if aborted {
        return ZERO;
      }
      nodes := nodes + 1;
      if nodes > lim.maxNodes {
        aborted := true;
        overrun := true;
        return ZERO;
      }
      match node
      case Lit(l) => v := LiteralValue(l);
      case Variable(name) => v := GetVar(scopes, name);
      case Binary(op, left, right) => v := RunBinary(sem, lim, op, left, right);
      case Assign(name, value) => v := RunAssign(sem, lim, name, value);
      case If(cond, thn, els) => v := RunIf(sem, lim, cond, thn, els);
      case While(cond, body) => v := RunWhile(sem, lim, cond, body);
      case DoWhile(body, cond) => v := RunDoWhile(sem, lim, body, cond);
      case For(init, guard, post, body) => v := RunForLoop(sem, lim, init, guard, post, body);
      case Block(stmts) => v := RunBlock(sem, lim, stmts);
      case Return(result) => v := RunReturn(sem, lim, result);
      case BreakLoop => flow := Break; v := ZERO;
      case ContinueLoop => flow := Continue; v := ZERO;
      case Call(name, args) => v := RunCall(sem, lim, name, args);
      case FunctionExpr(params, body) =>
        var names := CollectClosureFreeVars(body, params);
        v := Closure(params, body, SnapshotNames(scopes, names));
    }

    method RunBinary(sem: Semantics, lim: Limits, op: string, left: Option<Node>, right: Node) returns (v: Value)
      modifies this
      ensures (v, Now()) == EvalBinary(sem, lim, op, left, right, old(Now()))
      decreases NodeBudget(lim, Now()), LoopBudget(lim, Now()), 4
    {
      hide Eval, EvalOption, Finish, Honest;
      var l := EvaluateOption(sem, lim, left);
      if left.Some? && flow != Normal {
        return ZERO;
      }
      var r := Evaluate(sem, lim, right);
      if flow != Normal {
        return ZERO;
      }
      v := Conclude(sem.binary(op, l, r));
    }

    method RunAssign(sem: Semantics, lim: Limits, name: string, value: Node) returns (v: Value)
      modifies this
      ensures (v, Now()) == EvalAssign(sem, lim, name, value, old(Now()))
      decreases NodeBudget(lim, Now()), LoopBudget(lim, Now()), 4
    {
      hide Eval, SetVar, GetVar, Honest;
      v := Evaluate(sem, lim, value);
      scopes := SetVar(scopes, name, v);
      v := GetVar(scopes, name);
    }

    method RunIf(sem: Semantics, lim: Limits, cond: Node, thn: Option<Node>, els: Option<Node>) returns (v: Value)
      modifies this
      ensures (v, Now()) == EvalIf(sem, lim, cond, thn, els, old(Now()))
      decreases NodeBudget(lim, Now()), LoopBudget(lim, Now()), 4
    {
      hide Eval, EvalOption, Truthy, Honest;
      var c := Evaluate(sem, lim, cond);
      if flow != Normal {
        return ZERO;
      }
      v := EvaluateOption(sem, lim, if Truthy(c) then thn else els);
    }

    method RunForLoop(sem: Semantics, lim: Limits, init: Option<Node>, guard: Option<Node>, post: Option<Node>, body: Node) returns (v: Value)
      modifies this
      ensures (v, Now()) == EvalForLoop(sem, lim, init, guard, post, body, old(Now()))
      decreases NodeBudget(lim, Now()), LoopBudget(lim, Now()), 4
    {
      hide EvalOption, EvalFor, Honest;
      var _ := EvaluateOption(sem, lim, init);
      if flow != Normal || aborted {
        return ZERO;
      }
      v := RunFor(sem, lim, guard, post, body);
    }

    method RunReturn(sem: Semantics, lim: Limits, result: Option<Node>) returns (v: Value)
      modifies this
      ensures (v, Now()) == EvalReturn(sem, lim, result, old(Now()))
      decreases NodeBudget(lim, Now()), LoopBudget(lim, Now()), 4
    {
      hide EvalOption, Honest;
      v := EvaluateOption(sem, lim, result);
      returned := v;
      if result.None? || (flow == Normal && !aborted) {
        flow := Flow.Return;
      }
    }

    method RunCall(sem: Semantics, lim: Limits, name: string, args: seq<Node>) returns (v: Value)
      modifies this
      ensures (v, Now()) == EvalCall(sem, lim, name, args, old(Now()))
      decreases NodeBudget(lim, Now()), LoopBudget(lim, Now()), 2 + |args|
    {
      hide EvalArgs, CallClosure, Finish, GetVar, Honest;
      var callee := GetVar(scopes, name);
      var vs := ExpandArgs(sem, lim, args);
      if !callee.Closure? {
        callee := GetVar(scopes, name);
      }
      if callee.Closure? {
        v := CallFunctionValue(sem, lim, callee, vs);
      } else {
        v := Conclude(sem.builtin(name, vs));
      }
    }

    /** One turn of a loop, as a Turn. */
    ghost function Ended(again: bool, v: Value): Turn
      reads this
    {
      if again then Again(v, Now()) else Stop(v, Now())
    }

    method RunBody(sem: Semantics, lim: Limits, body: Node, last: Value) returns (again: bool, v: Value)
      modifies this
      ensures Ended(again, v) == LoopBody(sem, lim, body, old(Now()), last)
      decreases NodeBudget(lim, Now()), LoopBudget(lim, Now()), 1
    {
      hide Eval, Now;
      var ok := Tick(lim);
      if !ok {
        return false, last;
      }
      v := Evaluate(sem, lim, body);
      Fields();
      if flow == Break {
        Resume();
        return false, v;
      }
      return flow != Flow.Return, v;
    }

    method TurnWhile(sem: Semantics, lim: Limits, cond: Node, body: Node, last: Value) returns (again: bool, v: Value)
      modifies this
      ensures Ended(again, v) == WhileTurn(sem, lim, cond, body, old(Now()), last)
      decreases NodeBudget(lim, Now()), LoopBudget(lim, Now()), 2
    {
      WhileTurnCases(sem, lim, cond, body, Now(), last);
      hide Eval, LoopBody, WhileTurn, LoopTick, Honest, Truthy, Now;
      Fields();
      if flow != Normal && flow != Continue {
        return false, last;
      }
      Resume();
      var c := Evaluate(sem, lim, cond);
      Fields();
      if flow != Normal || aborted || !Truthy(c) {
        return false, last;
      }
      again, v := RunBody(sem, lim, body, last);
    }

    method RunWhile(sem: Semantics, lim: Limits, cond: Node, body: Node) returns (last: Value)
      modifies this
      ensures (last, Now()) == EvalWhile(sem, lim, cond, body, old(Now()), ZERO)
      decreases NodeBudget(lim, Now()), LoopBudget(lim, Now()), 3
    {
      hide Eval, WhileTurn, EvalWhile, Honest;
      last := ZERO;
      ghost var start := Now();
      var again := true;
      while again
        invariant Advances(Now(), start)
        invariant EvalWhile(sem, lim, cond, body, start, ZERO) ==
          if again then EvalWhile(sem, lim, cond, body, Now(), last) else (last, Now())
        decreases again, NodeBudget(lim, Now()), LoopBudget(lim, Now())
      {
        UnfoldWhile(sem, lim, cond, body, Now(), last);
        again, last := TurnWhile(sem, lim, cond, body, last);
      }
    }

    method RunTest(sem: Semantics, lim: Limits, cond: Node, v: Value) returns (again: bool)
      modifies this
      ensures Ended(again, v) == DoWhileTest(sem, lim, cond, old(Now()), v)
      decreases NodeBudget(lim, Now()), LoopBudget(lim, Now()), 1
    {
      hide Eval, LoopTick, Honest, Truthy, Now;
      var c := Evaluate(sem, lim, cond);
      Fields();
      if flow != Normal || aborted || !Truthy(c) {
        return false;
      }
      again := Tick(lim);
    }

    method TurnDoWhile(sem: Semantics, lim: Limits, body: Node, cond: Node) returns (again: bool, v: Value)
      modifies this
      ensures Ended(again, v) == DoWhileTurn(sem, lim, body, cond, old(Now()))
      decreases NodeBudget(lim, Now()), LoopBudget(lim, Now()), 2
    {
      DoWhileTurnCases(sem, lim, body, cond, Now());
      hide Eval, DoWhileTest, DoWhileTurn, Honest, Now;
      v := Evaluate(sem, lim, body);
      Fields();
      if flow == Break {
        Resume();
        return false, v;
      }
      if flow == Flow.Return {
        return false, v;
      }
      if flow == Continue {
        Resume();
      }
      again := RunTest(sem, lim, cond, v);
    }

    method RunDoWhile(sem: Semantics, lim: Limits, body: Node, cond: Node) returns (last: Value)
      modifies this
      ensures (last, Now()) == EvalDoWhile(sem, lim, body, cond, old(Now()))
      decreases NodeBudget(lim, Now()), LoopBudget(lim, Now()), 3
    {
      hide Eval, DoWhileTurn, EvalDoWhile, Honest;
      last := ZERO;
      ghost var start := Now();
      var again := true;
      while again
        invariant Advances(Now(), start)
        invariant EvalDoWhile(sem, lim, body, cond, start) ==
          if again then EvalDoWhile(sem, lim, body, cond, Now()) else (last, Now())
        decreases again, NodeBudget(lim, Now()), LoopBudget(lim, Now())
      {
        UnfoldDoWhile(sem, lim, body, cond, Now());
        again, last := TurnDoWhile(sem, lim, body, cond);
      }
    }

    /** The step of a for loop. */
    method RunPost(sem: Semantics, lim: Limits, post: Option<Node>, again: bool, v: Value) returns (again': bool)
      modifies this
      ensures Ended(again', v) == ForPost(sem, lim, post, old(Ended(again, v)))
      decreases NodeBudget(lim, Now()), LoopBudget(lim, Now()), 1
    {
      hide Eval, Now;
      if !again || post.None? {
        return again;
      }
      var _ := Evaluate(sem, lim, post.value);
      Fields();
      if flow != Normal && flow != Continue {
        return false;
      }
      Resume();
      return true;
    }

    method TurnFor(sem: Semantics, lim: Limits, guard: Option<Node>, post: Option<Node>, body: Node, last: Value)
      returns (again: bool, v: Value)
      modifies this
      ensures Ended(again, v) == ForTurn(sem, lim, guard, post, body, old(Now()), last)
      decreases NodeBudget(lim, Now()), LoopBudget(lim, Now()), 2
    {
      ForTurnCases(sem, lim, guard, post, body, Now(), last);
      hide Eval, EvalOption, LoopBody, ForPost, ForTurn, LoopTick, Honest, Truthy, Now;
      var c := EvaluateOption(sem, lim, guard);
      Fields();
      if guard.Some? && (flow != Normal || aborted || !Truthy(c)) {
        return false, last;
      }
      again, v := RunBody(sem, lim, body, last);
      again := RunPost(sem, lim, post, again, v);
    }

    method RunFor(sem: Semantics, lim: Limits, guard: Option<Node>, post: Option<Node>, body: Node) returns (last: Value)
      modifies this
      ensures (last, Now()) == EvalFor(sem, lim, guard, post, body, old(Now()), ZERO)
      decreases NodeBudget(lim, Now()), LoopBudget(lim, Now()), 3
    {
      hide Eval, ForTurn, EvalFor, Honest;
      last := ZERO;
      ghost var start := Now();
      var again := true;
      while again
        invariant Advances(Now(), start)
        invariant EvalFor(sem, lim, guard, post, body, start, ZERO) ==
          if again then EvalFor(sem, lim, guard, post, body, Now(), last) else (last, Now())
        decreases again, NodeBudget(lim, Now()), LoopBudget(lim, Now())
      {
        UnfoldFor(sem, lim, guard, post, body, Now(), last);
        again, last := TurnFor(sem, lim, guard, post, body, last);
      }
    }

    method RunBlock(sem: Semantics, lim: Limits, stmts: seq<Node>) returns (last: Value)
      modifies this
      ensures (last, Now()) == EvalBlock(sem, lim, stmts, old(Now()), ZERO)
      decreases NodeBudget(lim, Now()), LoopBudget(lim, Now()), 1 + |stmts|
    {
      hide Eval;
      last := ZERO;
      ghost var start := Now();
      var i := 0;
      while i < |stmts|
        invariant 0 <= i <= |stmts| && Advances(Now(), start)
        invariant EvalBlock(sem, lim, stmts, start, ZERO) == EvalBlock(sem, lim, stmts[i..], Now(), last)
      {
        last := Evaluate(sem, lim, stmts[i]);
        if flow != Normal {
          return;
        }
        if aborted {
          return;
        }
        i := i + 1;
      }
    }

    method ExpandArgs(sem: Semantics, lim: Limits, args: seq<Node>) returns (vals: seq<Value>)
      modifies this
      ensures (vals, Now()) == EvalArgs(sem, lim, args, old(Now()), [])
      decreases NodeBudget(lim, Now()), LoopBudget(lim, Now()), 1 + |args|
    {
      hide Eval;
      vals := [];
      ghost var start := Now();
      var i := 0;
      while i < |args|
        invariant 0 <= i <= |args| && Advances(Now(), start)
        invariant EvalArgs(sem, lim, args, start, []) == EvalArgs(sem, lim, args[i..], Now(), vals)
      {
        var v := Evaluate(sem, lim, args[i]);
        vals := vals + [v];
        if flow != Normal || aborted {
          return;
        }
        i := i + 1;
      }
    }

    method CallFunctionValue(sem: Semantics, lim: Limits, f: Value, args: seq<Value>) returns (v: Value)
      requires f.Closure?
      modifies this
      ensures (v, Now()) == CallClosure(sem, lim, f, args, old(Now()))
      decreases NodeBudget(lim, Now()), LoopBudget(lim, Now()), 1
    {
      hide Eval, BindParams, Import;
      depth := depth + 1;
      if depth > lim.maxDepth {
        aborted := true;
        overrun := true;
        depth := depth - 1;
        return ZERO;
      }
      var local := new Environment.Frame(f, args, nodes, loops, depth, overrun);
      v := local.Evaluate(sem, lim, f.body);
      nodes := local.nodes;
      loops := local.loops;
      aborted := local.aborted;
      overrun := local.overrun;
      depth := depth - 1;
      if local.flow == Flow.Return {
        v := local.returned;
      } else if local.flow == Throw {
        flow := Throw;
        error := local.error;
      }
    }
  }
}
