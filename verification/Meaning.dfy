// What a script means, without budgets, counters or aborts: a run is a tree of steps, and each step follows from
// its parts by the rule of its node.

module Meaning {
  import opened Options
  import opened Script
  import opened FreeVariables
  import opened Evaluator

  /** What a script can see and change. */
  datatype World = World(scopes: seq<Scope>, flow: Flow, returned: Value, error: Value)

  /** One evaluation, with the evaluations it consists of, in order. */
  datatype Run = Run(node: Node, before: World, value: Value, after: World, parts: seq<Run>)

  ghost predicate Starts(t: Run, node: Node, w: World) { t.node == node && t.before == w }

  // ----- variables -----

  /** The name is found at this place of the chain, and nowhere further in. */
  ghost predicate FoundAt(scopes: seq<Scope>, name: string, i: int) {
    0 <= i < |scopes| && name in scopes[i] && forall j :: 0 <= j < i ==> name !in scopes[j]
  }

  ghost predicate Found(scopes: seq<Scope>, name: string) { exists i :: FoundAt(scopes, name, i) }

  /** What a name shows: the innermost variable of that name, and 0 if there is none. */
  ghost function Shown(scopes: seq<Scope>, name: string): Value {
    if Found(scopes, name) then
      var i :| FoundAt(scopes, name, i);
      scopes[i][name].value
    else ZERO
  }

  /** An assignment overwrites the innermost variable of the name, unless it is constant, or makes one in the first table. */
  ghost predicate Assigned(after: seq<Scope>, before: seq<Scope>, name: string, v: Value) {
    if Found(before, name) then
      exists i :: FoundAt(before, name, i) &&
        after == if before[i][name].constant then before else before[i := before[i][name := Entry(v, false)]]
    else
      after == if before == [] then [] else before[0 := before[0][name := Entry(v, false)]]
  }

  /** A new function holds the variables its body reads, as they are. */
  ghost predicate Holds(captured: Scope, scopes: seq<Scope>, params: seq<string>, body: Node) {
    forall n ::
      && (n in captured <==> n in Reads(body) && n != "" && n !in params && Found(scopes, n))
      && (n in captured ==> exists i :: FoundAt(scopes, n, i) && captured[n] == scopes[i][n])
  }

  ghost predicate LastAt(params: seq<string>, n: string, i: int) {
    0 <= i < |params| && params[i] == n && forall j :: i < j < |params| ==> params[j] != n
  }

  /** The argument for a parameter is the one in its last position, and 0 if there are too few. */
  ghost predicate Given(params: seq<string>, args: seq<Value>, n: string, v: Value) {
    exists i :: LastAt(params, n, i) && v == if i < |args| then args[i] else ZERO
  }

  /** The captured constants come first, then the parameters, then the other captured variables. */
  ghost predicate Bound(local: Scope, captured: Scope, params: seq<string>, args: seq<Value>) {
    forall n :: BoundName(local, captured, params, args, n)
  }

  ghost predicate BoundName(local: Scope, captured: Scope, params: seq<string>, args: seq<Value>, n: string) {
    if n in captured && n != "this" && (captured[n].constant || n !in params) then n in local && local[n] == captured[n]
    else if n in params then n in local && !local[n].constant && Given(params, args, n, local[n].value)
    else n !in local
  }

  // ----- the rules -----

  ghost predicate Denotes(l: Literal, v: Value) {
    match l
    case NumberLit(x) => v == Number(x)
    case IntegerLit(i) => v == Integer(i)
    case TextLit(s) => v == Text(s)
    case NullLit => v == Null
  }

  ghost predicate IsTrue(v: Value) {
    && v != Null && v != Boolean(false) && v != Integer(0) && v != Text("")
    && !(v.Number? && -0.000000001 <= v.number <= 0.000000001)
  }

  /** An outcome is a value, or an error that is thrown. */
  ghost predicate Concludes(outcome: Outcome, w: World, v: Value, r: World) {
    match outcome
    case Result(x) => v == x && r == w
    case Error(e) => v == ZERO && r == w.(flow := Throw, error := e)
  }

  ghost predicate Combines(sem: Semantics, op: string, l: Value, b: Run, v: Value, r: World) {
    if b.after.flow != Normal then v == ZERO && r == b.after
    else Concludes(sem.binary(op, l, b.value), b.after, v, r)
  }

  /** The left operand first, then the right one; either may leave. */
  ghost predicate BinaryRule(sem: Semantics, op: string, left: Option<Node>, right: Node, p: seq<Run>, w: World, v: Value, r: World) {
    if left.None? then |p| == 1 && Starts(p[0], right, w) && Combines(sem, op, ZERO, p[0], v, r)
    else
      && |p| >= 1 && Starts(p[0], left.value, w)
      && if p[0].after.flow != Normal then |p| == 1 && v == ZERO && r == p[0].after
         else |p| == 2 && Starts(p[1], right, p[0].after) && Combines(sem, op, p[0].value, p[1], v, r)
  }

  ghost predicate AssignRule(name: string, value: Node, p: seq<Run>, w: World, v: Value, r: World) {
    && |p| == 1 && Starts(p[0], value, w)
    && Assigned(r.scopes, p[0].after.scopes, name, p[0].value)
    && r == p[0].after.(scopes := r.scopes) && v == Shown(r.scopes, name)
  }

  ghost predicate IfRule(cond: Node, thn: Option<Node>, els: Option<Node>, p: seq<Run>, w: World, v: Value, r: World) {
    && |p| >= 1 && Starts(p[0], cond, w)
    && if p[0].after.flow != Normal then |p| == 1 && v == ZERO && r == p[0].after
       else
         var branch := if IsTrue(p[0].value) then thn else els;
         if branch.None? then |p| == 1 && v == ZERO && r == p[0].after
         else |p| == 2 && Starts(p[1], branch.value, p[0].after) && v == p[1].value && r == p[1].after
  }

  /** A test that has run lets the loop go on. */
  ghost predicate Passes(t: Run) { t.after.flow == Normal && IsTrue(t.value) }

  /** How a body that has run ends a loop, or not. */
  ghost predicate BodyLeaves(b: Run) { b.after.flow == Break || b.after.flow == Flow.Return }

  /** The world after a loop that its body has left: a break is used up, a return goes on outwards. */
  ghost function Left(b: Run): World { if b.after.flow == Break then b.after.(flow := Normal) else b.after }

  /** Test and body in turn, until the test fails or one of them leaves; a continue goes on with the test. */
  ghost predicate WhileRule(cond: Node, body: Node, p: seq<Run>, w: World, last: Value, v: Value, r: World)
    decreases |p|, 1
  {
    if w.flow != Normal && w.flow != Continue then p == [] && v == last && r == w
    else
      && |p| >= 1 && Starts(p[0], cond, w.(flow := Normal))
      && if !Passes(p[0]) then |p| == 1 && v == last && r == p[0].after
         else WhileBody(cond, body, p[1..], p[0].after, v, r)
  }

  ghost predicate WhileBody(cond: Node, body: Node, p: seq<Run>, w: World, v: Value, r: World)
    decreases |p|, 0
  {
    && |p| >= 1 && Starts(p[0], body, w)
    && if BodyLeaves(p[0]) then |p| == 1 && v == p[0].value && r == Left(p[0])
       else WhileRule(cond, body, p[1..], p[0].after, p[0].value, v, r)
  }

  /** Body and test in turn; a continue in the body goes on with the test. */
  ghost predicate DoWhileRule(body: Node, cond: Node, p: seq<Run>, w: World, v: Value, r: World)
    decreases |p|, 1
  {
    && |p| >= 1 && Starts(p[0], body, w)
    && if BodyLeaves(p[0]) then |p| == 1 && v == p[0].value && r == Left(p[0])
       else
         var w' := if p[0].after.flow == Continue then p[0].after.(flow := Normal) else p[0].after;
         DoWhileRest(body, cond, p[1..], w', p[0].value, v, r)
  }

  ghost predicate DoWhileRest(body: Node, cond: Node, p: seq<Run>, w: World, last: Value, v: Value, r: World)
    decreases |p|, 0
  {
    && |p| >= 1 && Starts(p[0], cond, w)
    && if !Passes(p[0]) then |p| == 1 && v == last && r == p[0].after
       else DoWhileRule(body, cond, p[1..], p[0].after, v, r)
  }

  /** Guard, body and step in turn, each of guard and step only if there is one. */
  ghost predicate ForRule(guard: Option<Node>, post: Option<Node>, body: Node, p: seq<Run>, w: World, last: Value, v: Value, r: World)
    decreases |p|, 1
  {
    if guard.None? then ForBody(guard, post, body, p, w, v, r)
    else
      && |p| >= 1 && Starts(p[0], guard.value, w)
      && if !Passes(p[0]) then |p| == 1 && v == last && r == p[0].after
         else ForBody(guard, post, body, p[1..], p[0].after, v, r)
  }

  ghost predicate ForBody(guard: Option<Node>, post: Option<Node>, body: Node, p: seq<Run>, w: World, v: Value, r: World)
    decreases |p|, 0
  {
    && |p| >= 1 && Starts(p[0], body, w)
    && if BodyLeaves(p[0]) then |p| == 1 && v == p[0].value && r == Left(p[0])
       else if post.None? then ForRule(guard, post, body, p[1..], p[0].after, p[0].value, v, r)
       else
         && |p| >= 2 && Starts(p[1], post.value, p[0].after)
         && if p[1].after.flow != Normal && p[1].after.flow != Continue then |p| == 2 && v == p[0].value && r == p[1].after
            else ForRule(guard, post, body, p[2..], p[1].after.(flow := Normal), p[0].value, v, r)
  }

  ghost predicate ForLoopRule(init: Option<Node>, guard: Option<Node>, post: Option<Node>, body: Node, p: seq<Run>, w: World,
                              v: Value, r: World)
  {
    if init.None? then if w.flow != Normal then p == [] && v == ZERO && r == w else ForRule(guard, post, body, p, w, ZERO, v, r)
    else
      && |p| >= 1 && Starts(p[0], init.value, w)
      && if p[0].after.flow != Normal then |p| == 1 && v == ZERO && r == p[0].after
         else ForRule(guard, post, body, p[1..], p[0].after, ZERO, v, r)
  }

  /** The nodes one after the other, up to the first that leaves. */
  ghost predicate InOrder(p: seq<Run>, nodes: seq<Node>, w: World)
    decreases |p|
  {
    if nodes == [] then p == []
    else
      && |p| >= 1 && Starts(p[0], nodes[0], w)
      && if p[0].after.flow != Normal then |p| == 1 else InOrder(p[1..], nodes[1..], p[0].after)
  }

  ghost function EndOf(p: seq<Run>, w: World): World { if p == [] then w else p[|p| - 1].after }

  ghost function ValueOf(p: seq<Run>, last: Value): Value { if p == [] then last else p[|p| - 1].value }

  ghost function Values(p: seq<Run>): seq<Value> { seq(|p|, i requires 0 <= i < |p| => p[i].value) }

  ghost predicate ReturnRule(result: Option<Node>, p: seq<Run>, w: World, v: Value, r: World) {
    if result.None? then p == [] && v == ZERO && r == w.(returned := ZERO, flow := Flow.Return)
    else
      && |p| == 1 && Starts(p[0], result.value, w) && v == p[0].value
      && r == if p[0].after.flow != Normal then p[0].after.(returned := v) else p[0].after.(returned := v, flow := Flow.Return)
  }

  /** The body of a function runs in a frame of its own: its parameters over what it captured. */
  ghost predicate Enters(b: Run, f: Value, args: seq<Value>)
    requires f.Closure?
  {
    && b.node == f.body && |b.before.scopes| == 2
    && Bound(b.before.scopes[0], f.captured, f.params, args) && b.before.scopes[1] == f.captured
    && b.before.flow == Normal && b.before.returned == ZERO && b.before.error == ZERO
  }

  /** A return hands over the value returned, an error goes on in the caller, and any other end hands over the body's value. */
  ghost predicate HandsOver(b: Run, w: World, v: Value, r: World) {
    if b.after.flow == Flow.Return then v == b.after.returned && r == w
    else v == b.value && r == if b.after.flow == Throw then w.(flow := Throw, error := b.after.error) else w
  }

  /** The arguments in order; then the function the name showed before or shows now, or else the builtin. */
  ghost predicate CallRule(sem: Semantics, name: string, args: seq<Node>, p: seq<Run>, w: World, v: Value, r: World) {
    exists a, b :: p == a + b && InOrder(a, args, w) && Called(sem, name, a, b, w, v, r)
  }

  ghost predicate Called(sem: Semantics, name: string, a: seq<Run>, b: seq<Run>, w: World, v: Value, r: World) {
    var early, late := Shown(w.scopes, name), Shown(EndOf(a, w).scopes, name);
    var f := if early.Closure? then early else late;
    if f.Closure? then |b| == 1 && Enters(b[0], f, Values(a)) && HandsOver(b[0], EndOf(a, w), v, r)
    else b == [] && Concludes(sem.builtin(name, Values(a)), EndOf(a, w), v, r)
  }

  /** The step follows from its parts. */
  ghost predicate Rule(sem: Semantics, node: Node, p: seq<Run>, w: World, v: Value, r: World) {
    match node
    case Lit(l) => p == [] && Denotes(l, v) && r == w
    case Variable(name) => p == [] && v == Shown(w.scopes, name) && r == w
    case Binary(op, left, right) => BinaryRule(sem, op, left, right, p, w, v, r)
    case Assign(name, value) => AssignRule(name, value, p, w, v, r)
    case If(cond, thn, els) => IfRule(cond, thn, els, p, w, v, r)
    case While(cond, body) => WhileRule(cond, body, p, w, ZERO, v, r)
    case DoWhile(body, cond) => DoWhileRule(body, cond, p, w, v, r)
    case For(init, guard, post, body) => ForLoopRule(init, guard, post, body, p, w, v, r)
    case Block(stmts) => InOrder(p, stmts, w) && v == ValueOf(p, ZERO) && r == EndOf(p, w)
    case Return(result) => ReturnRule(result, p, w, v, r)
    case BreakLoop => p == [] && v == ZERO && r == w.(flow := Break)
    case ContinueLoop => p == [] && v == ZERO && r == w.(flow := Continue)
    case Call(name, args) => CallRule(sem, name, args, p, w, v, r)
    case FunctionExpr(params, body) =>
      && p == [] && r == w
      && v.Closure? && v.params == params && v.body == body && Holds(v.captured, w.scopes, params, body)
  }

  /** Every step of the run follows by its rule. */
  ghost predicate Sound(sem: Semantics, t: Run) {
    Rule(sem, t.node, t.parts, t.before, t.value, t.after) && forall q :: q in t.parts ==> Sound(sem, q)
  }

  ghost predicate AllSound(sem: Semantics, p: seq<Run>) { forall q :: q in p ==> Sound(sem, q) }

  /** From this world the node yields this value and leaves that world. */
  ghost predicate Means(sem: Semantics, node: Node, w: World, v: Value, r: World) {
    exists t :: Sound(sem, t) && Starts(t, node, w) && t.value == v && t.after == r
  }

  // ----- the variable tables of the evaluator -----

  lemma {:induction false} FoundLookup(scopes: seq<Scope>, name: string)
    ensures Found(scopes, name) <==> Lookup(scopes, name).Some?
    ensures forall i :: FoundAt(scopes, name, i) ==> Lookup(scopes, name) == Some(scopes[i][name])
  {
    if scopes != [] {
      if name in scopes[0] {
        assert FoundAt(scopes, name, 0);
      } else {
        FoundLookup(scopes[1..], name);
        if i :| FoundAt(scopes[1..], name, i) {
          var k := i + 1;
          assert FoundAt(scopes, name, k);
        }
        forall i | FoundAt(scopes, name, i) ensures i > 0 && FoundAt(scopes[1..], name, i - 1) {
          forall j | 0 <= j < i - 1 ensures name !in scopes[1..][j] {
            assert scopes[1..][j] == scopes[j + 1];
          }
        }
      }
    }
  }

  lemma ShownIs(scopes: seq<Scope>, name: string)
    ensures Shown(scopes, name) == GetVar(scopes, name)
  {
    FoundLookup(scopes, name);
  }

  lemma {:induction false} OverwriteAt(scopes: seq<Scope>, name: string, v: Value, i: nat)
    requires FoundAt(scopes, name, i)
    ensures Overwrite(scopes, name, v) ==
      (if scopes[i][name].constant then scopes else scopes[i := scopes[i][name := Entry(v, false)]], true)
  {
    if i > 0 {
      assert FoundAt(scopes[1..], name, i - 1) by {
        forall j | 0 <= j < i - 1 ensures name !in scopes[1..][j] {
          assert scopes[1..][j] == scopes[j + 1];
        }
      }
      OverwriteAt(scopes[1..], name, v, i - 1);
      assert scopes == [scopes[0]] + scopes[1..];
      var entry := scopes[i][name := Entry(v, false)];
      assert scopes[1..][i - 1] == scopes[i];
      assert [scopes[0]] + scopes[1..][i - 1 := entry] == scopes[i := entry];
    } else {
      var entry := scopes[0][name := Entry(v, false)];
      assert [entry] + scopes[1..] == scopes[0 := entry];
    }
  }

  lemma {:induction false} OverwriteNone(scopes: seq<Scope>, name: string, v: Value)
    requires !Found(scopes, name)
    ensures Overwrite(scopes, name, v) == (scopes, false)
    decreases |scopes|
  {
    if scopes != [] {
      FoundLookup(scopes, name);
      FoundLookup(scopes[1..], name);
      OverwriteNone(scopes[1..], name, v);
      assert scopes == [scopes[0]] + scopes[1..];
    }
  }

  /** SetVar is the one assignment there is. */
  lemma AssignedIs(after: seq<Scope>, scopes: seq<Scope>, name: string, v: Value)
    ensures Assigned(after, scopes, name, v) <==> after == SetVar(scopes, name, v)
  {
    if Found(scopes, name) {
      var i :| FoundAt(scopes, name, i);
      OverwriteAt(scopes, name, v, i);
      forall k | FoundAt(scopes, name, k) ensures k == i {
      }
    } else {
      OverwriteNone(scopes, name, v);
      FoundLookup(scopes, name);
    }
  }

  lemma HoldsIs(captured: Scope, scopes: seq<Scope>, params: seq<string>, body: Node)
    ensures Holds(captured, scopes, params, body) <==> captured == SnapshotNames(scopes, ClosureFreeVars(body, params))
  {
    ClosureFreeVarsMeaning(body, params);
    var s := SnapshotNames(scopes, ClosureFreeVars(body, params));
    forall n ensures n in s <==> n in Reads(body) && n != "" && n !in params && Found(scopes, n) {
      SnapshotAllLookup(scopes, n);
      FoundLookup(scopes, n);
    }
    forall n | n in s ensures (forall i :: FoundAt(scopes, n, i) ==> s[n] == scopes[i][n]) {
      SnapshotAllLookup(scopes, n);
      FoundLookup(scopes, n);
    }
    hide ClosureFreeVars, SnapshotAll, SnapshotNames, Reads;
  }

  lemma {:induction false} LastArgumentAt(params: seq<string>, args: seq<Value>, n: string, i: nat)
    requires LastAt(params, n, i)
    ensures LastArgument(params, args, n) == Some(if i < |args| then args[i] else ZERO)
    decreases |params|
  {
    if i > 0 {
      assert LastAt(params[1..], n, i - 1);
      LastArgumentAt(params[1..], if args == [] then [] else args[1..], n, i - 1);
    } else {
      assert n !in params[1..];
    }
  }

  lemma {:induction false} LastFound(params: seq<string>, n: string) returns (i: nat)
    requires n in params
    ensures LastAt(params, n, i)
    decreases |params|
  {
    var k := |params| - 1;
    if params[k] == n {
      i := k;
    } else {
      assert params == params[..k] + [params[k]];
      i := LastFound(params[..k], n);
    }
  }

  lemma GivenIs(params: seq<string>, args: seq<Value>, n: string, v: Value)
    ensures Given(params, args, n, v) <==> LastArgument(params, args, n) == Some(v)
  {
    if i :| LastAt(params, n, i) && v == if i < |args| then args[i] else ZERO {
      LastArgumentAt(params, args, n, i);
    }
    if n in params {
      var i := LastFound(params, n);
      LastArgumentAt(params, args, n, i);
    }
  }

  lemma BoundNameIs(local: Scope, captured: Scope, params: seq<string>, args: seq<Value>, n: string)
    ensures var s := BindParams(Import(captured), params, args);
      BoundName(local, captured, params, args, n) <==> (n in local <==> n in s) && (n in local ==> local[n] == s[n])
  {
    BindParamsLookup(Import(captured), params, args, n);
    if n in local {
      GivenIs(params, args, n, local[n].value);
    }
    hide BindParams, LastArgument, Given;
  }

  /** There is one way to bind the parameters. */
  lemma BoundIs(local: Scope, captured: Scope, params: seq<string>, args: seq<Value>)
    ensures Bound(local, captured, params, args) <==> local == BindParams(Import(captured), params, args)
  {
    hide BindParams, BoundName, Import;
    forall n
      ensures var s := BindParams(Import(captured), params, args);
        BoundName(local, captured, params, args, n) <==> (n in local <==> n in s) && (n in local ==> local[n] == s[n])
    {
      BoundNameIs(local, captured, params, args, n);
    }
  }
}
