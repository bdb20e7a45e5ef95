// The script language the evaluator and the closure collector work on:
// syntax trees, values, and chains of variable tables.

module Script {
  import opened Options

  datatype Literal = NumberLit(number: real) | IntegerLit(integer: int) | TextLit(text: string) | NullLit

  datatype Node =
    | Lit(literal: Literal)
    | Variable(name: string)
    | Binary(op: string, left: Option<Node>, right: Node)
    | Assign(name: string, value: Node)
    | If(cond: Node, thn: Option<Node>, els: Option<Node>)
    | While(cond: Node, body: Node)
    | DoWhile(body: Node, cond: Node)
    | For(init: Option<Node>, guard: Option<Node>, post: Option<Node>, body: Node)
    | Block(stmts: seq<Node>)
    | Return(result: Option<Node>)
    | BreakLoop
    | ContinueLoop
    | Call(name: string, args: seq<Node>)
    | FunctionExpr(params: seq<string>, body: Node)

  datatype Value =
    | Number(number: real)
    | Integer(integer: int)
    | Text(text: string)
    | Boolean(flag: bool)
    | Null
    | Closure(params: seq<string>, body: Node, captured: Scope)

  datatype Entry = Entry(value: Value, constant: bool)

  /** The variables of one environment. */
  type Scope = map<string, Entry>

  const ZERO := Number(0.0)

  // ----- variable tables, innermost first -----

  function Lookup(scopes: seq<Scope>, name: string): Option<Entry> {
    if scopes == [] then None
    else if name in scopes[0] then Some(scopes[0][name])
    else Lookup(scopes[1..], name)
  }

  /** Reading an unknown variable yields the number 0. */
  function GetVar(scopes: seq<Scope>, name: string): Value {
    match Lookup(scopes, name)
    case Some(entry) => entry.value
    case None => ZERO
  }

  /** Overwrites the variable where it is found, unless it is constant; false means it is not found. */
  function Overwrite(scopes: seq<Scope>, name: string, value: Value): (seq<Scope>, bool) {
    if scopes == [] then ([], false)
    else if name in scopes[0] then
      (if scopes[0][name].constant then scopes else [scopes[0][name := Entry(value, false)]] + scopes[1..], true)
    else
      var (rest, found) := Overwrite(scopes[1..], name, value);
      ([scopes[0]] + rest, found)
  }

  function SetLocal(scope: Scope, name: string, value: Value): Scope {
    if name in scope && scope[name].constant then scope else scope[name := Entry(value, false)]
  }

  /** Assigns where the variable is found, and else creates it in the innermost table. */
  function SetVar(scopes: seq<Scope>, name: string, value: Value): (r: seq<Scope>)
  {
    var (updated, found) := Overwrite(scopes, name, value);
    if found || scopes == [] then updated else [SetLocal(scopes[0], name, value)] + scopes[1..]
  }

  lemma OverwriteLookup(scopes: seq<Scope>, name: string, value: Value, m: string)
    ensures |Overwrite(scopes, name, value).0| == |scopes|
    ensures Overwrite(scopes, name, value).1 <==> Lookup(scopes, name).Some?
    ensures Lookup(Overwrite(scopes, name, value).0, m) ==
      match Lookup(scopes, name)
      case None => Lookup(scopes, m)
      case Some(entry) => if m == name && !entry.constant then Some(Entry(value, false)) else Lookup(scopes, m)
  {
    if scopes != [] && name !in scopes[0] {
      OverwriteLookup(scopes[1..], name, value, m);
    }
  }

  /** Assignment changes one variable, and a constant not at all. */
  lemma SetVarLookup(scopes: seq<Scope>, name: string, value: Value, m: string)
    requires scopes != []
    ensures |SetVar(scopes, name, value)| == |scopes|
    ensures Lookup(SetVar(scopes, name, value), m) ==
      if m != name || (Lookup(scopes, name).Some? && Lookup(scopes, name).value.constant) then Lookup(scopes, m)
      else Some(Entry(value, false))
  {
    OverwriteLookup(scopes, name, value, m);
  }

  // ----- snapshots -----

  /** Every variable visible from a scope chain, the innermost first. */
  function SnapshotAll(scopes: seq<Scope>): Scope {
    if scopes == [] then map[] else SnapshotAll(scopes[1..]) + scopes[0]
  }

  /** The named variables visible from a scope chain. */
  function SnapshotNames(scopes: seq<Scope>, names: seq<string>): Scope {
    var all := SnapshotAll(scopes);
    map n | n in all && n in names :: all[n]
  }

  lemma SnapshotAllLookup(scopes: seq<Scope>, n: string)
    ensures n in SnapshotAll(scopes) <==> Lookup(scopes, n).Some?
    ensures n in SnapshotAll(scopes) ==> SnapshotAll(scopes)[n] == Lookup(scopes, n).value
  {
  }

  // ----- calling a closure -----

  /** The captured variables, copied into the frame of a call. */
  function Import(captured: Scope): Scope {
    map n | n in captured && n != "this" :: captured[n]
  }

  /** Parameters are bound in order; missing arguments are the number 0. */
  function BindParams(local: Scope, params: seq<string>, args: seq<Value>): Scope
    decreases |params|
  {
    if params == [] then local
    else
      var v := if args == [] then ZERO else args[0];
      BindParams(SetLocal(local, params[0], v), params[1..], if args == [] then [] else args[1..])
  }

  /** The argument a parameter ends up with: the last one, when a name is repeated. */
  function LastArgument(params: seq<string>, args: seq<Value>, name: string): (r: Option<Value>)
    ensures r.Some? <==> name in params
    ensures r.Some? ==> r.value == ZERO || r.value in args
    decreases |params|
  {
    if params == [] then None
    else
      match LastArgument(params[1..], if args == [] then [] else args[1..], name)
      case Some(v) => Some(v)
      case None => if params[0] == name then Some(if args == [] then ZERO else args[0]) else None
  }

  ghost predicate NotConstant(scope: Scope, name: string) { name in scope ==> !scope[name].constant }

  lemma {:induction false} BindParamsLookup(local: Scope, params: seq<string>, args: seq<Value>, n: string)
    ensures n in BindParams(local, params, args) <==> n in local || n in params
    ensures n in BindParams(local, params, args) ==>
      BindParams(local, params, args)[n] ==
      if n in params && NotConstant(local, n) then Entry(LastArgument(params, args, n).value, false) else local[n]
    decreases |params|
  {
    if params != [] {
      var v := if args == [] then ZERO else args[0];
      assert n in params <==> n == params[0] || n in params[1..];
      BindParamsLookup(SetLocal(local, params[0], v), params[1..], if args == [] then [] else args[1..], n);
    }
  }

  /** A parameter gets its argument, unless a captured constant of that name is already in its place. */
  ghost predicate Binds(captured: Scope, params: seq<string>, n: string) {
    n in params && (n == "this" || NotConstant(captured, n))
  }

  /** What a name means at the start of a call. */
  lemma FrameLookup(captured: Scope, params: seq<string>, args: seq<Value>, n: string)
    ensures Lookup([BindParams(Import(captured), params, args), captured], n) ==
      if Binds(captured, params, n) then Some(Entry(LastArgument(params, args, n).value, false))
      else if n in captured then Some(captured[n]) else None
  {
    BindParamsLookup(Import(captured), params, args, n);
    var inner := BindParams(Import(captured), params, args);
    assert [inner, captured][1..] == [captured];
    assert Lookup([captured], n) == if n in captured then Some(captured[n]) else None;
  }

  // ----- truth -----

  function Truthy(v: Value): bool {
    match v
    case Number(r) => r > 0.000000001 || r < -0.000000001
    case Integer(i) => i != 0
    case Text(s) => |s| > 0
    case Boolean(b) => b
    case Null => false
    case Closure(_, _, _) => true
  }

  function LiteralValue(l: Literal): Value {
    match l
    case NumberLit(r) => Number(r)
    case IntegerLit(i) => Integer(i)
    case TextLit(s) => Text(s)
    case NullLit => Null
  }
}
