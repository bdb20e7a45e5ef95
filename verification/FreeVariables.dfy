// Which names a closure captures: the collector walks the body and keeps a list
// of distinct names.

module FreeVariables {
  import opened Options
  import opened Script

  /** Names are kept in order of first occurrence; the empty name is ignored. */
  function AddName(names: seq<string>, name: string): seq<string> {
    if name == "" || name in names then names else names + [name]
  }

  function CollectOption(node: Option<Node>, names: seq<string>): seq<string>
    decreases node, 1
  {
    match node
    case None => names
    case Some(n) => Collect(n, names)
  }

  function CollectAll(nodes: seq<Node>, names: seq<string>): seq<string>
    decreases nodes, 1
  {
    if nodes == [] then names else CollectAll(nodes[1..], Collect(nodes[0], names))
  }

  /** Assignment targets and parameter lists are not references; nested bodies are searched as well. */
  function Collect(node: Node, names: seq<string>): seq<string>
    decreases node, 0
  {
    match node
    case Lit(_) => names
    case Variable(name) => AddName(names, name)
    case Binary(_, left, right) => Collect(right, CollectOption(left, names))
    case Assign(_, value) => Collect(value, names)
    case If(cond, thn, els) => CollectOption(els, CollectOption(thn, Collect(cond, names)))
    case While(cond, body) => Collect(body, Collect(cond, names))
    case DoWhile(body, cond) => Collect(cond, Collect(body, names))
    case For(init, guard, post, body) =>
      Collect(body, CollectOption(post, CollectOption(guard, CollectOption(init, names))))
    case Block(stmts) => CollectAll(stmts, names)
    case Return(result) => CollectOption(result, names)
    case BreakLoop => names
    case ContinueLoop => names
    case Call(name, args) => CollectAll(args, AddName(names, name))
    case FunctionExpr(_, body) => Collect(body, names)
  }

  /** The list without the parameters, in the same order. */
  function Without(names: seq<string>, params: seq<string>): seq<string> {
    if names == [] then []
    else (if names[0] in params then [] else [names[0]]) + Without(names[1..], params)
  }

  function ClosureFreeVars(body: Node, params: seq<string>): seq<string> {
    Without(Collect(body, []), params)
  }

  // ----- what the list means -----

  /** The names a run of the node may look up, in its own body or when it builds a nested closure. */
  function Reads(node: Node): set<string>
    decreases node, 0
  {
    match node
    case Lit(_) => {}
    case Variable(name) => {name}
    case Binary(_, left, right) => ReadsOption(left) + Reads(right)
    case Assign(_, value) => Reads(value)
    case If(cond, thn, els) => Reads(cond) + ReadsOption(thn) + ReadsOption(els)
    case While(cond, body) => Reads(cond) + Reads(body)
    case DoWhile(body, cond) => Reads(body) + Reads(cond)
    case For(init, guard, post, body) => ReadsOption(init) + ReadsOption(guard) + ReadsOption(post) + Reads(body)
    case Block(stmts) => ReadsAll(stmts)
    case Return(result) => ReadsOption(result)
    case BreakLoop => {}
    case ContinueLoop => {}
    case Call(name, args) => {name} + ReadsAll(args)
    case FunctionExpr(_, body) => Reads(body)
  }

  function ReadsOption(node: Option<Node>): set<string>
    decreases node, 1
  {
    match node
    case None => {}
    case Some(n) => Reads(n)
  }

  function ReadsAll(nodes: seq<Node>): set<string>
    decreases nodes, 1
  {
    if nodes == [] then {} else Reads(nodes[0]) + ReadsAll(nodes[1..])
  }

  /** The names the node itself assigns, nested function bodies excluded: those run in frames of their own. */
  function Assigns(node: Node): set<string>
    decreases node, 0
  {
    match node
    case Lit(_) => {}
    case Variable(_) => {}
    case Binary(_, left, right) => AssignsOption(left) + Assigns(right)
    case Assign(name, value) => {name} + Assigns(value)
    case If(cond, thn, els) => Assigns(cond) + AssignsOption(thn) + AssignsOption(els)
    case While(cond, body) => Assigns(cond) + Assigns(body)
    case DoWhile(body, cond) => Assigns(body) + Assigns(cond)
    case For(init, guard, post, body) =>
      AssignsOption(init) + AssignsOption(guard) + AssignsOption(post) + Assigns(body)
    case Block(stmts) => AssignsAll(stmts)
    case Return(result) => AssignsOption(result)
    case BreakLoop => {}
    case ContinueLoop => {}
    case Call(_, args) => AssignsAll(args)
    case FunctionExpr(_, _) => {}
  }

  function AssignsOption(node: Option<Node>): set<string>
    decreases node, 1
  {
    match node
    case None => {}
    case Some(n) => Assigns(n)
  }

  function AssignsAll(nodes: seq<Node>): set<string>
    decreases nodes, 1
  {
    if nodes == [] then {} else Assigns(nodes[0]) + AssignsAll(nodes[1..])
  }

  /** The nodes one step below, in the order of the syntax. */
  function Children(node: Node): seq<Node> {
    match node
    case Lit(_) => []
    case Variable(_) => []
    case Binary(_, left, right) => Present(left) + [right]
    case Assign(_, value) => [value]
    case If(cond, thn, els) => [cond] + Present(thn) + Present(els)
    case While(cond, body) => [cond, body]
    case DoWhile(body, cond) => [body, cond]
    case For(init, guard, post, body) => Present(init) + Present(guard) + Present(post) + [body]
    case Block(stmts) => stmts
    case Return(result) => Present(result)
    case BreakLoop => []
    case ContinueLoop => []
    case Call(_, args) => args
    case FunctionExpr(_, body) => [body]
  }

  function Present(node: Option<Node>): seq<Node> { if node.Some? then [node.value] else [] }

  lemma {:induction false} NamesOfAll(nodes: seq<Node>, n: string)
    ensures n in ReadsAll(nodes) <==> exists c :: c in nodes && n in Reads(c)
    ensures n in AssignsAll(nodes) <==> exists c :: c in nodes && n in Assigns(c)
    decreases |nodes|
  {
    hide Reads, Assigns;
    if nodes != [] {
      NamesOfAll(nodes[1..], n);
      assert ReadsAll(nodes) == Reads(nodes[0]) + ReadsAll(nodes[1..]);
      assert AssignsAll(nodes) == Assigns(nodes[0]) + AssignsAll(nodes[1..]);
      assert nodes == [nodes[0]] + nodes[1..] && nodes[0] in nodes;
      forall c ensures c in nodes <==> c == nodes[0] || c in nodes[1..] {
      }
    }
  }

  lemma {:induction false} NamesOfBoth(a: seq<Node>, b: seq<Node>)
    ensures ReadsAll(a + b) == ReadsAll(a) + ReadsAll(b)
    ensures AssignsAll(a + b) == AssignsAll(a) + AssignsAll(b)
    decreases |a|
  {
    hide Reads, Assigns;
    if a == [] {
      assert a + b == b;
    } else {
      NamesOfBoth(a[1..], b);
      assert (a + b)[1..] == a[1..] + b;
    }
  }

  lemma NamesOfOne(node: Node)
    ensures ReadsAll([node]) == Reads(node) && AssignsAll([node]) == Assigns(node)
  {
    hide Reads, Assigns;
    assert ReadsAll([node]) == Reads(node) + ReadsAll([]);
    assert AssignsAll([node]) == Assigns(node) + AssignsAll([]);
  }

  lemma NamesOfPresent(node: Option<Node>)
    ensures ReadsAll(Present(node)) == ReadsOption(node) && AssignsAll(Present(node)) == AssignsOption(node)
  {
    hide Reads, Assigns;
    if node.Some? {
      NamesOfOne(node.value);
    }
  }

  /** The names a node and the nodes below it read or assign, but for the names it reads or assigns itself. */
  lemma NamesBelow(node: Node)
    ensures !node.Variable? && !node.Call? ==> Reads(node) == ReadsAll(Children(node))
    ensures !node.Assign? && !node.FunctionExpr? ==> Assigns(node) == AssignsAll(Children(node))
  {
    match node
    case Binary(_, left, right) =>
      NamesOfPresent(left);
      NamesOfOne(right);
      NamesOfBoth(Present(left), [right]);
    case Assign(_, value) => NamesOfOne(value);
    case If(cond, thn, els) =>
      NamesOfOne(cond);
      NamesOfPresent(thn);
      NamesOfPresent(els);
      NamesOfBoth([cond], Present(thn));
      NamesOfBoth([cond] + Present(thn), Present(els));
    case While(cond, body) => NamesOfTwo(cond, body);
    case DoWhile(body, cond) => NamesOfTwo(body, cond);
    case For(init, guard, post, body) => NamesOfFor(init, guard, post, body);
    case Return(result) => NamesOfPresent(result);
    case FunctionExpr(_, body) => NamesOfOne(body);
    case _ =>
  }

  lemma NamesOfTwo(a: Node, b: Node)
    ensures ReadsAll([a, b]) == Reads(a) + Reads(b) && AssignsAll([a, b]) == Assigns(a) + Assigns(b)
  {
    hide Reads, Assigns;
    NamesOfOne(a);
    NamesOfOne(b);
    NamesOfBoth([a], [b]);
    assert [a] + [b] == [a, b];
  }

  lemma NamesOfFor(init: Option<Node>, guard: Option<Node>, post: Option<Node>, body: Node)
    ensures var all := Present(init) + Present(guard) + Present(post) + [body];
      && ReadsAll(all) == ReadsOption(init) + ReadsOption(guard) + ReadsOption(post) + Reads(body)
      && AssignsAll(all) == AssignsOption(init) + AssignsOption(guard) + AssignsOption(post) + Assigns(body)
  {
    hide Reads, Assigns, Present;
    NamesOfPresent(init);
    NamesOfPresent(guard);
    NamesOfPresent(post);
    NamesOfOne(body);
    NamesOfBoth(Present(init), Present(guard));
    NamesOfBoth(Present(init) + Present(guard), Present(post));
    NamesOfBoth(Present(init) + Present(guard) + Present(post), [body]);
  }

  /** A name is read by a node that is it or calls it, and wherever a node below reads it, functions and all. */
  lemma ReadsExactly(node: Node, n: string)
    ensures n in Reads(node) <==>
      || node == Variable(n)
      || (node.Call? && node.name == n)
      || exists c :: c in Children(node) && n in Reads(c)
  {
    NamesBelow(node);
    NamesOfAll(Children(node), n);
    assert node.Call? ==> Reads(node) == {node.name} + ReadsAll(Children(node));
    assert node.Variable? ==> Reads(node) == {node.name} && Children(node) == [];
    hide Reads, Children;
  }

  /** A name is assigned by a node that assigns it, and wherever a node below does, but not across a function. */
  lemma AssignsExactly(node: Node, n: string)
    ensures n in Assigns(node) <==>
      || (node.Assign? && node.name == n)
      || (!node.FunctionExpr? && exists c :: c in Children(node) && n in Assigns(c))
  {
    NamesBelow(node);
    NamesOfAll(Children(node), n);
    if node.Assign? {
      NamesOfOne(node.value);
      assert Assigns(node) == {node.name} + AssignsAll(Children(node));
    }
    assert node.FunctionExpr? ==> Assigns(node) == {};
    hide Assigns, Children;
  }

  ghost predicate Distinct(names: seq<string>) {
    forall i, j :: 0 <= i < j < |names| ==> names[i] != names[j]
  }

  ghost function Elements(names: seq<string>): set<string> { set n | n in names }

  /** names' extends names by exactly the new names of extra, each once. */
  ghost predicate Extends(names': seq<string>, names: seq<string>, extra: set<string>) {
    && names <= names'
    && Elements(names') == Elements(names) + (extra - {""})
    && (Distinct(names) ==> Distinct(names'))
  }

  lemma ExtendsTrans(a: seq<string>, b: seq<string>, c: seq<string>, x: set<string>, y: set<string>)
    requires Extends(b, a, x) && Extends(c, b, y)
    ensures Extends(c, a, x + y)
  {
    hide Distinct, Elements;
  }

  lemma AddNameExtends(names: seq<string>, name: string)
    ensures Extends(AddName(names, name), names, {name})
  {
  }

  /** The collector finds exactly the names the body may look up. */
  lemma {:induction false} CollectExtends(node: Node, names: seq<string>)
    ensures Extends(Collect(node, names), names, Reads(node))
    decreases node, 0
  {
    hide Extends;
    match node
    case Lit(_) => Unextended(names);
    case Variable(name) => AddNameExtends(names, name);
    case Binary(_, left, right) =>
      var a := CollectOption(left, names);
      CollectOptionExtends(left, names);
      CollectExtends(right, a);
      ExtendsTrans(names, a, Collect(right, a), ReadsOption(left), Reads(right));
    case Assign(_, value) => CollectExtends(value, names);
    case If(cond, thn, els) =>
      var a := Collect(cond, names);
      var b := CollectOption(thn, a);
      CollectExtends(cond, names);
      CollectOptionExtends(thn, a);
      CollectOptionExtends(els, b);
      ExtendsTrans(names, a, b, Reads(cond), ReadsOption(thn));
      ExtendsTrans(names, b, CollectOption(els, b), Reads(cond) + ReadsOption(thn), ReadsOption(els));
    case While(cond, body) =>
      var a := Collect(cond, names);
      CollectExtends(cond, names);
      CollectExtends(body, a);
      ExtendsTrans(names, a, Collect(body, a), Reads(cond), Reads(body));
    case DoWhile(body, cond) =>
      var a := Collect(body, names);
      CollectExtends(body, names);
      CollectExtends(cond, a);
      ExtendsTrans(names, a, Collect(cond, a), Reads(body), Reads(cond));
    case For(init, guard, post, body) =>
      var a := CollectOption(init, names);
      var b := CollectOption(guard, a);
      var c := CollectOption(post, b);
      CollectOptionExtends(init, names);
      CollectOptionExtends(guard, a);
      CollectOptionExtends(post, b);
      CollectExtends(body, c);
      ExtendsTrans(names, a, b, ReadsOption(init), ReadsOption(guard));
      ExtendsTrans(names, b, c, ReadsOption(init) + ReadsOption(guard), ReadsOption(post));
      ExtendsTrans(names, c, Collect(body, c), ReadsOption(init) + ReadsOption(guard) + ReadsOption(post), Reads(body));
    case Block(stmts) => CollectAllExtends(stmts, names);
    case Return(result) => CollectOptionExtends(result, names);
    case BreakLoop => Unextended(names);
    case ContinueLoop => Unextended(names);
    case Call(name, args) =>
      var a := AddName(names, name);
      AddNameExtends(names, name);
      CollectAllExtends(args, a);
      ExtendsTrans(names, a, CollectAll(args, a), {name}, ReadsAll(args));
    case FunctionExpr(_, body) => CollectExtends(body, names);
  }

  lemma Unextended(names: seq<string>)
    ensures Extends(names, names, {})
  {
  }

  lemma {:induction false} CollectOptionExtends(node: Option<Node>, names: seq<string>)
    ensures Extends(CollectOption(node, names), names, ReadsOption(node))
    decreases node, 1
  {
    match node
    case None => Unextended(names);
    case Some(n) => CollectExtends(n, names);
  }

  lemma {:induction false} CollectAllExtends(nodes: seq<Node>, names: seq<string>)
    ensures Extends(CollectAll(nodes, names), names, ReadsAll(nodes))
    decreases nodes, 1
  {
    if nodes == [] {
      Unextended(names);
    } else {
      hide Extends;
      var a := Collect(nodes[0], names);
      CollectExtends(nodes[0], names);
      CollectAllExtends(nodes[1..], a);
      ExtendsTrans(names, a, CollectAll(nodes[1..], a), Reads(nodes[0]), ReadsAll(nodes[1..]));
    }
  }

  lemma {:induction false} WithoutElements(names: seq<string>, params: seq<string>)
    ensures forall n :: n in Without(names, params) <==> n in names && n !in params
    ensures Distinct(names) ==> Distinct(Without(names, params))
  {
    if names != [] {
      WithoutElements(names[1..], params);
      assert names == [names[0]] + names[1..];
      if Distinct(names) {
        assert Distinct(names[1..]);
        assert names[0] !in names[1..];
      }
    }
  }

  /** The captured names are the names looked up that are not parameters, each listed once. */
  lemma ClosureFreeVarsMeaning(body: Node, params: seq<string>)
    ensures forall n :: n in ClosureFreeVars(body, params) <==> n in Reads(body) && n != "" && n !in params
    ensures Distinct(ClosureFreeVars(body, params))
  {
    CollectExtends(body, []);
    WithoutElements(Collect(body, []), params);
    forall n ensures n in Collect(body, []) <==> n in Reads(body) && n != "" {
      assert n in Collect(body, []) <==> n in Elements(Collect(body, []));
    }
  }

  /** The collector as the runtime keeps it: one growing list of names. */
  class Collector {
    var names: seq<string>

    constructor ()
      ensures names == []
    {
      names := [];
    }

    method Add(name: string)
      modifies this
      ensures names == AddName(old(names), name)
    {
      if name == "" {
        return;
      }
      var i := 0;
      while i < |names|
        invariant 0 <= i <= |names| && names == old(names)
        invariant name !in names[..i]
      {
        if names[i] == name {
          return;
        }
        i := i + 1;
      }
      names := names + [name];
    }

    method VisitOption(node: Option<Node>)
      modifies this
      ensures names == CollectOption(node, old(names))
      decreases node, 1
    {
      match node
      case None =>
      case Some(n) => Visit(n);
    }

    method VisitAll(nodes: seq<Node>)
      modifies this
      ensures names == CollectAll(nodes, old(names))
      decreases nodes, 1
    {
      ghost var start := names;
      var i := 0;
      while i < |nodes|
        invariant 0 <= i <= |nodes|
        invariant CollectAll(nodes, start) == CollectAll(nodes[i..], names)
      {
        Visit(nodes[i]);
        i := i + 1;
      }
    }

    method Visit(node: Node)
      modifies this
      ensures names == Collect(node, old(names))
      decreases node, 0
    {
      match node
      case Lit(_) =>
      case Variable(name) => Add(name);
      case Binary(_, left, right) => VisitOption(left); Visit(right);
      case Assign(_, value) => Visit(value);
      case If(cond, thn, els) => Visit(cond); VisitOption(thn); VisitOption(els);
      case While(cond, body) => Visit(cond); Visit(body);
      case DoWhile(body, cond) => Visit(body); Visit(cond);
      case For(init, guard, post, body) => VisitOption(init); VisitOption(guard); VisitOption(post); Visit(body);
      case Block(stmts) => VisitAll(stmts);
      case Return(result) => VisitOption(result);
      case BreakLoop =>
      case ContinueLoop =>
      case Call(name, args) => Add(name); VisitAll(args);
      case FunctionExpr(_, body) => Visit(body);
    }
  }

  /** The names to capture for a closure with plain parameters. */
  method CollectClosureFreeVars(body: Node, params: seq<string>) returns (result: seq<string>)
    ensures result == ClosureFreeVars(body, params)
    ensures forall n :: n in result <==> n in Reads(body) && n != "" && n !in params
    ensures Distinct(result)
  {
    var c := new Collector();
    c.Visit(body);
    result := [];
    var i := 0;
    while i < |c.names|
      invariant 0 <= i <= |c.names|
      invariant Without(c.names, params) == result + Without(c.names[i..], params)
    {
      if c.names[i] !in params {
        result := result + [c.names[i]];
      }
      i := i + 1;
    }
    ClosureFreeVarsMeaning(body, params);
  }
}
