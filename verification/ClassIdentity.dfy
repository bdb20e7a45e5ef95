// Stable identities of classes: a depth-first walk over prototypes and interfaces that
// detects cycles with a three-state mark, and an identity that depends on the shape alone.

module ClassIdentity {
  import opened Options

  type Id = nat

  datatype Field = Field(name: string, declaredType: string, access: nat)

  datatype Flags = Flags(isAbstract: bool, isInterface: bool, isFinal: bool)

  /** A class as it is declared; other classes are named by their ids. */
  datatype Node = Node(name: string, flags: Flags, prototype: Option<Id>, interfaces: seq<Id>, fields: seq<Field>, arena: nat)

  type Graph = map<Id, Node>

  /** The classes one step above: the prototype first, then the interfaces. */
  function Above(n: Node): (r: seq<Id>)
    ensures forall a :: a in r <==> n.prototype == Some(a) || a in n.interfaces
  {
    (if n.prototype.Some? then [n.prototype.value] else []) + n.interfaces
  }

  ghost predicate Closed(g: Graph) {
    forall k, a {:trigger g[k], a in g} :: k in g && a in Above(g[k]) ==> a in g
  }

  // ----- cycles -----

  ghost predicate IsPath(g: Graph, p: seq<Id>) {
    && (forall i :: 0 <= i < |p| ==> p[i] in g)
    && (forall i :: 0 < i < |p| ==> p[i] in Above(g[p[i - 1]]))
  }

  /** A way up from k that comes back to a class it has passed. */
  ghost predicate Cycles(g: Graph, k: Id, p: seq<Id>) {
    |p| > 1 && p[0] == k && IsPath(g, p) && p[|p| - 1] in p[..|p| - 1]
  }

  /** Every way up from k ends after fewer than n steps. */
  ghost predicate Within(g: Graph, k: Id, n: nat)
    decreases n
  {
    n > 0 && k in g && forall a :: a in Above(g[k]) ==> Within(g, a, n - 1)
  }

  lemma HeightAbove(g: Graph, k: Id, n: nat, a: Id)
    requires Within(g, k, n) && (g[k].prototype == Some(a) || a in g[k].interfaces)
    ensures n > 0 && Within(g, a, n - 1)
  {
    assert a in Above(g[k]);
  }

  ghost predicate Acyclic(g: Graph, k: Id) { exists n: nat :: Within(g, k, n) }

  lemma {:induction false} WithinMore(g: Graph, k: Id, n: nat, m: nat)
    requires Within(g, k, n) && n <= m
    ensures Within(g, k, m)
    decreases n
  {
    forall a | a in Above(g[k]) ensures Within(g, a, m - 1) {
      WithinMore(g, a, n - 1, m - 1);
    }
  }

  lemma {:induction false} WithinAlong(g: Graph, p: seq<Id>, n: nat, i: nat)
    requires IsPath(g, p) && i < |p| && Within(g, p[0], n)
    ensures i < n && Within(g, p[i], n - i)
  {
    if i > 0 {
      WithinAlong(g, p, n, i - 1);
    }
  }

  /** A finite height leaves no room for a cycle. */
  lemma AcyclicNoCycle(g: Graph, k: Id, p: seq<Id>)
    requires Acyclic(g, k)
    ensures !Cycles(g, k, p)
  {
    if Cycles(g, k, p) {
      var n: nat :| Within(g, k, n);
      var i: nat :| i < |p| - 1 && p[..|p| - 1][i] == p[|p| - 1];
      WithinAlong(g, p, n, i);
      var loop := p[i..];
      assert IsPath(g, loop) && loop[|loop| - 1] == loop[0];
      LoopHasNoHeight(g, loop, n - i);
    }
  }

  lemma {:induction false} LoopHasNoHeight(g: Graph, p: seq<Id>, n: nat)
    requires |p| > 1 && IsPath(g, p) && p[|p| - 1] == p[0]
    ensures !Within(g, p[0], n)
    decreases n
  {
    if Within(g, p[0], n) {
      WithinAlong(g, p, n, |p| - 1);
      LoopHasNoHeight(g, p, n - (|p| - 1));
    }
  }

  // ----- shapes and their identities -----

  /** A class with everything above it spelled out. */
  datatype Shape = Shape(name: string, flags: Flags, prototype: Option<Shape>, interfaces: seq<Shape>, fields: seq<Field>)

  ghost function ShapeOf(g: Graph, k: Id, n: nat): Shape
    requires Within(g, k, n)
    decreases n
  {
    var c := g[k];
    Shape(c.name, c.flags,
          if c.prototype.Some? then (HeightAbove(g, k, n, c.prototype.value); Some(ShapeOf(g, c.prototype.value, n - 1))) else None,
          seq(|c.interfaces|, i requires 0 <= i < |c.interfaces| =>
            HeightAbove(g, k, n, c.interfaces[i]); ShapeOf(g, c.interfaces[i], n - 1)),
          c.fields)
  }

  lemma {:induction false} ShapeSettled(g: Graph, k: Id, n: nat, m: nat)
    requires Within(g, k, n) && Within(g, k, m)
    ensures ShapeOf(g, k, n) == ShapeOf(g, k, m)
    decreases n
  {
    var c := g[k];
    if c.prototype.Some? {
      HeightAbove(g, k, n, c.prototype.value);
      HeightAbove(g, k, m, c.prototype.value);
      ShapeSettled(g, c.prototype.value, n - 1, m - 1);
    }
    forall i | 0 <= i < |c.interfaces| ensures ShapeOf(g, k, n).interfaces[i] == ShapeOf(g, k, m).interfaces[i] {
      HeightAbove(g, k, n, c.interfaces[i]);
      HeightAbove(g, k, m, c.interfaces[i]);
      ShapeSettled(g, c.interfaces[i], n - 1, m - 1);
    }
  }

  ghost function Tree(g: Graph, k: Id): Shape
    requires Acyclic(g, k)
  {
    var n: nat :| Within(g, k, n);
    ShapeOf(g, k, n)
  }

  lemma CommonHeight(g: Graph, s: seq<Id>) returns (n: nat)
    requires forall a :: a in s ==> Acyclic(g, a)
    ensures forall a :: a in s ==> Within(g, a, n)
  {
    n := 0;
    if s != [] {
      var m := CommonHeight(g, s[1..]);
      assert s[0] in s && Acyclic(g, s[0]);
      var l: nat :| Within(g, s[0], l);
      n := if l < m then m else l;
      WithinMore(g, s[0], l, n);
      forall a | a in s ensures Within(g, a, n) {
        if a != s[0] {
          assert a in s[1..];
          WithinMore(g, a, m, n);
        }
      }
    }
  }

  /** A class is free of cycles if everything one step above is; its tree is put together from theirs. */
  lemma TreeAbove(g: Graph, k: Id)
    requires k in g && forall a :: a in Above(g[k]) ==> Acyclic(g, a)
    ensures Acyclic(g, k)
    ensures
      var c := g[k];
      Tree(g, k) ==
      Shape(c.name, c.flags, if c.prototype.Some? then Some(Tree(g, c.prototype.value)) else None,
            seq(|c.interfaces|, i requires 0 <= i < |c.interfaces| => Tree(g, c.interfaces[i])), c.fields)
  {
    var n := CommonHeight(g, Above(g[k]));
    assert Within(g, k, n + 1);
    TreeAt(g, k, n + 1);
    forall a | a in Above(g[k]) ensures Tree(g, a) == ShapeOf(g, a, n) {
      TreeAt(g, a, n);
    }
  }

  lemma TreeAt(g: Graph, k: Id, n: nat)
    requires Within(g, k, n)
    ensures Acyclic(g, k) && Tree(g, k) == ShapeOf(g, k, n)
  {
    var m: nat :| Within(g, k, m) && Tree(g, k) == ShapeOf(g, k, m);
    ShapeSettled(g, k, n, m);
  }

  /** The hash and the rendering of an identity are not interpreted: the results hold for every choice. */
  datatype Hashing = Hashing(start: nat, text: (nat, string) -> nat, number: (nat, nat) -> nat, render: (string, nat) -> string)
  {
    function Head(name: string, f: Flags): nat {
      var h := text(text(start, "turboscript.class.v1"), name);
      number(number(number(h, if f.isAbstract then 1 else 0), if f.isInterface then 1 else 0), if f.isFinal then 1 else 0)
    }

    function Texts(h: nat, ids: seq<string>): nat
      decreases |ids|
    {
      if ids == [] then h else text(Texts(h, ids[..|ids| - 1]), ids[|ids| - 1])
    }

    function Fields(h: nat, fields: seq<Field>): nat
      decreases |fields|
    {
      if fields == [] then h
      else
        var f := fields[|fields| - 1];
        number(text(text(Fields(h, fields[..|fields| - 1]), f.name), f.declaredType), f.access)
    }

    /** An absent prototype is hashed like an empty text. */
    function Identity(name: string, f: Flags, prototype: string, interfaces: seq<string>, fields: seq<Field>): string {
      var h := number(text(Head(name, f), prototype), |interfaces|);
      render(name, Fields(number(Texts(h, interfaces), |fields|), fields))
    }
  }

  /** The identity of a shape. */
  ghost function IdentityOf(hs: Hashing, s: Shape): string {
    hs.Identity(s.name, s.flags, if s.prototype.Some? then IdentityOf(hs, s.prototype.value) else "",
                seq(|s.interfaces|, i requires 0 <= i < |s.interfaces| => IdentityOf(hs, s.interfaces[i])), s.fields)
  }

  // ----- the walk -----

  type Marks = map<Id, int>

  /** Marks are 0 for untouched, -1 for under way, and 1 for finalized; a finalized class has its identity. */
  ghost predicate Settled(hs: Hashing, g: Graph, ready: Marks, ids: map<Id, string>) {
    && ready.Keys == g.Keys
    && (forall k :: k in ready ==> ready[k] == 0 || ready[k] == 1 || ready[k] == -1)
    && (forall k :: k in ready && ready[k] == 1 ==> k in ids && Acyclic(g, k) && ids[k] == IdentityOf(hs, Tree(g, k)))
  }

  /** Exactly these classes are under way. */
  ghost predicate UnderWay(ready: Marks, stack: seq<Id>) {
    forall k :: k in ready ==> (ready[k] == -1 <==> k in stack)
  }

  /** Only untouched classes have been touched, and none is left under way that was not before. */
  ghost predicate Extends(ready': Marks, ids': map<Id, string>, ready: Marks, ids: map<Id, string>) {
    && ready'.Keys == ready.Keys
    && (forall k :: k in ready && ready[k] != 0 ==> ready'[k] == ready[k])
    && (forall k :: k in ready && ready[k] == 0 ==> ready'[k] != -1)
    && (forall k :: k in ready && ready[k] == 1 && k in ids ==> k in ids' && ids'[k] == ids[k])
  }

  ghost function Untouched(ready: Marks): set<Id> { set k | k in ready && ready[k] == 0 }

  lemma ExtendsTwice(ready'': Marks, ids'': map<Id, string>, ready': Marks, ids': map<Id, string>, ready: Marks, ids: map<Id, string>)
    requires Extends(ready'', ids'', ready', ids') && Extends(ready', ids', ready, ids)
    ensures Extends(ready'', ids'', ready, ids)
  {
  }

  lemma ExtendsSelf(ready: Marks, ids: map<Id, string>)
    ensures Extends(ready, ids, ready, ids)
  {
  }

  lemma FewerUntouched(ready': Marks, ids': map<Id, string>, ready: Marks, ids: map<Id, string>)
    requires Extends(ready', ids', ready, ids)
    ensures |Untouched(ready')| <= |Untouched(ready)|
  {
    Subset(Untouched(ready'), Untouched(ready));
  }

  lemma Subset(a: set<Id>, b: set<Id>)
    requires a <= b
    ensures |a| <= |b|
  {
    if a != {} {
      var x :| x in a;
      Subset(a - {x}, b - {x});
    }
  }

  /** Marking a class as under way. */
  lemma Marked(hs: Hashing, g: Graph, ready: Marks, ids: map<Id, string>, stack: seq<Id>, k: Id)
    requires Settled(hs, g, ready, ids) && UnderWay(ready, stack) && k in g && ready[k] == 0
    ensures Settled(hs, g, ready[k := -1], ids) && UnderWay(ready[k := -1], stack + [k])
    ensures |Untouched(ready[k := -1])| < |Untouched(ready)|
  {
    assert Untouched(ready[k := -1]) == Untouched(ready) - {k};
    assert k in Untouched(ready);
  }

  /** Taking the mark back. */
  lemma Abandoned(hs: Hashing, g: Graph, ready': Marks, ids': map<Id, string>, ready: Marks, ids: map<Id, string>,
                  stack: seq<Id>, k: Id)
    requires k in g && k !in stack && ready.Keys == g.Keys && ready[k] == 0 && Settled(hs, g, ready', ids')
    requires UnderWay(ready', stack + [k]) && UnderWay(ready, stack) && Extends(ready', ids', ready[k := -1], ids)
    ensures Settled(hs, g, ready'[k := 0], ids') && UnderWay(ready'[k := 0], stack) && Extends(ready'[k := 0], ids', ready, ids)
  {
  }

  /** Finalizing the class once everything above it is. */
  lemma Finalized(hs: Hashing, g: Graph, ready': Marks, ids': map<Id, string>, ready: Marks, ids: map<Id, string>,
                  stack: seq<Id>, k: Id, id: string)
    requires k in g && k !in stack && ready.Keys == g.Keys && ready[k] == 0 && Settled(hs, g, ready', ids')
    requires UnderWay(ready', stack + [k]) && UnderWay(ready, stack) && Extends(ready', ids', ready[k := -1], ids)
    requires Acyclic(g, k) && id == IdentityOf(hs, Tree(g, k))
    ensures Settled(hs, g, ready'[k := 1], ids'[k := id]) && UnderWay(ready'[k := 1], stack)
    ensures Extends(ready'[k := 1], ids'[k := id], ready, ids)
  {
    hide Acyclic, Tree, IdentityOf;
  }

  /** The identity computed from the identities one step above is that of the tree. */
  lemma IdentityAbove(hs: Hashing, g: Graph, ready: Marks, ids: map<Id, string>, k: Id, parent: string, interfaces: seq<string>)
    requires k in g && Settled(hs, g, ready, ids)
    requires if g[k].prototype.Some? then Has(ready, ids, g[k].prototype.value, parent) else parent == ""
    requires |interfaces| == |g[k].interfaces|
    requires forall j :: 0 <= j < |interfaces| ==> Has(ready, ids, g[k].interfaces[j], interfaces[j])
    ensures Acyclic(g, k)
    ensures IdentityOf(hs, Tree(g, k)) == hs.Identity(g[k].name, g[k].flags, parent, interfaces, g[k].fields)
  {
    hide Acyclic, Tree, Hashing.Identity;
    forall a | a in Above(g[k]) ensures Acyclic(g, a) {
      if g[k].prototype != Some(a) {
        var j :| 0 <= j < |interfaces| && g[k].interfaces[j] == a;
        assert Has(ready, ids, g[k].interfaces[j], interfaces[j]);
      }
    }
    TreeAbove(g, k);
    var t := Tree(g, k);
    assert seq(|t.interfaces|, i requires 0 <= i < |t.interfaces| => IdentityOf(hs, t.interfaces[i])) == interfaces;
  }

  lemma PathUp(g: Graph, p: seq<Id>, k: Id, a: Id)
    requires Closed(g) && k in g && IsPath(g, p + [k]) && a in Above(g[k])
    ensures a in g && IsPath(g, (p + [k]) + [a])
  {
    assert (p + [k])[|p|] == k;
  }

  lemma PathOfOne(g: Graph, k: Id)
    requires k in g
    ensures IsPath(g, [] + [k])
  {
  }

  class Registry {
    const hs: Hashing
    const graph: Graph
    var ready: Marks
    var ids: map<Id, string>

    constructor (hs: Hashing, graph: Graph)
      ensures this.hs == hs && this.graph == graph
      ensures Settled(hs, graph, ready, ids) && UnderWay(ready, [])
    {
      this.hs, this.graph := hs, graph;
      ready := map k | k in graph :: 0;
      ids := map[];
    }

    /**
     * Finalizes a class after everything above it. `stack` are the classes whose finalization is under way; a failure
     * comes with the cycle that caused it.
     */
    method Finalize(k: Id, ghost stack: seq<Id>) returns (ok: bool, ghost cycle: seq<Id>)
      requires k in graph && Closed(graph) && IsPath(graph, stack + [k])
      requires Settled(hs, graph, ready, ids) && UnderWay(ready, stack)
      modifies this
      ensures Settled(hs, graph, ready, ids) && UnderWay(ready, stack)
      ensures Extends(ready, ids, old(ready), old(ids))
      ensures ok ==> ready[k] == 1
      ensures !ok ==> IsPath(graph, cycle) && stack + [k] <= cycle && ComesBack(cycle)
      decreases |Untouched(ready)|, 0
    {
      hide Settled, UnderWay, Extends, Acyclic, Tree, IdentityOf, IsPath, Untouched;
      MarkFacts(hs, graph, ready, ids, stack, k);
      ExtendsSelf(ready, ids);
      cycle := [];
      if ready[k] == 1 {
        return true, [];
      }
      if ready[k] < 0 {
        return false, stack + [k];
      }
      ghost var before, idsBefore := ready, ids;
      Marked(hs, graph, ready, ids, stack, k);
      ready := ready[k := -1];
      var id;
      ok, id, cycle := Identify(k, stack);
      if !ok {
        Abandoned(hs, graph, ready, ids, before, idsBefore, stack, k);
        ready := ready[k := 0];
        return;
      }
      Finalized(hs, graph, ready, ids, before, idsBefore, stack, k, id);
      ids := ids[k := id];
      ready := ready[k := 1];
    }

    /**
     * A finalization from outside. It fails exactly if a way up from the class comes back to a class it has passed, it
     * leaves no class under way, and the identity of a class depends on its tree alone.
     */
    method FinalizeClass(k: Id) returns (ok: bool)
      requires k in graph && Closed(graph) && Settled(hs, graph, ready, ids) && UnderWay(ready, [])
      modifies this
      ensures Settled(hs, graph, ready, ids) && UnderWay(ready, []) && Extends(ready, ids, old(ready), old(ids))
      ensures ok <==> forall p :: !Cycles(graph, k, p)
      ensures ok ==> ready[k] == 1 && Acyclic(graph, k) && ids[k] == IdentityOf(hs, Tree(graph, k))
    {
      hide UnderWay, Extends, Acyclic, Tree, IdentityOf, IsPath, Untouched;
      ghost var cycle;
      PathOfOne(graph, k);
      ok, cycle := Finalize(k, []);
      if ok {
        forall p ensures !Cycles(graph, k, p) {
          AcyclicNoCycle(graph, k, p);
        }
      } else {
        assert [] + [k] == [k];
        assert Cycles(graph, k, cycle);
      }
    }

    /** Finalizes what is above a class, and computes its identity. */
    method Identify(k: Id, ghost stack: seq<Id>) returns (ok: bool, id: string, ghost cycle: seq<Id>)
      requires k in graph && Closed(graph) && IsPath(graph, stack + [k])
      requires Settled(hs, graph, ready, ids) && UnderWay(ready, stack + [k])
      modifies this
      ensures Settled(hs, graph, ready, ids) && UnderWay(ready, stack + [k])
      ensures Extends(ready, ids, old(ready), old(ids))
      ensures !ok ==> IsPath(graph, cycle) && stack + [k] <= cycle && ComesBack(cycle)
      ensures ok ==> Acyclic(graph, k) && id == IdentityOf(hs, Tree(graph, k))
      decreases |Untouched(ready)|, 3
    {
      hide Settled, UnderWay, Extends, Acyclic, Tree, IdentityOf, IsPath, Untouched, Closed;
      hide Has, Above, Hashing.Head;
      ghost var start, idsStart := ready, ids;
      var c := graph[k];
      id := "";
      var parent, hash;
      ghost var above;
      ok, parent, cycle := FinalizePrototype(k, stack);
      if !ok {
        return;
      }
      FewerUntouched(ready, ids, start, idsStart);
      ghost var mid, idsMid := ready, ids;
      ok, hash, above, cycle := FinalizeInterfaces(k, stack, hs.number(hs.text(hs.Head(c.name, c.flags), parent), |c.interfaces|));
      ExtendsTwice(ready, ids, mid, idsMid, start, idsStart);
      if !ok {
        return;
      }
      if c.prototype.Some? {
        StillHas(ready, ids, mid, idsMid, c.prototype.value, parent);
      }
      hash := HashFields(hs.number(hash, |c.fields|), c.fields);
      id := hs.render(c.name, hash);
      IdentityAbove(hs, graph, ready, ids, k, parent, above);
    }

    method FinalizePrototype(k: Id, ghost stack: seq<Id>) returns (ok: bool, parent: string, ghost cycle: seq<Id>)
      requires k in graph && Closed(graph) && IsPath(graph, stack + [k])
      requires Settled(hs, graph, ready, ids) && UnderWay(ready, stack + [k])
      modifies this
      ensures Settled(hs, graph, ready, ids) && UnderWay(ready, stack + [k])
      ensures Extends(ready, ids, old(ready), old(ids))
      ensures !ok ==> IsPath(graph, cycle) && stack + [k] <= cycle && ComesBack(cycle)
      ensures ok && graph[k].prototype.Some? ==> Has(ready, ids, graph[k].prototype.value, parent)
      ensures ok && graph[k].prototype.None? ==> parent == ""
      decreases |Untouched(ready)|, 1
    {
      hide Settled, UnderWay, Extends, Acyclic, Tree, IdentityOf, IsPath, Untouched, Closed;
      ExtendsSelf(ready, ids);
      ok, parent, cycle := true, "", [];
      if graph[k].prototype.Some? {
        var p := graph[k].prototype.value;
        PathUp(graph, stack, k, p);
        ok, cycle := Finalize(p, stack + [k]);
        if ok {
          MarkFacts(hs, graph, ready, ids, stack + [k], p);
          parent := ids[p];
        }
      }
    }

    /** Hashes the identities of the interfaces in their order. */
    method FinalizeInterfaces(k: Id, ghost stack: seq<Id>, start: nat)
      returns (ok: bool, hash: nat, ghost above: seq<string>, ghost cycle: seq<Id>)
      requires k in graph && Closed(graph) && IsPath(graph, stack + [k])
      requires Settled(hs, graph, ready, ids) && UnderWay(ready, stack + [k])
      modifies this
      ensures Settled(hs, graph, ready, ids) && UnderWay(ready, stack + [k])
      ensures Extends(ready, ids, old(ready), old(ids))
      ensures !ok ==> IsPath(graph, cycle) && stack + [k] <= cycle && ComesBack(cycle)
      ensures ok ==> |above| == |graph[k].interfaces| && hash == hs.Texts(start, above)
      ensures ok ==> forall j :: 0 <= j < |above| ==> Has(ready, ids, graph[k].interfaces[j], above[j])
      decreases |Untouched(ready)|, 2
    {
      hide Settled, UnderWay, Extends, Acyclic, Tree, IdentityOf, IsPath, Untouched, Closed;
      ExtendsSelf(ready, ids);
      ghost var before, idsBefore := ready, ids;
      var interfaces := graph[k].interfaces;
      ok, hash, above, cycle := true, start, [], [];
      var i := 0;
      while i < |interfaces|
        invariant 0 <= i <= |interfaces| && |above| == i && ok
        invariant Settled(hs, graph, ready, ids) && UnderWay(ready, stack + [k]) && Extends(ready, ids, before, idsBefore)
        invariant forall j :: 0 <= j < i ==> Has(ready, ids, interfaces[j], above[j])
        invariant hash == hs.Texts(start, above)
      {
        var a := interfaces[i];
        PathUp(graph, stack, k, a);
        FewerUntouched(ready, ids, before, idsBefore);
        ghost var mid, idsMid := ready, ids;
        ok, cycle := Finalize(a, stack + [k]);
        ExtendsTwice(ready, ids, mid, idsMid, before, idsBefore);
        if !ok {
          return;
        }
        MarkFacts(hs, graph, ready, ids, stack + [k], a);
        HasExtended(ready, ids, mid, idsMid, interfaces, above, i);
        hash := hs.text(hash, ids[a]);
        above := above + [ids[a]];
        assert above[..i] == above[..|above| - 1];
        i := i + 1;
      }
    }

    method HashFields(start: nat, fields: seq<Field>) returns (hash: nat)
      ensures hash == hs.Fields(start, fields)
    {
      hash := start;
      var i := 0;
      while i < |fields|
        invariant 0 <= i <= |fields| && hash == hs.Fields(start, fields[..i])
      {
        var f := fields[i];
        hash := hs.number(hs.text(hs.text(hash, f.name), f.declaredType), f.access);
        i := i + 1;
        assert fields[..i][..i - 1] == fields[..i - 1];
      }
      assert fields[..i] == fields;
    }
  }

  ghost predicate Has(ready: Marks, ids: map<Id, string>, a: Id, id: string) {
    a in ready && ready[a] == 1 && a in ids && ids[a] == id
  }

  lemma StillHas(ready': Marks, ids': map<Id, string>, ready: Marks, ids: map<Id, string>, a: Id, id: string)
    requires Extends(ready', ids', ready, ids) && Has(ready, ids, a, id)
    ensures Has(ready', ids', a, id)
  {
  }

  lemma HasExtended(ready': Marks, ids': map<Id, string>, ready: Marks, ids: map<Id, string>,
                    classes: seq<Id>, above: seq<string>, i: nat)
    requires Extends(ready', ids', ready, ids) && i <= |classes| && i <= |above|
    requires forall j :: 0 <= j < i ==> Has(ready, ids, classes[j], above[j])
    ensures forall j :: 0 <= j < i ==> Has(ready', ids', classes[j], above[j])
  {
  }

  /** Whenever and in whatever order classes are finalized, a class ends up with the same identity. */
  lemma OrderOfFinalization(hs: Hashing, g: Graph, ready: Marks, ids: map<Id, string>, ready': Marks, ids': map<Id, string>, k: Id)
    requires Settled(hs, g, ready, ids) && Settled(hs, g, ready', ids')
    requires k in g && ready[k] == 1 && ready'[k] == 1
    ensures ids[k] == ids'[k]
  {
  }

  ghost predicate ComesBack(p: seq<Id>) { |p| > 1 && p[|p| - 1] in p[..|p| - 1] }

  lemma MarkFacts(hs: Hashing, g: Graph, ready: Marks, ids: map<Id, string>, stack: seq<Id>, k: Id)
    requires Settled(hs, g, ready, ids) && UnderWay(ready, stack) && k in g
    ensures ready.Keys == g.Keys && k in ready && (ready[k] == 0 || ready[k] == 1 || (ready[k] == -1 && k in stack))
    ensures ready[k] != -1 ==> k !in stack
    ensures ready[k] == 1 ==> k in ids
  {
  }

  // ----- clones -----

  ghost predicate Below(g: Graph, next: nat) { forall k :: k in g ==> k < next }

  /** The classes of g are all there, unchanged. */
  ghost predicate Enlarges(g': Graph, g: Graph) { forall k :: k in g ==> k in g' && g'[k] == g[k] }

  /** Equal parts make equal shapes. */
  lemma SameParts(g': Graph, k': Id, g: Graph, k: Id, n: nat)
    requires Within(g', k', n) && Within(g, k, n)
    requires g'[k'].name == g[k].name && g'[k'].flags == g[k].flags && g'[k'].fields == g[k].fields
    requires g'[k'].prototype.Some? == g[k].prototype.Some?
    requires g[k].prototype.Some? ==>
      && Within(g', g'[k'].prototype.value, n - 1) && Within(g, g[k].prototype.value, n - 1)
      && ShapeOf(g', g'[k'].prototype.value, n - 1) == ShapeOf(g, g[k].prototype.value, n - 1)
    requires |g'[k'].interfaces| == |g[k].interfaces|
    requires forall i :: 0 <= i < |g[k].interfaces| ==>
      && Within(g', g'[k'].interfaces[i], n - 1) && Within(g, g[k].interfaces[i], n - 1)
      && ShapeOf(g', g'[k'].interfaces[i], n - 1) == ShapeOf(g, g[k].interfaces[i], n - 1)
    ensures ShapeOf(g', k', n) == ShapeOf(g, k, n)
  {
    assert ShapeOf(g', k', n).interfaces == ShapeOf(g, k, n).interfaces;
  }

  lemma {:induction false} SameShape(g': Graph, g: Graph, k: Id, n: nat)
    requires Enlarges(g', g) && Within(g, k, n)
    ensures Within(g', k, n) && ShapeOf(g', k, n) == ShapeOf(g, k, n)
    decreases n
  {
    var c := g[k];
    forall a | a in Above(c) ensures Within(g', a, n - 1) && ShapeOf(g', a, n - 1) == ShapeOf(g, a, n - 1) {
      SameShape(g', g, a, n - 1);
    }
    assert forall i :: 0 <= i < |c.interfaces| ==> c.interfaces[i] in Above(c);
    assert c.prototype.Some? ==> c.prototype.value in Above(c);
    hide ShapeOf;
    SameParts(g', k, g, k, n);
  }

  /** Copies a class and everything above it into an arena; what is there already is used as it is. */
  ghost function Clone(g: Graph, k: Id, arena: nat, next: nat, n: nat): (r: (Graph, Id, nat))
    requires Within(g, k, n) && Below(g, next)
    ensures Enlarges(r.0, g) && Below(r.0, r.2) && next <= r.2
    ensures Within(r.0, r.1, n)
    decreases n, 0, 0
  {
    var c := g[k];
    if c.arena == arena then (g, k, next)
    else
      var (g1, p, next1) := CloneParent(g, k, arena, next, n);
      HeightsKept(g1, g, k, n, c.interfaces);
      var (g2, interfaces, next2) := CloneAll(g1, c.interfaces, arena, next1, n - 1);
      var copy := c.(prototype := p, interfaces := interfaces, arena := arena);
      var g3 := g2[next2 := copy];
      assert Within(g3, next2, n) by {
        assert Enlarges(g3, g2);
        forall a | a in Above(copy) ensures Within(g3, a, n - 1) {
          if copy.prototype == Some(a) {
            SameShape(g2, g1, a, n - 1);
          }
          SameShape(g3, g2, a, n - 1);
        }
      }
      (g3, next2, next2 + 1)
  }

  ghost function CloneParent(g: Graph, k: Id, arena: nat, next: nat, n: nat): (r: (Graph, Option<Id>, nat))
    requires Within(g, k, n) && Below(g, next)
    ensures Enlarges(r.0, g) && Below(r.0, r.2) && next <= r.2 && (r.1.Some? <==> g[k].prototype.Some?)
    ensures r.1.Some? ==> Within(r.0, r.1.value, n - 1)
    decreases n - 1, 2, 0
  {
    if g[k].prototype.None? then (g, None, next)
    else
      HeightAbove(g, k, n, g[k].prototype.value);
      var (h, q, m) := Clone(g, g[k].prototype.value, arena, next, n - 1);
      (h, Some(q), m)
  }

  ghost function CloneAll(g: Graph, ks: seq<Id>, arena: nat, next: nat, n: nat): (r: (Graph, seq<Id>, nat))
    requires (forall i :: 0 <= i < |ks| ==> Within(g, ks[i], n)) && Below(g, next)
    ensures Enlarges(r.0, g) && Below(r.0, r.2) && next <= r.2 && |r.1| == |ks|
    ensures forall i :: 0 <= i < |ks| ==> Within(r.0, r.1[i], n)
    decreases n, 1, |ks|
  {
    if ks == [] then (g, [], next)
    else
      var (g1, q, next1) := Clone(g, ks[0], arena, next, n);
      HeightsMore(g1, g, ks[1..], n);
      var (g2, qs, next2) := CloneAll(g1, ks[1..], arena, next1, n);
      SameShape(g2, g1, q, n);
      (g2, [q] + qs, next2)
  }

  lemma HeightsMore(g': Graph, g: Graph, ks: seq<Id>, n: nat)
    requires Enlarges(g', g) && forall i :: 0 <= i < |ks| ==> Within(g, ks[i], n)
    ensures forall i :: 0 <= i < |ks| ==> Within(g', ks[i], n)
  {
    forall i | 0 <= i < |ks| ensures Within(g', ks[i], n) {
      SameShape(g', g, ks[i], n);
    }
  }

  lemma HeightsKept(g': Graph, g: Graph, k: Id, n: nat, ks: seq<Id>)
    requires Enlarges(g', g) && Within(g, k, n) && ks == g[k].interfaces
    ensures n > 0 && forall i :: 0 <= i < |ks| ==> Within(g', ks[i], n - 1)
  {
    forall i | 0 <= i < |ks| ensures Within(g', ks[i], n - 1) {
      HeightAbove(g, k, n, ks[i]);
      SameShape(g', g, ks[i], n - 1);
    }
  }

  /** A copy whose parts have the shapes of the parts of its source has the shape of its source. */
  lemma CopyShape(g: Graph, g1: Graph, g2: Graph, k: Id, n: nat, p: Option<Id>, interfaces: seq<Id>, id: Id, arena: nat)
    requires Within(g, k, n) && Enlarges(g1, g) && Enlarges(g2, g1) && id !in g2
    requires p.Some? == g[k].prototype.Some?
    requires p.Some? ==>
      && Within(g, g[k].prototype.value, n - 1) && Within(g1, p.value, n - 1)
      && ShapeOf(g1, p.value, n - 1) == ShapeOf(g, g[k].prototype.value, n - 1)
    requires |interfaces| == |g[k].interfaces|
    requires forall i :: 0 <= i < |interfaces| ==>
      && Within(g1, g[k].interfaces[i], n - 1) && Within(g2, interfaces[i], n - 1)
      && ShapeOf(g2, interfaces[i], n - 1) == ShapeOf(g1, g[k].interfaces[i], n - 1)
    ensures
      var g3 := g2[id := g[k].(prototype := p, interfaces := interfaces, arena := arena)];
      Within(g3, id, n) && ShapeOf(g3, id, n) == ShapeOf(g, k, n)
  {
    var g3 := g2[id := g[k].(prototype := p, interfaces := interfaces, arena := arena)];
    hide ShapeOf;
    if p.Some? {
      SameShape(g3, g1, p.value, n - 1);
    }
    forall i | 0 <= i < |interfaces|
      ensures Within(g, g[k].interfaces[i], n - 1) && Within(g3, interfaces[i], n - 1)
      ensures ShapeOf(g3, interfaces[i], n - 1) == ShapeOf(g, g[k].interfaces[i], n - 1)
    {
      HeightAbove(g, k, n, g[k].interfaces[i]);
      SameShape(g3, g2, interfaces[i], n - 1);
      SameShape(g1, g, g[k].interfaces[i], n - 1);
    }
    assert forall a :: a in Above(g3[id]) ==> Within(g3, a, n - 1);
    SameParts(g3, id, g, k, n);
  }

  /** A clone has the shape of its source. */
  lemma {:induction false} CloneShape(g: Graph, k: Id, arena: nat, next: nat, n: nat)
    requires Within(g, k, n) && Below(g, next)
    ensures var r := Clone(g, k, arena, next, n); ShapeOf(r.0, r.1, n) == ShapeOf(g, k, n)
    decreases n, 0, 0
  {
    var c := g[k];
    if c.arena != arena {
      var (g1, p, next1) := CloneParent(g, k, arena, next, n);
      if c.prototype.Some? {
        HeightAbove(g, k, n, c.prototype.value);
        CloneShape(g, c.prototype.value, arena, next, n - 1);
      }
      HeightsKept(g1, g, k, n, c.interfaces);
      CloneShapes(g1, c.interfaces, arena, next1, n - 1);
      var (g2, interfaces, next2) := CloneAll(g1, c.interfaces, arena, next1, n - 1);
      assert Clone(g, k, arena, next, n).0 == g2[next2 := c.(prototype := p, interfaces := interfaces, arena := arena)];
      assert Clone(g, k, arena, next, n).1 == next2;
      hide Clone, CloneAll, ShapeOf, Within;
      CopyShape(g, g1, g2, k, n, p, interfaces, next2, arena);
    }
  }

  lemma {:induction false} CloneShapes(g: Graph, ks: seq<Id>, arena: nat, next: nat, n: nat)
    requires (forall i :: 0 <= i < |ks| ==> Within(g, ks[i], n)) && Below(g, next)
    ensures var r := CloneAll(g, ks, arena, next, n);
      forall i :: 0 <= i < |ks| ==> ShapeOf(r.0, r.1[i], n) == ShapeOf(g, ks[i], n)
    decreases n, 1, |ks|
  {
    if ks != [] {
      var (g1, q, next1) := Clone(g, ks[0], arena, next, n);
      CloneShape(g, ks[0], arena, next, n);
      HeightsMore(g1, g, ks[1..], n);
      CloneShapes(g1, ks[1..], arena, next1, n);
      var (g2, qs, next2) := CloneAll(g1, ks[1..], arena, next1, n);
      assert CloneAll(g, ks, arena, next, n) == (g2, [q] + qs, next2);
      hide Clone, CloneAll, ShapeOf;
      SameShape(g2, g1, q, n);
      forall i | 0 <= i < |ks| ensures ShapeOf(g2, ([q] + qs)[i], n) == ShapeOf(g, ks[i], n) {
        if i > 0 {
          assert ks[i] == ks[1..][i - 1] && ([q] + qs)[i] == qs[i - 1];
          SameShape(g1, g, ks[i], n);
        }
      }
    }
  }

  /** A clone is finalized under the identity of its source. */
  lemma CloneIdentity(hs: Hashing, g: Graph, k: Id, arena: nat, next: nat, n: nat)
    requires Within(g, k, n) && Below(g, next)
    ensures
      var (g', copy, _) := Clone(g, k, arena, next, n);
      && Acyclic(g', copy) && Acyclic(g, k)
      && IdentityOf(hs, Tree(g', copy)) == IdentityOf(hs, Tree(g, k))
  {
    var (g', copy, _) := Clone(g, k, arena, next, n);
    CloneShape(g, k, arena, next, n);
    hide Clone;
    TreeAt(g', copy, n);
    TreeAt(g, k, n);
  }
}
