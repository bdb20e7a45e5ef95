// Abstract methods: which obligations a class definition leaves open, and what a class
// without open obligations is guaranteed to provide.

module AbstractMethods {
  import opened Options

  /** A declared parameter type, by what it resolves to: a class, or just a name. */
  datatype TypeToken = ClassToken(id: nat) | NameToken(name: string)

  datatype Signature = Signature(name: string, isStatic: bool, params: seq<Option<TypeToken>>)

  /** Every parameter has a declared type, and there is at least one. */
  predicate FullyTyped(s: Signature) { s.params != [] && forall i :: 0 <= i < |s.params| ==> s.params[i].Some? }

  /** A candidate meets a requirement: a typed requirement asks for the same types, any other one for the arity. */
  predicate Meets(candidate: Signature, requirement: Signature) {
    && requirement.name == candidate.name
    && requirement.isStatic == candidate.isStatic
    && |requirement.params| == |candidate.params|
    && (FullyTyped(requirement) ==> FullyTyped(candidate) && requirement.params == candidate.params)
  }

  // ----- method tables -----

  datatype MethodKey = Plain(name: string) | Arity(name: string, argc: nat) | Typed(name: string, params: seq<Option<TypeToken>>)

  type Table = map<MethodKey, Signature>

  function SpecificKey(s: Signature): MethodKey {
    if FullyTyped(s) then Typed(s.name, s.params) else Arity(s.name, |s.params|)
  }

  /** A method is entered under its name and under its arity or its types; earlier entries are replaced. */
  function Enter(t: Table, s: Signature): Table { t[Plain(s.name) := s][SpecificKey(s) := s] }

  ghost predicate TableMeets(t: Table, requirement: Signature) {
    exists k :: k in t && Meets(t[k], requirement)
  }

  ghost predicate Keyed(t: Table, isStatic: bool) {
    forall k :: k in t ==> t[k].isStatic == isStatic && (k.Plain? || k == SpecificKey(t[k])) && SpecificKey(t[k]) in t
  }

  lemma EnterKeyed(t: Table, s: Signature, isStatic: bool)
    requires Keyed(t, isStatic) && s.isStatic == isStatic
    ensures Keyed(Enter(t, s), isStatic)
  {
    hide SpecificKey;
    var after := Enter(t, s);
    assert s == after[SpecificKey(s)];
    forall k | k in after
      ensures after[k].isStatic == isStatic && (k.Plain? || k == SpecificKey(after[k])) && SpecificKey(after[k]) in after
    {
      assert after[k] == s || (k in t && after[k] == t[k]);
    }
  }

  lemma EnterKeeps(t: Table, s: Signature, isStatic: bool, r: Signature)
    requires Keyed(t, isStatic) && s.isStatic == isStatic && TableMeets(t, r)
    ensures TableMeets(Enter(t, s), r)
  {
    hide Meets, SpecificKey;
    var k :| k in t && Meets(t[k], r);
    var j := SpecificKey(t[k]);
    if j == SpecificKey(s) {
      SameKeySameMeets(t[k], s, r);
      assert Enter(t, s)[j] == s;
    } else {
      SpecificStays(t, s, isStatic, k, r);
    }
  }

  /** Replacing entries loses nothing: a table meets what it met before, and what the new method meets. */
  lemma EnterMeets(t: Table, s: Signature, isStatic: bool, r: Signature)
    requires Keyed(t, isStatic) && s.isStatic == isStatic
    ensures TableMeets(Enter(t, s), r) <==> TableMeets(t, r) || Meets(s, r)
  {
    hide Meets, SpecificKey, Keyed;
    if TableMeets(t, r) {
      EnterKeeps(t, s, isStatic, r);
    }
    var after := Enter(t, s);
    if Meets(s, r) {
      assert SpecificKey(s) in after && after[SpecificKey(s)] == s;
    }
    if TableMeets(after, r) && !Meets(s, r) {
      var k :| k in after && Meets(after[k], r);
      assert k in t && t[k] == after[k];
    }
  }

  lemma SameKeySameMeets(a: Signature, b: Signature, r: Signature)
    requires SpecificKey(a) == SpecificKey(b) && a.isStatic == b.isStatic
    ensures Meets(a, r) == Meets(b, r)
  {
  }

  lemma SpecificStays(t: Table, s: Signature, isStatic: bool, k: MethodKey, r: Signature)
    requires Keyed(t, isStatic) && s.isStatic == isStatic && k in t && Meets(t[k], r) && SpecificKey(t[k]) != SpecificKey(s)
    ensures TableMeets(Enter(t, s), r)
  {
    var j := SpecificKey(t[k]);
    assert j in t && !j.Plain?;
    SameKeySameMeets(t[j], t[k], r);
    hide Meets, SpecificKey, Keyed;
    assert Enter(t, s)[j] == t[j];
  }

  // ----- open obligations -----

  /** Obligations are told apart by name, arity, types and whether they are static. */
  datatype AbstractKey = AbstractKey(isStatic: bool, name: string, argc: nat, types: seq<Option<TypeToken>>)

  function KeyOf(s: Signature): AbstractKey {
    AbstractKey(s.isStatic, s.name, |s.params|, if FullyTyped(s) then s.params else [])
  }

  type Obligations = map<AbstractKey, Signature>

  /** Requirements with the same key are met by the same methods. */
  lemma SameObligation(r: Signature, q: Signature, s: Signature)
    requires KeyOf(r) == KeyOf(q)
    ensures Meets(s, r) == Meets(s, q)
  {
  }

  // ----- class definitions -----

  datatype Member = Member(isAbstract: bool, signature: Signature)

  datatype Definition = Definition(isAbstract: bool, isInterface: bool, isFinal: bool, parent: Option<nat>,
                                   interfaces: seq<nat>, members: seq<Member>)

  /** What the grammar lets an interface be: without a parent class, abstract, and with abstract members only. */
  ghost predicate WellFormed(d: Definition) {
    d.isInterface ==> d.parent.None? && d.isAbstract && forall m :: m in d.members ==> m.isAbstract
  }

  /** A registered class: how it was defined, and the tables built from that. Ids are positions in the registry. */
  datatype Class = Class(definition: Definition, isAbstract: bool, methods: Table, statics: Table, open: Obligations)

  ghost predicate OwnMeets(methods: Table, statics: Table, r: Signature) {
    TableMeets(if r.isStatic then statics else methods, r)
  }

  /** A class can only refer to classes registered before it. */
  ghost predicate Ordered(cs: seq<Class>) {
    forall k {:trigger cs[k]} :: 0 <= k < |cs| ==> RefersBack(cs[k].definition, k)
  }

  ghost predicate RefersBack(d: Definition, k: nat) {
    (d.parent.Some? ==> d.parent.value < k) && forall i :: 0 <= i < |d.interfaces| ==> d.interfaces[i] < k
  }

  /** A concrete method on the class or on its prototype chain meets the requirement. */
  ghost predicate ChainMeets(cs: seq<Class>, k: nat, r: Signature)
    requires Ordered(cs)
    decreases k
  {
    && k < |cs|
    && (|| OwnMeets(cs[k].methods, cs[k].statics, r)
        || (cs[k].definition.parent.Some? && ChainMeets(cs, cs[k].definition.parent.value, r)))
  }

  ghost predicate Declares(members: seq<Member>, r: Signature) {
    exists m :: m in members && m.isAbstract && KeyOf(m.signature) == KeyOf(r)
  }

  ghost predicate Implements(members: seq<Member>, r: Signature) {
    exists m :: m in members && !m.isAbstract && Meets(m.signature, r)
  }

  /** The abstract signatures declared on a class or on anything above it. */
  ghost predicate Owes(cs: seq<Class>, k: nat, r: Signature)
    requires Ordered(cs)
    decreases k
  {
    && k < |cs|
    && (|| Declares(cs[k].definition.members, r)
        || (cs[k].definition.parent.Some? && Owes(cs, cs[k].definition.parent.value, r))
        || (exists i :: 0 <= i < |cs[k].definition.interfaces| && Owes(cs, cs[k].definition.interfaces[i], r)))
  }

  /** The obligations a class leaves open: its own and its parent's that it has no method for, its interfaces' that its chain has none for. */
  ghost predicate Open(cs: seq<Class>, k: nat, r: Signature)
    requires Ordered(cs)
    decreases k
  {
    && k < |cs|
    && (|| (Declares(cs[k].definition.members, r) && !OwnMeets(cs[k].methods, cs[k].statics, r))
        || (cs[k].definition.parent.Some? && Open(cs, cs[k].definition.parent.value, r) &&
            !OwnMeets(cs[k].methods, cs[k].statics, r))
        || (!ChainMeets(cs, k, r) &&
            exists i :: 0 <= i < |cs[k].definition.interfaces| && Open(cs, cs[k].definition.interfaces[i], r)))
  }

  // ----- building the tables of a class -----

  ghost predicate WellKeyed(open: Obligations) { forall k :: k in open ==> KeyOf(open[k]) == k }

  /** The tables after these members, whatever their order. */
  ghost predicate Built(members: seq<Member>, methods: Table, statics: Table, open: Obligations) {
    && Keyed(methods, false) && Keyed(statics, true) && WellKeyed(open)
    && (forall r {:trigger Implements(members, r)} :: OwnMeets(methods, statics, r) <==> Implements(members, r))
    && (forall r {:trigger Declares(members, r)} :: KeyOf(r) in open <==> Declares(members, r) && !Implements(members, r))
  }

  function WithoutMet(open: Obligations, s: Signature): Obligations {
    map k | k in open && !Meets(s, open[k]) :: open[k]
  }

  lemma OneMore(members: seq<Member>, m: Member, r: Signature)
    ensures Implements(members + [m], r) <==> Implements(members, r) || (!m.isAbstract && Meets(m.signature, r))
    ensures Declares(members + [m], r) <==> Declares(members, r) || (m.isAbstract && KeyOf(m.signature) == KeyOf(r))
  {
    hide Meets, KeyOf;
    assert m in members + [m];
    assert forall x :: x in members + [m] <==> x in members || x == m;
  }

  lemma BuiltMethod(members: seq<Member>, m: Member, methods: Table, statics: Table, open: Obligations)
    requires Built(members, methods, statics, open) && !m.isAbstract
    ensures
      var s := m.signature;
      Built(members + [m], if s.isStatic then methods else Enter(methods, s), if s.isStatic then Enter(statics, s) else statics,
            WithoutMet(open, s))
  {
    hide Implements, Declares, Enter, Keyed, TableMeets;
    var s := m.signature;
    var methods', statics' := if s.isStatic then methods else Enter(methods, s), if s.isStatic then Enter(statics, s) else statics;
    if s.isStatic {
      EnterKeyed(statics, s, true);
    } else {
      EnterKeyed(methods, s, false);
    }
    forall r ensures OwnMeets(methods', statics', r) <==> Implements(members + [m], r) {
      OneMore(members, m, r);
      EnterOwn(methods, statics, s, r);
    }
    forall r ensures KeyOf(r) in WithoutMet(open, s) <==> Declares(members + [m], r) && !Implements(members + [m], r) {
      OneMore(members, m, r);
      if KeyOf(r) in open {
        SameObligation(r, open[KeyOf(r)], s);
      }
    }
  }

  lemma EnterOwn(methods: Table, statics: Table, s: Signature, r: Signature)
    requires Keyed(methods, false) && Keyed(statics, true)
    ensures OwnMeets(if s.isStatic then methods else Enter(methods, s), if s.isStatic then Enter(statics, s) else statics, r) <==>
      OwnMeets(methods, statics, r) || Meets(s, r)
  {
    hide Keyed, Enter, TableMeets;
    if s.isStatic {
      EnterMeets(statics, s, true, r);
    } else {
      EnterMeets(methods, s, false, r);
    }
  }

  lemma BuiltAbstract(members: seq<Member>, m: Member, methods: Table, statics: Table, open: Obligations)
    requires Built(members, methods, statics, open) && m.isAbstract
    ensures
      var s := m.signature;
      Built(members + [m], methods, statics,
            if OwnMeets(methods, statics, s) || KeyOf(s) in open then open else open[KeyOf(s) := s])
  {
    hide Implements, Declares, Enter, Keyed, TableMeets, OwnMeets;
    var s := m.signature;
    var open' := if OwnMeets(methods, statics, s) || KeyOf(s) in open then open else open[KeyOf(s) := s];
    forall r ensures OwnMeets(methods, statics, r) <==> Implements(members + [m], r) {
      OneMore(members, m, r);
    }
    forall r ensures KeyOf(r) in open' <==> Declares(members + [m], r) && !Implements(members + [m], r) {
      OneMore(members, m, r);
      assert KeyOf(r) in open <==> Declares(members, r) && !Implements(members, r);
      assert OwnMeets(methods, statics, s) <==> Implements(members, s);
      if KeyOf(r) == KeyOf(s) {
        ImplementsSame(members, r, s);
      }
    }
  }

  lemma ImplementsSame(members: seq<Member>, r: Signature, q: Signature)
    requires KeyOf(r) == KeyOf(q)
    ensures Implements(members, r) == Implements(members, q)
  {
    hide Meets, KeyOf;
    forall m | m in members ensures Meets(m.signature, r) == Meets(m.signature, q) {
      SameObligation(r, q, m.signature);
    }
  }

  // ----- classes in a registry -----

  /** What is known of a registered class. */
  ghost predicate Right(cs: seq<Class>, k: nat)
    requires Ordered(cs) && k < |cs|
  {
    var c := cs[k];
    && WellKeyed(c.open)
    && WellFormed(c.definition)
    && (c.isAbstract <==> c.definition.isAbstract || c.definition.isInterface || c.open != map[])
    && (forall r {:trigger Implements(c.definition.members, r)} ::
          OwnMeets(c.methods, c.statics, r) <==> Implements(c.definition.members, r))
    && (forall r {:trigger Open(cs, k, r)} :: KeyOf(r) in c.open <==> Open(cs, k, r))
    && (forall i :: 0 <= i < |c.definition.interfaces| ==> cs[c.definition.interfaces[i]].definition.isInterface)
  }

  ghost predicate AllRight(cs: seq<Class>) { Ordered(cs) && forall k :: 0 <= k < |cs| ==> Right(cs, k) }

  /** A method of the class under definition or, with a parent given, of its chain meets the requirement. */
  ghost predicate MeetsVia(cs: seq<Class>, methods: Table, statics: Table, parent: Option<nat>, r: Signature)
    requires Ordered(cs)
  {
    OwnMeets(methods, statics, r) || (parent.Some? && ChainMeets(cs, parent.value, r))
  }

  lemma {:induction false} ChainMeetsSame(cs: seq<Class>, k: nat, r: Signature, q: Signature)
    requires Ordered(cs) && KeyOf(r) == KeyOf(q)
    ensures ChainMeets(cs, k, r) == ChainMeets(cs, k, q)
    decreases k
  {
    if k < |cs| {
      OwnMeetsSame(cs[k].methods, cs[k].statics, r, q);
      if cs[k].definition.parent.Some? {
        ChainMeetsSame(cs, cs[k].definition.parent.value, r, q);
      }
    }
  }

  lemma OwnMeetsSame(methods: Table, statics: Table, r: Signature, q: Signature)
    requires KeyOf(r) == KeyOf(q)
    ensures OwnMeets(methods, statics, r) == OwnMeets(methods, statics, q)
  {
    hide Meets;
    var t := if r.isStatic then statics else methods;
    forall k | k in t ensures Meets(t[k], r) == Meets(t[k], q) {
      SameObligation(r, q, t[k]);
    }
  }

  lemma MeetsViaSame(cs: seq<Class>, methods: Table, statics: Table, parent: Option<nat>, r: Signature, q: Signature)
    requires Ordered(cs) && KeyOf(r) == KeyOf(q)
    ensures MeetsVia(cs, methods, statics, parent, r) == MeetsVia(cs, methods, statics, parent, q)
  {
    hide OwnMeets, ChainMeets, KeyOf;
    OwnMeetsSame(methods, statics, r, q);
    if parent.Some? {
      ChainMeetsSame(cs, parent.value, r, q);
    }
  }

  class Registry {
    var classes: seq<Class>

    ghost predicate Valid()
      reads this
    {
      AllRight(classes)
    }

    constructor ()
      ensures Valid() && classes == []
    {
      classes := [];
    }

    static method TableHas(t: Table, r: Signature) returns (has: bool)
      ensures has <==> TableMeets(t, r)
    {
      hide Meets;
      var keys := t.Keys;
      while keys != {}
        invariant keys <= t.Keys && forall k :: k in t && k !in keys ==> !Meets(t[k], r)
        decreases |keys|
      {
        var k :| k in keys;
        if Meets(t[k], r) {
          return true;
        }
        keys := keys - {k};
      }
      return false;
    }

    method OwnHas(methods: Table, statics: Table, r: Signature) returns (has: bool)
      ensures has <==> OwnMeets(methods, statics, r)
    {
      has := TableHas(if r.isStatic then statics else methods, r);
    }

    /** Walks the prototype chain. */
    method ChainHas(methods: Table, statics: Table, parent: Option<nat>, r: Signature) returns (has: bool)
      requires Ordered(classes) && (parent.Some? ==> parent.value < |classes|)
      ensures has <==> MeetsVia(classes, methods, statics, parent, r)
    {
      hide OwnMeets;
      has := OwnHas(methods, statics, r);
      var current := parent;
      while !has && current.Some?
        invariant current.Some? ==> current.value < |classes|
        invariant MeetsVia(classes, methods, statics, parent, r) <==>
          has || (current.Some? && ChainMeets(classes, current.value, r))
        decreases if current.Some? then current.value + 1 else 0
      {
        var c := classes[current.value];
        has := OwnHas(c.methods, c.statics, r);
        current := c.definition.parent;
      }
    }

    /** Takes over the obligations nothing meets yet. */
    method AddUnmet(source: Obligations, methods: Table, statics: Table, parent: Option<nat>, open: Obligations)
      returns (more: Obligations)
      requires Ordered(classes) && (parent.Some? ==> parent.value < |classes|) && WellKeyed(source) && WellKeyed(open)
      ensures WellKeyed(more)
      ensures forall r :: KeyOf(r) in more <==>
        KeyOf(r) in open || (KeyOf(r) in source && !MeetsVia(classes, methods, statics, parent, r))
    {
      hide MeetsVia, KeyOf;
      more := open;
      var keys := source.Keys;
      while keys != {}
        invariant keys <= source.Keys && WellKeyed(more)
        invariant forall r :: KeyOf(r) in more <==>
          KeyOf(r) in open ||
          (KeyOf(r) in source && KeyOf(r) !in keys && !MeetsVia(classes, methods, statics, parent, r))
        decreases |keys|
      {
        var k :| k in keys;
        var q := source[k];
        var met := ChainHas(methods, statics, parent, q);
        forall r | KeyOf(r) == k
          ensures MeetsVia(classes, methods, statics, parent, r) == MeetsVia(classes, methods, statics, parent, q)
        {
          MeetsViaSame(classes, methods, statics, parent, r, q);
        }
        if !met && k !in more {
          more := more[k := q];
        }
        keys := keys - {k};
      }
    }

    /** The members of a definition, in the order they are written. */
    method AddMembers(members: seq<Member>) returns (methods: Table, statics: Table, open: Obligations)
      ensures Built(members, methods, statics, open)
    {
      hide Implements, Declares, Enter, KeyOf;
      methods, statics, open := map[], map[], map[];
      BuiltNothing();
      var i := 0;
      while i < |members|
        invariant 0 <= i <= |members| && Built(members[..i], methods, statics, open)
      {
        hide Built, TableMeets, Meets;
        var m := members[i];
        var s := m.signature;
        assert members[..i + 1] == members[..i] + [m];
        if m.isAbstract {
          BuiltAbstract(members[..i], m, methods, statics, open);
          var has := OwnHas(methods, statics, s);
          if !has && KeyOf(s) !in open {
            open := open[KeyOf(s) := s];
          }
        } else {
          BuiltMethod(members[..i], m, methods, statics, open);
          open := WithoutMet(open, s);
          if s.isStatic {
            statics := Enter(statics, s);
          } else {
            methods := Enter(methods, s);
          }
        }
        i := i + 1;
      }
      assert members[..i] == members;
    }

    /**
     * Evaluates a class definition. It fails, and registers nothing, if the parent is unknown or final or an interface
     * is unknown or not an interface.
     */
    method Define(d: Definition) returns (ok: bool)
      requires Valid() && WellFormed(d)
      modifies this
      ensures Valid()
      ensures ok <==>
        && (d.parent.Some? ==> d.parent.value < |old(classes)| && !old(classes)[d.parent.value].definition.isFinal)
        && (forall i :: 0 <= i < |d.interfaces| ==>
              d.interfaces[i] < |old(classes)| && old(classes)[d.interfaces[i]].definition.isInterface)
      ensures !ok ==> classes == old(classes)
      ensures ok ==> |classes| == |old(classes)| + 1 && old(classes) == classes[..|old(classes)|]
      ensures ok ==>
        var c := classes[|old(classes)|];
        c.definition == d && (c.isAbstract <==> d.isAbstract || c.open != map[])
    {
      hide Open, Built, KeyOf, Implements, Declares, OwnMeets, MeetsVia, WellKeyed;
      var cs := classes;
      if d.parent.Some? && (d.parent.value >= |cs| || cs[d.parent.value].definition.isFinal) {
        return false;
      }
      var methods, statics, open := AddMembers(d.members);
      BuiltFacts(d.members, methods, statics, open);
      var i := 0;
      while i < |d.interfaces|
        invariant 0 <= i <= |d.interfaces| && classes == cs && WellKeyed(open)
        invariant forall j :: 0 <= j < i ==> d.interfaces[j] < |cs| && cs[d.interfaces[j]].definition.isInterface
        invariant forall r :: KeyOf(r) in open <==> Pending(cs, d, methods, statics, i, r)
      {
        if d.interfaces[i] >= |cs| || !cs[d.interfaces[i]].definition.isInterface {
          return false;
        }
        var source := cs[d.interfaces[i]];
        ghost var before := open;
        OpenKeys(cs, d.interfaces[i]);
        open := AddUnmet(source.open, methods, statics, d.parent, open);
        forall r ensures KeyOf(r) in open <==> Pending(cs, d, methods, statics, i + 1, r) {
          PendingNext(cs, d, methods, statics, i, r);
        }
        i := i + 1;
      }
      if d.parent.Some? {
        OpenKeys(cs, d.parent.value);
        open := AddUnmet(cs[d.parent.value].open, methods, statics, None, open);
        NoChain(cs, methods, statics);
      }
      var c := Class(d, d.isAbstract || d.isInterface || open != map[], methods, statics, open);
      Registered(cs, c);
      classes := cs + [c];
      return true;
    }
  }

  predicate Acceptable(cs: seq<Class>, d: Definition) {
    && (d.parent.Some? ==> d.parent.value < |cs| && !cs[d.parent.value].definition.isFinal)
    && forall i :: 0 <= i < |d.interfaces| ==> d.interfaces[i] < |cs| && cs[d.interfaces[i]].definition.isInterface
  }

  /** The obligations open after the members and the first n interfaces. */
  ghost predicate Pending(cs: seq<Class>, d: Definition, methods: Table, statics: Table, n: nat, r: Signature)
    requires Ordered(cs) && n <= |d.interfaces|
  {
    || (Declares(d.members, r) && !OwnMeets(methods, statics, r))
    || (!MeetsVia(cs, methods, statics, d.parent, r) && exists i :: 0 <= i < n && Open(cs, d.interfaces[i], r))
  }

  lemma PendingNext(cs: seq<Class>, d: Definition, methods: Table, statics: Table, n: nat, r: Signature)
    requires Ordered(cs) && n < |d.interfaces|
    ensures Pending(cs, d, methods, statics, n + 1, r) <==>
      Pending(cs, d, methods, statics, n, r) ||
      (!MeetsVia(cs, methods, statics, d.parent, r) && Open(cs, d.interfaces[n], r))
  {
    hide Open, MeetsVia, OwnMeets, Declares;
  }

  lemma BuiltFacts(members: seq<Member>, methods: Table, statics: Table, open: Obligations)
    requires Built(members, methods, statics, open)
    ensures WellKeyed(open)
    ensures forall r {:trigger Implements(members, r)} :: OwnMeets(methods, statics, r) <==> Implements(members, r)
    ensures forall r {:trigger KeyOf(r)} :: KeyOf(r) in open <==> Declares(members, r) && !OwnMeets(methods, statics, r)
  {
    hide KeyOf, OwnMeets, WellKeyed, Keyed, Declares, Implements;
    forall r ensures KeyOf(r) in open <==> Declares(members, r) && !OwnMeets(methods, statics, r) {
      assert OwnMeets(methods, statics, r) <==> Implements(members, r);
    }
  }

  lemma OpenKeys(cs: seq<Class>, k: nat)
    requires AllRight(cs) && k < |cs|
    ensures WellKeyed(cs[k].open)
    ensures forall r {:trigger KeyOf(r)} :: KeyOf(r) in cs[k].open <==> Open(cs, k, r)
  {
    hide Open, KeyOf, OwnMeets, Implements;
    assert Right(cs, k);
  }

  lemma NoChain(cs: seq<Class>, methods: Table, statics: Table)
    requires Ordered(cs)
    ensures forall r {:trigger MeetsVia(cs, methods, statics, None, r)} ::
      MeetsVia(cs, methods, statics, None, r) == OwnMeets(methods, statics, r)
  {
  }

  // ----- the registry grows -----

  lemma {:induction false} ChainMeetsKept(cs: seq<Class>, c: Class, k: nat, r: Signature)
    requires Ordered(cs) && Ordered(cs + [c]) && k < |cs|
    ensures ChainMeets(cs + [c], k, r) == ChainMeets(cs, k, r)
    decreases k
  {
    hide OwnMeets;
    assert (cs + [c])[k] == cs[k];
    if cs[k].definition.parent.Some? {
      ChainMeetsKept(cs, c, cs[k].definition.parent.value, r);
    }
  }

  lemma {:induction false} OpenKept(cs: seq<Class>, c: Class, k: nat, r: Signature)
    requires Ordered(cs) && Ordered(cs + [c]) && k < |cs|
    ensures Open(cs + [c], k, r) == Open(cs, k, r)
    decreases k
  {
    hide OwnMeets, Declares, ChainMeets;
    assert (cs + [c])[k] == cs[k];
    ChainMeetsKept(cs, c, k, r);
    if cs[k].definition.parent.Some? {
      OpenKept(cs, c, cs[k].definition.parent.value, r);
    }
    forall i | 0 <= i < |cs[k].definition.interfaces|
      ensures Open(cs + [c], cs[k].definition.interfaces[i], r) == Open(cs, cs[k].definition.interfaces[i], r)
    {
      OpenKept(cs, c, cs[k].definition.interfaces[i], r);
    }
  }

  lemma OrderedMore(cs: seq<Class>, c: Class)
    requires Ordered(cs) && RefersBack(c.definition, |cs|)
    ensures Ordered(cs + [c])
  {
  }

  lemma RightKept(cs: seq<Class>, c: Class, k: nat)
    requires AllRight(cs) && Ordered(cs + [c]) && k < |cs|
    ensures Right(cs + [c], k)
  {
    hide Open, KeyOf, OwnMeets, Implements, WellKeyed;
    assert Right(cs, k) && (cs + [c])[k] == cs[k];
    forall r ensures Open(cs + [c], k, r) == Open(cs, k, r) {
      OpenKept(cs, c, k, r);
    }
    assert RefersBack(cs[k].definition, k);
  }

  /** The class under definition joins the others. */
  lemma Registered(cs: seq<Class>, c: Class)
    requires AllRight(cs) && Acceptable(cs, c.definition) && WellFormed(c.definition) && WellKeyed(c.open)
    requires c.isAbstract <==> c.definition.isAbstract || c.definition.isInterface || c.open != map[]
    requires forall r {:trigger Implements(c.definition.members, r)} ::
      OwnMeets(c.methods, c.statics, r) <==> Implements(c.definition.members, r)
    requires forall r {:trigger KeyOf(r)} :: KeyOf(r) in c.open <==>
      || Pending(cs, c.definition, c.methods, c.statics, |c.definition.interfaces|, r)
      || (c.definition.parent.Some? && Open(cs, c.definition.parent.value, r) && !OwnMeets(c.methods, c.statics, r))
    ensures AllRight(cs + [c])
  {
    hide Open, KeyOf, OwnMeets, Implements, WellKeyed, Right, Pending;
    OrderedMore(cs, c);
    forall k | 0 <= k < |cs| ensures Right(cs + [c], k) {
      RightKept(cs, c, k);
    }
    RightNew(cs, c);
  }

  lemma RightNew(cs: seq<Class>, c: Class)
    requires AllRight(cs) && Acceptable(cs, c.definition) && WellFormed(c.definition) && WellKeyed(c.open) && Ordered(cs + [c])
    requires c.isAbstract <==> c.definition.isAbstract || c.definition.isInterface || c.open != map[]
    requires forall r {:trigger Implements(c.definition.members, r)} ::
      OwnMeets(c.methods, c.statics, r) <==> Implements(c.definition.members, r)
    requires forall r {:trigger KeyOf(r)} :: KeyOf(r) in c.open <==>
      || Pending(cs, c.definition, c.methods, c.statics, |c.definition.interfaces|, r)
      || (c.definition.parent.Some? && Open(cs, c.definition.parent.value, r) && !OwnMeets(c.methods, c.statics, r))
    ensures Right(cs + [c], |cs|)
  {
    hide Open, KeyOf, OwnMeets, Implements, WellKeyed, Pending;
    forall r ensures KeyOf(r) in c.open <==> Open(cs + [c], |cs|, r) {
      OpenNew(cs, c, r);
    }
  }

  lemma OpenNew(cs: seq<Class>, c: Class, r: Signature)
    requires AllRight(cs) && Acceptable(cs, c.definition) && Ordered(cs + [c])
    ensures Open(cs + [c], |cs|, r) <==>
      || Pending(cs, c.definition, c.methods, c.statics, |c.definition.interfaces|, r)
      || (c.definition.parent.Some? && Open(cs, c.definition.parent.value, r) && !OwnMeets(c.methods, c.statics, r))
  {
    hide OwnMeets, Declares, Right;
    var all := cs + [c];
    assert all[|cs|] == c;
    if c.definition.parent.Some? {
      OpenKept(cs, c, c.definition.parent.value, r);
      ChainMeetsKept(cs, c, c.definition.parent.value, r);
    }
    forall i | 0 <= i < |c.definition.interfaces|
      ensures Open(all, c.definition.interfaces[i], r) == Open(cs, c.definition.interfaces[i], r)
    {
      OpenKept(cs, c, c.definition.interfaces[i], r);
    }
  }

  // ----- what a class without open obligations provides -----

  /** An interface has nothing on its chain: no parent, and no method of its own. */
  lemma InterfaceMeetsNothing(cs: seq<Class>, k: nat, r: Signature)
    requires AllRight(cs) && k < |cs| && cs[k].definition.isInterface
    ensures !ChainMeets(cs, k, r)
  {
    hide OwnMeets, Open;
    assert Right(cs, k);
    assert !Implements(cs[k].definition.members, r);
  }

  /** Whatever a class owes is still open or is met by its chain. */
  lemma {:induction false} OwedIsAccounted(cs: seq<Class>, k: nat, r: Signature)
    requires AllRight(cs) && Owes(cs, k, r)
    ensures Open(cs, k, r) || ChainMeets(cs, k, r)
    decreases k
  {
    hide OwnMeets, Declares;
    var d := cs[k].definition;
    if d.parent.Some? && Owes(cs, d.parent.value, r) {
      OwedIsAccounted(cs, d.parent.value, r);
    } else if !Declares(d.members, r) {
      var i :| 0 <= i < |d.interfaces| && Owes(cs, d.interfaces[i], r);
      assert Right(cs, k) && cs[d.interfaces[i]].definition.isInterface;
      OwedIsAccounted(cs, d.interfaces[i], r);
      InterfaceMeetsNothing(cs, d.interfaces[i], r);
    }
  }

  /** Only what a class owes can be open, and only if the class itself has no method for it. */
  lemma {:induction false} OpenIsOwed(cs: seq<Class>, k: nat, r: Signature)
    requires AllRight(cs) && Open(cs, k, r)
    ensures Owes(cs, k, r) && !OwnMeets(cs[k].methods, cs[k].statics, r)
    decreases k
  {
    hide OwnMeets, Declares;
    var d := cs[k].definition;
    if d.parent.Some? && Open(cs, d.parent.value, r) && !OwnMeets(cs[k].methods, cs[k].statics, r) {
      OpenIsOwed(cs, d.parent.value, r);
    } else if !Declares(d.members, r) || OwnMeets(cs[k].methods, cs[k].statics, r) {
      var i :| 0 <= i < |d.interfaces| && Open(cs, d.interfaces[i], r);
      OpenIsOwed(cs, d.interfaces[i], r);
    }
  }

  /** Class j is class k or one of its ancestors along the prototype chain. */
  ghost predicate OnChain(cs: seq<Class>, k: nat, j: nat)
    requires Ordered(cs)
    decreases k
  {
    k < |cs| && (j == k || (cs[k].definition.parent.Some? && OnChain(cs, cs[k].definition.parent.value, j)))
  }

  /** Class a is class k or stands anywhere above it, along parents and interfaces. */
  ghost predicate StandsAbove(cs: seq<Class>, k: nat, a: nat)
    requires Ordered(cs)
    decreases k
  {
    && k < |cs|
    && (|| a == k
        || (cs[k].definition.parent.Some? && StandsAbove(cs, cs[k].definition.parent.value, a))
        || (exists i :: 0 <= i < |cs[k].definition.interfaces| && StandsAbove(cs, cs[k].definition.interfaces[i], a)))
  }

  /** What it takes to meet a requirement, in terms of the two signatures alone. */
  lemma MeetsExactly(s: Signature, r: Signature)
    ensures Meets(s, r) <==>
      && s.name == r.name && s.isStatic == r.isStatic && |s.params| == |r.params|
      && ((forall i :: 0 <= i < |r.params| ==> r.params[i].Some?) ==> s.params == r.params)
  {
  }

  /** A requirement met along the chain is met by a concrete member declared there. */
  lemma {:induction false} ChainMember(cs: seq<Class>, k: nat, r: Signature) returns (j: nat, m: Member)
    requires AllRight(cs) && ChainMeets(cs, k, r)
    ensures OnChain(cs, k, j) && j < |cs| && m in cs[j].definition.members && !m.isAbstract && Meets(m.signature, r)
    decreases k
  {
    hide OwnMeets, Meets, Open, KeyOf;
    assert Right(cs, k);
    if OwnMeets(cs[k].methods, cs[k].statics, r) {
      assert Implements(cs[k].definition.members, r);
      j := k;
      m :| m in cs[k].definition.members && !m.isAbstract && Meets(m.signature, r);
    } else {
      j, m := ChainMember(cs, cs[k].definition.parent.value, r);
    }
  }

  lemma {:induction false} AboveOwes(cs: seq<Class>, k: nat, a: nat, d: Member)
    requires Ordered(cs) && StandsAbove(cs, k, a) && a < |cs| && d in cs[a].definition.members && d.isAbstract
    ensures Owes(cs, k, d.signature)
    decreases k
  {
    hide KeyOf;
    if a != k {
      var c := cs[k].definition;
      if c.parent.Some? && StandsAbove(cs, c.parent.value, a) {
        AboveOwes(cs, c.parent.value, a, d);
      } else {
        var i :| 0 <= i < |c.interfaces| && StandsAbove(cs, c.interfaces[i], a);
        AboveOwes(cs, c.interfaces[i], a, d);
      }
    }
  }

  /** Whatever is owed was declared above. */
  lemma {:induction false} OwedAbove(cs: seq<Class>, k: nat, r: Signature) returns (a: nat, d: Member)
    requires Ordered(cs) && Owes(cs, k, r)
    ensures StandsAbove(cs, k, a) && a < |cs| && d in cs[a].definition.members && d.isAbstract && KeyOf(d.signature) == KeyOf(r)
    decreases k
  {
    hide KeyOf;
    var c := cs[k].definition;
    if Declares(c.members, r) {
      a := k;
      d :| d in c.members && d.isAbstract && KeyOf(d.signature) == KeyOf(r);
    } else if c.parent.Some? && Owes(cs, c.parent.value, r) {
      a, d := OwedAbove(cs, c.parent.value, r);
    } else {
      var i :| 0 <= i < |c.interfaces| && Owes(cs, c.interfaces[i], r);
      a, d := OwedAbove(cs, c.interfaces[i], r);
    }
  }

  /**
   * For every abstract member d declared on a registered class that is not abstract, or anywhere above it, the class or
   * one of its ancestors declares a concrete member m of the same name, of the same kind and arity, and of the same
   * parameter types if d gives them all.
   */
  lemma ConcreteClassProvides(cs: seq<Class>, k: nat, a: nat, d: Member) returns (j: nat, m: Member)
    requires AllRight(cs) && k < |cs| && !cs[k].isAbstract
    requires StandsAbove(cs, k, a) && a < |cs| && d in cs[a].definition.members && d.isAbstract
    ensures OnChain(cs, k, j) && j < |cs| && m in cs[j].definition.members && !m.isAbstract
    ensures m.signature.name == d.signature.name && m.signature.isStatic == d.signature.isStatic
    ensures |m.signature.params| == |d.signature.params|
    ensures (forall i :: 0 <= i < |d.signature.params| ==> d.signature.params[i].Some?) ==>
      m.signature.params == d.signature.params
  {
    hide Owes, ChainMeets, Open, StandsAbove, OnChain;
    var r := d.signature;
    AboveOwes(cs, k, a, d);
    OwedIsAccounted(cs, k, r);
    assert Right(cs, k);
    assert KeyOf(r) in cs[k].open <==> Open(cs, k, r);
    j, m := ChainMember(cs, k, r);
    MeetsExactly(m.signature, r);
  }

  /**
   * A class not declared abstract becomes abstract only over an abstract member d, declared on it or above it, for which
   * it declares no concrete member of the same name, kind, arity and, if d gives them all, parameter types.
   */
  lemma AbstractForAReason(cs: seq<Class>, k: nat) returns (a: nat, d: Member)
    requires AllRight(cs) && k < |cs| && cs[k].isAbstract && !cs[k].definition.isAbstract
    ensures StandsAbove(cs, k, a) && a < |cs| && d in cs[a].definition.members && d.isAbstract
    ensures forall m :: m in cs[k].definition.members && !m.isAbstract ==>
      || m.signature.name != d.signature.name || m.signature.isStatic != d.signature.isStatic
      || |m.signature.params| != |d.signature.params|
      || ((forall i :: 0 <= i < |d.signature.params| ==> d.signature.params[i].Some?) &&
          m.signature.params != d.signature.params)
  {
    hide Owes, Open, StandsAbove;
    assert Right(cs, k);
    var key :| key in cs[k].open;
    var r := cs[k].open[key];
    assert KeyOf(r) in cs[k].open <==> Open(cs, k, r);
    OpenIsOwed(cs, k, r);
    a, d := OwedAbove(cs, k, r);
    NoOwnMember(cs, k, r, d.signature);
  }

  lemma NoOwnMember(cs: seq<Class>, k: nat, r: Signature, q: Signature)
    requires AllRight(cs) && k < |cs| && KeyOf(r) == KeyOf(q) && !OwnMeets(cs[k].methods, cs[k].statics, r)
    ensures forall m :: m in cs[k].definition.members && !m.isAbstract ==>
      || m.signature.name != q.name || m.signature.isStatic != q.isStatic || |m.signature.params| != |q.params|
      || ((forall i :: 0 <= i < |q.params| ==> q.params[i].Some?) && m.signature.params != q.params)
  {
    hide OwnMeets, Open, Meets, KeyOf;
    assert Right(cs, k) && !Implements(cs[k].definition.members, r);
    ImplementsSame(cs[k].definition.members, r, q);
    forall m | m in cs[k].definition.members && !m.isAbstract ensures !Meets(m.signature, q) {
    }
    forall m | m in cs[k].definition.members && !m.isAbstract
      ensures || m.signature.name != q.name || m.signature.isStatic != q.isStatic || |m.signature.params| != |q.params|
              || ((forall i :: 0 <= i < |q.params| ==> q.params[i].Some?) && m.signature.params != q.params)
    {
      MeetsExactly(m.signature, q);
    }
  }

  /** A class that declares a concrete member does not leave open what that member answers. */
  lemma OwnMethodCloses(cs: seq<Class>, k: nat, m: Member, key: AbstractKey)
    requires AllRight(cs) && k < |cs| && m in cs[k].definition.members && !m.isAbstract && key in cs[k].open
    ensures
      var q := cs[k].open[key];
      || m.signature.name != q.name || m.signature.isStatic != q.isStatic || |m.signature.params| != |q.params|
      || ((forall i :: 0 <= i < |q.params| ==> q.params[i].Some?) && m.signature.params != q.params)
  {
    hide Owes, Open, OwnMeets;
    assert Right(cs, k);
    var q := cs[k].open[key];
    assert KeyOf(q) in cs[k].open <==> Open(cs, k, q);
    OpenIsOwed(cs, k, q);
    NoOwnMember(cs, k, q, q);
  }

  /** Declaring the abstract and the concrete members in another order leaves the same obligations. */
  lemma OrderOfMembers(a: seq<Member>, b: seq<Member>, tablesA: (Table, Table), tablesB: (Table, Table),
                       openA: Obligations, openB: Obligations)
    requires Built(a, tablesA.0, tablesA.1, openA) && Built(b, tablesB.0, tablesB.1, openB)
    requires forall m :: m in a <==> m in b
    ensures openA.Keys == openB.Keys
    ensures forall r :: OwnMeets(tablesA.0, tablesA.1, r) == OwnMeets(tablesB.0, tablesB.1, r)
  {
    hide KeyOf, OwnMeets, Meets, Keyed;
    forall r ensures OwnMeets(tablesA.0, tablesA.1, r) == OwnMeets(tablesB.0, tablesB.1, r) {
      assert Implements(a, r) == Implements(b, r);
    }
    forall r ensures KeyOf(r) in openA <==> KeyOf(r) in openB {
      assert Implements(a, r) == Implements(b, r) && Declares(a, r) == Declares(b, r);
    }
    forall k ensures k in openA <==> k in openB {
      if k in openA {
        assert KeyOf(openA[k]) == k;
      }
      if k in openB {
        assert KeyOf(openB[k]) == k;
      }
    }
  }

  lemma BuiltNothing()
    ensures Built([], map[], map[], map[])
  {
  }
}
