// What an identity says about a class: when hashing loses nothing, equal identities mean equal trees.

module Identities {
  import opened Options
  import opened ClassIdentity

  /** Hashing and rendering that can be undone: nothing that goes in is lost. */
  ghost predicate Separating(hs: Hashing) {
    && (forall h, s, h', s' :: hs.text(h, s) == hs.text(h', s') ==> h == h' && s == s')
    && (forall h, n, h', n' :: hs.number(h, n) == hs.number(h', n') ==> h == h' && n == n')
    && (forall h, s, h', n :: hs.text(h, s) != hs.number(h', n))
    && (forall h, s :: hs.text(h, s) != hs.start)
    && (forall h, n :: hs.number(h, n) != hs.start)
    && (forall s, h, s', h' :: hs.render(s, h) == hs.render(s', h') ==> s == s' && h == h')
  }

  // ----- a hash as a list of what went into it -----

  datatype Token = Str(text: string) | Num(number: nat)

  ghost function Hashed(hs: Hashing, tokens: seq<Token>): nat {
    if tokens == [] then hs.start
    else
      var h := Hashed(hs, tokens[..|tokens| - 1]);
      match tokens[|tokens| - 1]
      case Str(s) => hs.text(h, s)
      case Num(n) => hs.number(h, n)
  }

  lemma HashedOne(hs: Hashing, tokens: seq<Token>, t: Token)
    ensures Hashed(hs, tokens + [t]) ==
      match t
      case Str(s) => hs.text(Hashed(hs, tokens), s)
      case Num(n) => hs.number(Hashed(hs, tokens), n)
  {
    assert (tokens + [t])[..|tokens|] == tokens;
  }

  lemma {:induction false} HashedInjective(hs: Hashing, a: seq<Token>, b: seq<Token>)
    requires Separating(hs) && Hashed(hs, a) == Hashed(hs, b)
    ensures a == b
    decreases |a|
  {
    if a != [] && b != [] {
      HashedInjective(hs, a[..|a| - 1], b[..|b| - 1]);
      assert a == a[..|a| - 1] + [a[|a| - 1]] && b == b[..|b| - 1] + [b[|b| - 1]];
    }
  }

  ghost function Strs(ids: seq<string>): seq<Token> { seq(|ids|, i requires 0 <= i < |ids| => Str(ids[i])) }

  ghost function FieldTokens(fields: seq<Field>): seq<Token> {
    if fields == [] then []
    else
      var f := fields[|fields| - 1];
      FieldTokens(fields[..|fields| - 1]) + [Str(f.name), Str(f.declaredType), Num(f.access)]
  }

  ghost function Bit(b: bool): nat { if b then 1 else 0 }

  ghost function HeadTokens(name: string, f: Flags, prototype: string): seq<Token> {
    [Str("turboscript.class.v1"), Str(name), Num(Bit(f.isAbstract)), Num(Bit(f.isInterface)), Num(Bit(f.isFinal)), Str(prototype)]
  }

  ghost function Tokens(name: string, f: Flags, prototype: string, interfaces: seq<string>, fields: seq<Field>): seq<Token> {
    HeadTokens(name, f, prototype) + ([Num(|interfaces|)] + Strs(interfaces)) + ([Num(|fields|)] + FieldTokens(fields))
  }

  lemma HeadHashed(hs: Hashing, name: string, f: Flags, prototype: string)
    ensures Hashed(hs, HeadTokens(name, f, prototype)) == hs.text(hs.Head(name, f), prototype)
  {
    var a := [Str("turboscript.class.v1")];
    HashedOne(hs, [], Str("turboscript.class.v1"));
    HashedOne(hs, a, Str(name));
    HashedOne(hs, a + [Str(name)], Num(Bit(f.isAbstract)));
    HashedOne(hs, a + [Str(name)] + [Num(Bit(f.isAbstract))], Num(Bit(f.isInterface)));
    HashedOne(hs, a + [Str(name)] + [Num(Bit(f.isAbstract))] + [Num(Bit(f.isInterface))], Num(Bit(f.isFinal)));
    var b := a + [Str(name)] + [Num(Bit(f.isAbstract))] + [Num(Bit(f.isInterface))] + [Num(Bit(f.isFinal))];
    HashedOne(hs, b, Str(prototype));
    assert HeadTokens(name, f, prototype) == b + [Str(prototype)];
    assert [] + a == a;
    hide Hashed;
  }

  lemma {:induction false} TextsHashed(hs: Hashing, a: seq<Token>, ids: seq<string>)
    ensures Hashed(hs, a + Strs(ids)) == hs.Texts(Hashed(hs, a), ids)
    decreases |ids|
  {
    hide Hashed;
    if ids == [] {
      assert a + Strs(ids) == a;
    } else {
      var rest, last := ids[..|ids| - 1], ids[|ids| - 1];
      TextsHashed(hs, a, rest);
      HashedOne(hs, a + Strs(rest), Str(last));
      assert Strs(ids) == Strs(rest) + [Str(last)];
      assert a + Strs(ids) == (a + Strs(rest)) + [Str(last)];
    }
  }

  lemma {:induction false} FieldsHashed(hs: Hashing, a: seq<Token>, fields: seq<Field>)
    ensures Hashed(hs, a + FieldTokens(fields)) == hs.Fields(Hashed(hs, a), fields)
    decreases |fields|
  {
    hide Hashed;
    if fields == [] {
      assert a + FieldTokens(fields) == a;
    } else {
      var rest, f := fields[..|fields| - 1], fields[|fields| - 1];
      var b := a + FieldTokens(rest);
      FieldsHashed(hs, a, rest);
      HashedOne(hs, b, Str(f.name));
      HashedOne(hs, b + [Str(f.name)], Str(f.declaredType));
      HashedOne(hs, b + [Str(f.name)] + [Str(f.declaredType)], Num(f.access));
      assert a + FieldTokens(fields) == b + [Str(f.name)] + [Str(f.declaredType)] + [Num(f.access)];
    }
  }

  lemma IdentityHashed(hs: Hashing, name: string, f: Flags, prototype: string, interfaces: seq<string>, fields: seq<Field>)
    ensures hs.Identity(name, f, prototype, interfaces, fields) ==
      hs.render(name, Hashed(hs, Tokens(name, f, prototype, interfaces, fields)))
  {
    hide Hashed, HeadTokens, Hashing.Head, Hashing.Texts, Hashing.Fields, Strs, FieldTokens;
    var a, count := HeadTokens(name, f, prototype), [Num(|interfaces|)];
    HeadHashed(hs, name, f, prototype);
    HashedOne(hs, a, Num(|interfaces|));
    TextsHashed(hs, a + count, interfaces);
    var b := a + count + Strs(interfaces);
    HashedOne(hs, b, Num(|fields|));
    FieldsHashed(hs, b + [Num(|fields|)], fields);
    assert Tokens(name, f, prototype, interfaces, fields) == b + [Num(|fields|)] + FieldTokens(fields);
  }

  // ----- the list can be read back -----

  lemma {:induction false} FieldTokensRead(a: seq<Field>, b: seq<Field>)
    requires FieldTokens(a) == FieldTokens(b)
    ensures a == b
    decreases |a|
  {
    if a != [] && b != [] {
      var f, g := a[|a| - 1], b[|b| - 1];
      var x, y := FieldTokens(a[..|a| - 1]), FieldTokens(b[..|b| - 1]);
      var n := |x|;
      assert n == |y| && x == FieldTokens(a)[..n] && y == FieldTokens(b)[..n];
      assert FieldTokens(a)[n] == Str(f.name) && FieldTokens(a)[n + 1] == Str(f.declaredType) && FieldTokens(a)[n + 2] == Num(f.access);
      assert FieldTokens(b)[n] == Str(g.name) && FieldTokens(b)[n + 1] == Str(g.declaredType) && FieldTokens(b)[n + 2] == Num(g.access);
      FieldTokensRead(a[..|a| - 1], b[..|b| - 1]);
      assert a == a[..|a| - 1] + [f] && b == b[..|b| - 1] + [g];
    }
  }

  lemma StrsRead(a: seq<string>, b: seq<string>)
    requires Strs(a) == Strs(b)
    ensures a == b
  {
    assert |a| == |Strs(a)| == |b|;
    forall i | 0 <= i < |a| ensures a[i] == b[i] {
      assert Strs(a)[i] == Str(a[i]) && Strs(b)[i] == Str(b[i]);
    }
  }

  /** The counts in front of the two lists make the whole list readable from the front. */
  lemma TokensRead(name: string, f: Flags, p: string, ids: seq<string>, fields: seq<Field>,
                   name': string, f': Flags, p': string, ids': seq<string>, fields': seq<Field>)
    requires Tokens(name, f, p, ids, fields) == Tokens(name', f', p', ids', fields')
    ensures name == name' && f == f' && p == p' && ids == ids' && fields == fields'
  {
    var t, t' := Tokens(name, f, p, ids, fields), Tokens(name', f', p', ids', fields');
    var n := |ids|;
    hide FieldTokens;
    assert t[1] == Str(name) && t[5] == Str(p) && t[6] == Num(n);
    assert t'[1] == Str(name') && t'[5] == Str(p') && t'[6] == Num(|ids'|);
    assert t[2] == Num(Bit(f.isAbstract)) && t[3] == Num(Bit(f.isInterface)) && t[4] == Num(Bit(f.isFinal));
    assert t'[2] == Num(Bit(f'.isAbstract)) && t'[3] == Num(Bit(f'.isInterface)) && t'[4] == Num(Bit(f'.isFinal));
    assert t[7..7 + n] == Strs(ids) && t'[7..7 + n] == Strs(ids');
    StrsRead(ids, ids');
    assert t[8 + n..] == FieldTokens(fields) && t'[8 + n..] == FieldTokens(fields');
    FieldTokensRead(fields, fields');
  }

  // ----- identities and shapes -----

  /** No class has the empty text for an identity, which is what an absent prototype is hashed like. */
  ghost predicate NoneEmpty(hs: Hashing) { forall s: Shape :: IdentityOf(hs, s) != "" }

  ghost function ParentIdentity(hs: Hashing, s: Shape): string { if s.prototype.Some? then IdentityOf(hs, s.prototype.value) else "" }

  ghost function Faces(hs: Hashing, s: Shape): seq<string> {
    seq(|s.interfaces|, i requires 0 <= i < |s.interfaces| => IdentityOf(hs, s.interfaces[i]))
  }

  lemma PartsRead(hs: Hashing, s: Shape, t: Shape)
    requires Separating(hs) && IdentityOf(hs, s) == IdentityOf(hs, t)
    ensures s.name == t.name && s.flags == t.flags && s.fields == t.fields
    ensures ParentIdentity(hs, s) == ParentIdentity(hs, t) && Faces(hs, s) == Faces(hs, t)
  {
    IdentityHashed(hs, s.name, s.flags, ParentIdentity(hs, s), Faces(hs, s), s.fields);
    IdentityHashed(hs, t.name, t.flags, ParentIdentity(hs, t), Faces(hs, t), t.fields);
    hide Hashed, Tokens, Hashing.Identity;
    HashedInjective(hs, Tokens(s.name, s.flags, ParentIdentity(hs, s), Faces(hs, s), s.fields),
                    Tokens(t.name, t.flags, ParentIdentity(hs, t), Faces(hs, t), t.fields));
    TokensRead(s.name, s.flags, ParentIdentity(hs, s), Faces(hs, s), s.fields, t.name, t.flags, ParentIdentity(hs, t), Faces(hs, t), t.fields);
  }

  /** Equal identities mean equal shapes: names, flags, fields with their types and access, and everything above. */
  lemma {:induction false} SameIdentitySameShape(hs: Hashing, s: Shape, t: Shape)
    requires Separating(hs) && NoneEmpty(hs) && IdentityOf(hs, s) == IdentityOf(hs, t)
    ensures s == t
    decreases s
  {
    PartsRead(hs, s, t);
    hide Separating, IdentityOf;
    if s.prototype.Some? && t.prototype.Some? {
      SameIdentitySameShape(hs, s.prototype.value, t.prototype.value);
    }
    assert |s.interfaces| == |Faces(hs, s)| == |t.interfaces|;
    forall i | 0 <= i < |s.interfaces| ensures s.interfaces[i] == t.interfaces[i] {
      assert Faces(hs, s)[i] == IdentityOf(hs, s.interfaces[i]) && Faces(hs, t)[i] == IdentityOf(hs, t.interfaces[i]);
      SameIdentitySameShape(hs, s.interfaces[i], t.interfaces[i]);
    }
    assert s.interfaces == t.interfaces;
  }

  /** The empty identity is the only obstacle: a class below one that has it looks like a class without a prototype. */
  lemma EmptyIdentityOnly(hs: Hashing)
    requires Separating(hs)
    ensures NoneEmpty(hs) <==> forall s, t :: IdentityOf(hs, s) == IdentityOf(hs, t) ==> s == t
  {
    hide Separating, IdentityOf;
    if NoneEmpty(hs) {
      forall s, t | IdentityOf(hs, s) == IdentityOf(hs, t) ensures s == t {
        SameIdentitySameShape(hs, s, t);
      }
    } else {
      var p: Shape :| IdentityOf(hs, p) == "";
      var s, t := LookAlikes(hs, p);
    }
  }

  lemma LookAlikes(hs: Hashing, p: Shape) returns (s: Shape, t: Shape)
    requires IdentityOf(hs, p) == ""
    ensures s != t && IdentityOf(hs, s) == IdentityOf(hs, t)
  {
    hide Hashing.Identity;
    var flags := Flags(false, false, false);
    s, t := Shape("", flags, Some(p), [], []), Shape("", flags, None, [], []);
    assert Faces(hs, s) == Faces(hs, t) == [];
    assert IdentityOf(hs, s) == hs.Identity("", flags, ParentIdentity(hs, s), Faces(hs, s), []);
    assert IdentityOf(hs, t) == hs.Identity("", flags, ParentIdentity(hs, t), Faces(hs, t), []);
  }

  /** Two finalized classes, of one registry or of two, have the same identity if and only if their trees are equal. */
  lemma IdentityDecides(hs: Hashing, g: Graph, ready: Marks, ids: map<Id, string>, k: Id,
                        g': Graph, ready': Marks, ids': map<Id, string>, k': Id)
    requires Separating(hs) && NoneEmpty(hs)
    requires Settled(hs, g, ready, ids) && k in g && ready[k] == 1
    requires Settled(hs, g', ready', ids') && k' in g' && ready'[k'] == 1
    ensures k in ids && k' in ids' && Acyclic(g, k) && Acyclic(g', k')
    ensures ids[k] == ids'[k'] <==> Tree(g, k) == Tree(g', k')
  {
    hide Acyclic, Tree, IdentityOf, Separating, NoneEmpty;
    if ids[k] == ids'[k'] {
      SameIdentitySameShape(hs, Tree(g, k), Tree(g', k'));
    }
  }
}
