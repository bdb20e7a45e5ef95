// Instance fields: every field is kept twice, in a table by name and in a slot whose
// index comes from a layout shared by all instances of the class. Slots can be cached by
// address; a version number tells when an address is stale.

module InstanceFields {
  import opened Options

  datatype Value = Null | Data(kind: string, payload: int)

  datatype FieldDecl = FieldDecl(name: string, declared: Option<string>, initial: Value)

  /** Whether a value fits a declared type is not interpreted. */
  type Typing = (string, Value) -> bool

  predicate Accepts(fits: Typing, declared: Option<string>, v: Value) { declared.None? || fits(declared.value, v) }

  predicate Distinct(fields: seq<FieldDecl>) {
    forall i, j :: 0 <= i < j < |fields| ==> fields[i].name != fields[j].name
  }

  /** The position of a name, or the number of fields. */
  function IndexOf(fields: seq<FieldDecl>, name: string): (k: nat)
    ensures k <= |fields|
    ensures k < |fields| ==> fields[k].name == name
    ensures forall i :: 0 <= i < k ==> fields[i].name != name
  {
    if fields == [] then 0 else if fields[0].name == name then 0 else 1 + IndexOf(fields[1..], name)
  }

  /** Appends a field unless its name is known. */
  function Append(fields: seq<FieldDecl>, f: FieldDecl): seq<FieldDecl> {
    if IndexOf(fields, f.name) < |fields| then fields else fields + [f]
  }

  function Import(fields: seq<FieldDecl>, source: seq<FieldDecl>): seq<FieldDecl>
    decreases |source|
  {
    if source == [] then fields else Import(Append(fields, source[0]), source[1..])
  }

  /** A layout grows at its end only, so an index keeps its name. */
  ghost predicate Grown(after: seq<FieldDecl>, before: seq<FieldDecl>) {
    Distinct(after) && |before| <= |after| && forall i :: 0 <= i < |before| ==> after[i].name == before[i].name
  }

  lemma AppendGrows(fields: seq<FieldDecl>, f: FieldDecl)
    requires Distinct(fields)
    ensures Grown(Append(fields, f), fields) && IndexOf(Append(fields, f), f.name) < |Append(fields, f)|
    ensures fields <= Append(fields, f)
  {
    var after := Append(fields, f);
    if IndexOf(fields, f.name) == |fields| {
      assert after[|fields|].name == f.name;
    }
  }

  lemma {:induction false} ImportGrows(fields: seq<FieldDecl>, source: seq<FieldDecl>)
    requires Distinct(fields)
    ensures Grown(Import(fields, source), fields) && fields <= Import(fields, source)
    decreases |source|
  {
    if source != [] {
      AppendGrows(fields, source[0]);
      ImportGrows(Append(fields, source[0]), source[1..]);
    }
  }

  lemma IndexUnique(fields: seq<FieldDecl>, i: nat)
    requires Distinct(fields) && i < |fields|
    ensures IndexOf(fields, fields[i].name) == i
  {
  }

  // ----- what a layout holds, by positions -----

  /** No earlier declaration of the list has the same name. */
  ghost predicate First(list: seq<FieldDecl>, j: nat)
    requires j < |list|
  {
    forall l :: 0 <= l < j ==> list[l].name != list[j].name
  }

  ghost predicate IsFirst(list: seq<FieldDecl>, f: FieldDecl) { exists j :: 0 <= j < |list| && list[j] == f && First(list, j) }

  ghost predicate Names(fields: seq<FieldDecl>, name: string) { exists i :: 0 <= i < |fields| && fields[i].name == name }

  /**
   * What was there is still there, whole and in its place; whatever is behind it is the first declaration given for its
   * name; and every name given is found.
   */
  ghost predicate TakenOver(after: seq<FieldDecl>, before: seq<FieldDecl>, given: seq<FieldDecl>) {
    && Distinct(after)
    && before <= after
    && (forall i :: |before| <= i < |after| ==> IsFirst(given, after[i]))
    && (forall j :: 0 <= j < |given| ==> Names(after, given[j].name))
  }

  /** The declaration that counts for a name: the one in the layout, or else the first one given. */
  ghost predicate Governs(d: FieldDecl, before: seq<FieldDecl>, given: seq<FieldDecl>, name: string) {
    d.name == name && (d in before || (!Names(before, name) && IsFirst(given, d)))
  }

  lemma AppendTakenOver(before: seq<FieldDecl>, f: FieldDecl)
    requires Distinct(before)
    ensures TakenOver(Append(before, f), before, [f])
  {
    AppendGrows(before, f);
    var after, k := Append(before, f), IndexOf(before, f.name);
    assert [f][0] == f && First([f], 0);
    assert Names(after, f.name) by {
      assert after[k].name == f.name;
    }
  }

  lemma {:induction false} ImportTakenOver(before: seq<FieldDecl>, given: seq<FieldDecl>)
    requires Distinct(before)
    ensures TakenOver(Import(before, given), before, given)
    decreases |given|
  {
    ImportGrows(before, given);
    if given != [] {
      var middle := Append(before, given[0]);
      AppendGrows(before, given[0]);
      AppendTakenOver(before, given[0]);
      ImportTakenOver(middle, given[1..]);
      TakenOverTwice(Import(middle, given[1..]), middle, before, [given[0]], given[1..]);
      assert [given[0]] + given[1..] == given;
    }
  }

  lemma TakenOverTwice(after: seq<FieldDecl>, middle: seq<FieldDecl>, before: seq<FieldDecl>,
                       a: seq<FieldDecl>, b: seq<FieldDecl>)
    requires TakenOver(after, middle, b) && TakenOver(middle, before, a)
    ensures TakenOver(after, before, a + b)
  {
    forall i | |before| <= i < |after| ensures IsFirst(a + b, after[i]) {
      if i < |middle| {
        FirstInLeft(a, b, middle[i]);
      } else {
        assert !Names(middle, after[i].name) by {
          assert forall l :: 0 <= l < |middle| ==> middle[l] == after[l];
        }
        FirstInRight(a, b, middle, after[i]);
      }
    }
    forall j | 0 <= j < |a + b| ensures Names(after, (a + b)[j].name) {
      if j < |a| {
        var l :| 0 <= l < |middle| && middle[l].name == a[j].name;
        assert after[l].name == a[j].name;
      } else {
        assert (a + b)[j] == b[j - |a|];
      }
    }
  }

  lemma FirstInLeft(a: seq<FieldDecl>, b: seq<FieldDecl>, f: FieldDecl)
    requires IsFirst(a, f)
    ensures IsFirst(a + b, f)
  {
    var j :| 0 <= j < |a| && a[j] == f && First(a, j);
    assert (a + b)[j] == f && First(a + b, j);
  }

  lemma FirstInRight(a: seq<FieldDecl>, b: seq<FieldDecl>, middle: seq<FieldDecl>, f: FieldDecl)
    requires IsFirst(b, f) && !Names(middle, f.name) && forall j :: 0 <= j < |a| ==> Names(middle, a[j].name)
    ensures IsFirst(a + b, f)
  {
    var j :| 0 <= j < |b| && b[j] == f && First(b, j);
    var k := |a| + j;
    assert (a + b)[k] == f;
    forall l | 0 <= l < k ensures (a + b)[l].name != f.name {
      assert l < |a| ==> Names(middle, a[l].name);
      assert l >= |a| ==> (a + b)[l] == b[l - |a|];
    }
    assert First(a + b, k);
  }

  /** The type looked up is that of the declaration that counts. */
  lemma GoverningType(before: seq<FieldDecl>, given: seq<FieldDecl>, name: string)
    requires Distinct(before)
    ensures
      var declared := DeclaredType(Import(before, given), name);
      && (forall d :: Governs(d, before, given, name) ==> d.declared == declared)
      && (declared.Some? ==> exists d :: Governs(d, before, given, name))
  {
    ImportTakenOver(before, given);
    var after := Import(before, given);
    hide Import;
    if IndexOf(after, name) < |after| {
      GoverningFound(after, before, given, name);
    }
    forall d | Governs(d, before, given, name) ensures d.declared == DeclaredType(after, name) {
      GoverningPlace(after, before, given, d);
    }
  }

  lemma GoverningFound(after: seq<FieldDecl>, before: seq<FieldDecl>, given: seq<FieldDecl>, name: string)
    requires TakenOver(after, before, given) && IndexOf(after, name) < |after|
    ensures Governs(after[IndexOf(after, name)], before, given, name)
  {
    var k := IndexOf(after, name);
    assert forall i :: 0 <= i < |before| ==> after[i] == before[i];
  }

  lemma GoverningPlace(after: seq<FieldDecl>, before: seq<FieldDecl>, given: seq<FieldDecl>, d: FieldDecl)
    requires TakenOver(after, before, given) && Governs(d, before, given, d.name)
    ensures IndexOf(after, d.name) < |after| && after[IndexOf(after, d.name)] == d
  {
    if d in before {
      var i :| 0 <= i < |before| && before[i] == d;
      assert after[i] == d;
      IndexUnique(after, i);
    } else {
      var j :| 0 <= j < |given| && given[j] == d && First(given, j);
      assert Names(after, given[j].name);
      var i :| 0 <= i < |after| && after[i].name == d.name;
      IndexUnique(after, i);
      assert i >= |before| by {
        assert forall l :: 0 <= l < |before| ==> before[l] == after[l] && before[l].name != d.name;
      }
      var l :| 0 <= l < |given| && given[l] == after[i] && First(given, l);
      assert l == j;
    }
  }

  lemma EnsuredTakenOver(before: seq<FieldDecl>, given: seq<FieldDecl>, f: FieldDecl)
    requires Distinct(before)
    ensures TakenOver(Append(Import(before, given), f), before, given + [f])
  {
    hide Append, Import, Distinct;
    ImportTakenOver(before, given);
    var middle := Import(before, given);
    assert Distinct(middle);
    AppendTakenOver(middle, f);
    TakenOverTwice(Append(middle, f), middle, before, given, [f]);
  }

  /** A value is accepted exactly if it fits the declaration that counts, or there is none or it names no type. */
  lemma AcceptedExactly(fits: Typing, before: seq<FieldDecl>, given: seq<FieldDecl>, name: string, v: Value)
    requires Distinct(before)
    ensures Accepts(fits, DeclaredType(Import(before, given), name), v) <==>
      forall d :: Governs(d, before, given, name) && d.declared.Some? ==> fits(d.declared.value, v)
  {
    GoverningType(before, given, name);
    hide Governs, DeclaredType, Import;
  }

  /** The layout of a class. */
  class Layout {
    var fields: seq<FieldDecl>

    ghost predicate Valid()
      reads this
    {
      Distinct(fields)
    }

    constructor ()
      ensures Valid() && fields == []
    {
      fields := [];
    }

    /** Linear search by name. */
    method Find(name: string) returns (found: bool, index: nat)
      requires Valid()
      ensures index == IndexOf(fields, name) && (found <==> index < |fields|)
    {
      index := 0;
      while index < |fields|
        invariant index <= |fields| && forall i :: 0 <= i < index ==> fields[i].name != name
      {
        if fields[index].name == name {
          return true, index;
        }
        index := index + 1;
      }
      found := false;
    }

    /** Declares a field; a known name keeps its index and, on request, gets the new declaration. */
    method Declare(f: FieldDecl, update: bool) returns (index: nat)
      requires Valid()
      modifies this
      ensures Valid() && Grown(fields, old(fields)) && index < |fields| && fields[index].name == f.name
      ensures var after := Append(old(fields), f); |after| == |fields| && fields == if update then after[index := f] else after
      ensures if Names(old(fields), f.name)
        then index < |old(fields)| && old(fields)[index].name == f.name &&
             fields == if update then old(fields)[index := f] else old(fields)
        else index == |old(fields)| && fields == old(fields) + [f]
    {
      AppendGrows(fields, f);
      var found;
      found, index := Find(f.name);
      if found {
        if update {
          fields := fields[index := f];
        }
        return;
      }
      fields := fields + [f];
    }

    /** Takes over what the prototypes declare, and then makes sure that the name has an index. */
    method Ensure(name: string, inherited: seq<FieldDecl>) returns (index: nat)
      requires Valid()
      modifies this
      ensures Valid() && Grown(fields, old(fields)) && index == IndexOf(fields, name) < |fields|
      ensures fields == Append(Import(old(fields), inherited), FieldDecl(name, None, Null))
      ensures TakenOver(fields, old(fields), inherited + [FieldDecl(name, None, Null)])
    {
      EnsuredTakenOver(fields, inherited, FieldDecl(name, None, Null));
      var i := 0;
      ImportGrows(fields, inherited);
      while i < |inherited|
        invariant 0 <= i <= |inherited| && Valid()
        invariant Import(old(fields), inherited) == Import(fields, inherited[i..])
      {
        var _ := Declare(inherited[i], false);
        i := i + 1;
      }
      AppendGrows(fields, FieldDecl(name, None, Null));
      index := Declare(FieldDecl(name, None, Null), false);
      IndexUnique(fields, index);
    }
  
    /** The declared type of a field, after taking over what the prototypes declare. */
    method TypeOf(name: string, inherited: seq<FieldDecl>) returns (declared: Option<string>)
      requires Valid()
      modifies this
      ensures Valid() && fields == Import(old(fields), inherited) && declared == DeclaredType(fields, name)
      ensures Grown(fields, old(fields)) && TakenOver(fields, old(fields), inherited)
      ensures forall d :: Governs(d, old(fields), inherited, name) ==> d.declared == declared
      ensures declared.Some? ==> exists d :: Governs(d, old(fields), inherited, name)
    {
      ImportTakenOver(fields, inherited);
      GoverningType(fields, inherited, name);
      var i := 0;
      ImportGrows(fields, inherited);
      while i < |inherited|
        invariant 0 <= i <= |inherited| && Valid()
        invariant Import(old(fields), inherited) == Import(fields, inherited[i..])
      {
        var _ := Declare(inherited[i], false);
        i := i + 1;
      }
      var found, index := Find(name);
      declared := if found then fields[index].declared else None;
    }
  }

  function DeclaredType(fields: seq<FieldDecl>, name: string): Option<string> {
    var k := IndexOf(fields, name);
    if k < |fields| then fields[k].declared else None
  }

  /** Every used slot shows its table entry, and every table entry has a used slot. */
  ghost predicate Agree(fields: seq<FieldDecl>, slots: seq<Value>, used: seq<bool>, count: nat, table: map<string, Value>) {
    && |slots| == |used| && count <= |used|
    && (forall i :: 0 <= i < |used| && used[i] ==>
          i < count && i < |fields| && fields[i].name in table && table[fields[i].name] == slots[i])
    && (forall n :: n in table ==> IndexOf(fields, n) < |fields| && IndexOf(fields, n) < count && used[IndexOf(fields, n)])
  }

  lemma GrownKeepsIndex(after: seq<FieldDecl>, before: seq<FieldDecl>, n: string)
    requires Grown(after, before) && IndexOf(before, n) < |before|
    ensures IndexOf(after, n) == IndexOf(before, n)
  {
    IndexUnique(after, IndexOf(before, n));
  }

  /** A growing layout does not disturb the instances that have not grown with it. */
  lemma AgreeGrown(after: seq<FieldDecl>, before: seq<FieldDecl>, slots: seq<Value>, used: seq<bool>, count: nat,
                   table: map<string, Value>)
    requires Grown(after, before) && Agree(before, slots, used, count, table)
    ensures Agree(after, slots, used, count, table)
  {
    forall n | n in table ensures IndexOf(after, n) == IndexOf(before, n) {
      GrownKeepsIndex(after, before, n);
    }
  }

  lemma UsedSlot(fields: seq<FieldDecl>, slots: seq<Value>, used: seq<bool>, count: nat, table: map<string, Value>, n: string)
    requires Agree(fields, slots, used, count, table) && n in table
    ensures IndexOf(fields, n) < |used| && used[IndexOf(fields, n)]
  {
  }

  /** Writing one field in both places. */
  lemma AgreeSet(fields: seq<FieldDecl>, slots: seq<Value>, used: seq<bool>, count: nat, table: map<string, Value>,
                 k: nat, v: Value)
    requires Distinct(fields) && Agree(fields, slots, used, count, table) && k < |fields| && k < |slots|
    ensures Agree(fields, slots[k := v], used[k := true], if k < count then count else k + 1, table[fields[k].name := v])
  {
    IndexUnique(fields, k);
    var name := fields[k].name;
    forall i | 0 <= i < |used| && used[i] && i != k ensures fields[i].name != name {
      assert i < k ==> fields[i].name != fields[k].name;
      assert k < i ==> fields[k].name != fields[i].name;
    }
    hide Distinct;
    forall n | n in table && n != name ensures IndexOf(fields, n) != k {
    }
    hide IndexOf;
  }

  /** Fresh slots are unused. */
  lemma AgreeRoom(fields: seq<FieldDecl>, slots: seq<Value>, used: seq<bool>, slots': seq<Value>, used': seq<bool>,
                  count: nat, table: map<string, Value>)
    requires Agree(fields, slots, used, count, table) && |slots'| == |used'| && slots <= slots' && used <= used'
    requires forall i :: |used| <= i < |used'| ==> !used'[i]
    ensures Agree(fields, slots', used', count, table)
  {
    forall i | 0 <= i < |used'| && used'[i] ensures i < |used| && used[i] && slots'[i] == slots[i] {
    }
  }

  class Instance {
    const layout: Layout
    var slots: array<Value>
    var used: array<bool>
    var count: nat
    var version: nat
    var table: map<string, Value>
    /** Which slot array every version so far had. */
    ghost var history: map<nat, array<Value>>

    /** What this instance holds is in order under these fields. */
    ghost predicate Fits(fields: seq<FieldDecl>)
      reads this, slots, used
    {
      && Agree(fields, slots[..], used[..], count, table)
      && version in history && history[version] == slots
      && (forall v :: v in history ==> v <= version)
    }

    ghost predicate Valid()
      reads this, layout, slots, used
    {
      layout.Valid() && Fits(layout.fields)
    }

    lemma StillFits(after: seq<FieldDecl>, before: seq<FieldDecl>)
      requires Fits(before) && Grown(after, before)
      ensures Fits(after)
    {
      AgreeGrown(after, before, slots[..], used[..], count, table);
    }

    constructor Empty(layout: Layout)
      requires layout.Valid()
      ensures Valid() && this.layout == layout && table == map[] && fresh(slots) && fresh(used)
    {
      this.layout := layout;
      slots := new Value[0];
      used := new bool[0];
      count, version, table := 0, 1, map[];
      history := map[1 := slots];
    }

    /** Room for this many slots; growing moves them all to a new array. */
    method EnsureCapacity(needed: nat)
      requires slots.Length == used.Length
      modifies this`slots, this`used
      ensures slots.Length == used.Length >= needed
      ensures needed <= old(slots.Length) ==> slots == old(slots) && used == old(used)
      ensures needed > old(slots.Length) ==> fresh(slots) && fresh(used)
      ensures old(slots[..]) <= slots[..] && old(used[..]) <= used[..]
      ensures forall i :: old(used.Length) <= i < used.Length ==> !used[i]
    {
      if needed <= slots.Length {
        return;
      }
      var capacity := if slots.Length > 0 then slots.Length else 8;
      while capacity < needed
        invariant capacity > 0 && capacity >= slots.Length
      {
        capacity := capacity * 2;
      }
      var newSlots := new Value[capacity](_ => Null);
      var newUsed := new bool[capacity](_ => false);
      var i := 0;
      while i < slots.Length
        invariant slots == old(slots) && used == old(used)
        invariant 0 <= i <= slots.Length && newSlots[..i] == slots[..i] && newUsed[..i] == used[..i]
        invariant forall j :: i <= j < capacity ==> !newUsed[j]
      {
        newSlots[i], newUsed[i] := slots[i], used[i];
        i := i + 1;
      }
      assert newSlots[..i] == slots[..] && newUsed[..i] == used[..];
      slots, used := newSlots, newUsed;
    }

    ghost predicate InStep()
      reads this, layout, slots, used
    {
      Distinct(layout.fields) && Agree(layout.fields, slots[..], used[..], count, table)
    }

    /** A slot at this position; it is unused if the slots had to move. */
    method MakeRoom(k: nat)
      requires InStep()
      modifies this`slots, this`used
      ensures InStep() && k < slots.Length == used.Length
      ensures slots == old(slots) || (fresh(slots) && !used[k])
      ensures k < old(slots.Length) ==> slots == old(slots)
      ensures used == old(used) || fresh(used)
      ensures old(used.Length) <= used.Length && forall i :: 0 <= i < old(used.Length) ==> used[i] == old(used[i])
    {
      ghost var slots0, used0 := slots[..], used[..];
      assert |slots0| == |used0|;
      hide Agree, Distinct;
      EnsureCapacity(k + 1);
      AgreeRoom(layout.fields, slots0, used0, slots[..], used[..], count, table);
      forall i | 0 <= i < |used0| ensures used[i] == used0[i] {
        assert used[..][i] == used0[i];
      }
    }

    /** Writes slot and table of a field. */
    method Write(k: nat, v: Value) returns (wasUsed: bool)
      requires InStep() && k < |layout.fields| && k < slots.Length == used.Length
      modifies this`count, this`table, slots, used
      ensures InStep() && table == old(table)[layout.fields[k].name := v] && wasUsed == old(used[k])
      ensures forall i :: 0 <= i < used.Length ==> used[i] == (i == k || old(used[i]))
    {
      hide Agree, Distinct, IndexOf;
      AgreeSet(layout.fields, slots[..], used[..], count, table, k, v);
      ghost var slots1, used1 := slots[..], used[..];
      wasUsed := used[k];
      slots[k] := v;
      used[k] := true;
      assert slots[..] == slots1[k := v];
      assert used[..] == used1[k := true];
      if k + 1 > count {
        count := k + 1;
      }
      table := table[layout.fields[k].name := v];
      forall i | 0 <= i < used.Length ensures used[i] == (i == k || old(used[i])) {
        assert used[i] == used1[k := true][i];
      }
    }

    /** A field that has an index: room for its slot, both writes, and a new version for a slot used for the first time. */
    method Store(k: nat, v: Value)
      requires Valid() && k < |layout.fields|
      modifies this, slots, used
      ensures Valid() && table == old(table)[layout.fields[k].name := v]
      ensures k < old(used.Length) && old(used[k]) ==> slots == old(slots) && version == old(version)
      ensures Advanced(old(version), old(history))
      ensures (slots == old(slots) || (fresh(slots) && version > old(version))) && (used == old(used) || fresh(used))
      ensures old(used.Length) <= used.Length && forall i :: 0 <= i < old(used.Length) && old(used[i]) ==> used[i]
    {
      hide Agree, Distinct;
      MakeRoom(k);
      var wasUsed := Write(k, v);
      if !wasUsed {
        version := version + 1;
        history := history[version := slots];
      }
    }

    /** Versions only go up, and what is known about the past stays. */
    ghost predicate Advanced(version0: nat, history0: map<nat, array<Value>>)
      reads this
    {
      version0 <= version && forall w :: w in history0 ==> w in history && history[w] == history0[w]
    }

    /** Sets a field; false, with nothing stored, means that the value is not of the declared type. */
    method SetField(fits: Typing, name: string, v: Value, inherited: seq<FieldDecl>) returns (ok: bool)
      requires Valid()
      modifies this, layout, slots, used
      ensures Valid() && Grown(layout.fields, old(layout.fields))
      ensures ok <==> forall d :: Governs(d, old(layout.fields), inherited, name) && d.declared.Some? ==> fits(d.declared.value, v)
      ensures layout.fields == Import(old(layout.fields), inherited) ||
              layout.fields == Append(Import(Import(old(layout.fields), inherited), inherited), FieldDecl(name, None, Null))
      ensures table == if ok then old(table)[name := v] else old(table)
      ensures name in old(table) ==> slots == old(slots) && version == old(version)
      ensures Advanced(old(version), old(history))
      ensures (slots == old(slots) || (fresh(slots) && version > old(version))) && (used == old(used) || fresh(used))
      ensures old(used.Length) <= used.Length && forall i :: 0 <= i < old(used.Length) && old(used[i]) ==> used[i]
    {
      hide Agree, Grown, Import, DeclaredType, IndexOf, Append, Distinct, Governs, TakenOver;
      ghost var before := layout.fields;
      AcceptedExactly(fits, before, inherited, name, v);
      var declared := layout.TypeOf(name, inherited);
      AgreeGrown(layout.fields, before, slots[..], used[..], count, table);
      if declared.Some? && !fits(declared.value, v) {
        return false;
      }
      ghost var middle := layout.fields;
      var k := layout.Ensure(name, inherited);
      AgreeGrown(layout.fields, middle, slots[..], used[..], count, table);
      GrownTwice(layout.fields, middle, before);
      if name in table {
        UsedSlot(layout.fields, slots[..], used[..], count, table, name);
      }
      Store(k, v);
      return true;
    }

    /** Room for all declared fields of a new instance, before anything is stored or any address handed out. */
    method Reserve(needed: nat)
      requires Valid()
      modifies this
      ensures Valid() && table == old(table) && slots.Length >= needed
      ensures (slots == old(slots) || fresh(slots)) && (used == old(used) || fresh(used))
    {
      ghost var slots0, used0 := slots[..], used[..];
      assert |slots0| == |used0|;
      hide Agree, Distinct;
      EnsureCapacity(needed);
      AgreeRoom(layout.fields, slots0, used0, slots[..], used[..], count, table);
      history := history[version := slots];
    }

    /** A new instance starts with the initial values of the fields declared so far; values of the wrong type are dropped. */
    method SetDefaults(fits: Typing, inherited: seq<FieldDecl>)
      requires Valid() && table == map[]
      modifies this, layout, slots, used
      ensures Valid() && Grown(layout.fields, old(layout.fields))
      ensures Started(fits, layout.fields, table, |layout.fields|)
      ensures TakenOver(layout.fields, old(layout.fields), if old(layout.fields) == [] then [] else inherited)
      ensures (slots == old(slots) || fresh(slots)) && (used == old(used) || fresh(used))
    {
      hide Agree, Grown, Import, IndexOf, Append, Distinct, Started, DeclaredType, Accepts, Covers, Fits, TakenOver;
      if |layout.fields| > 0 {
        Reserve(|layout.fields|);
      }
      StoreDefaults(fits, inherited);
    }

    /** The first i fields have their initial values; the inherited fields come into the layout with the first of them. */
    ghost predicate Storing(fits: Typing, start: seq<FieldDecl>, inherited: seq<FieldDecl>, i: nat)
      reads this, layout, slots, used
    {
      && Valid() && Distinct(start) && i <= |layout.fields|
      && layout.fields == (if i == 0 then start else Import(start, inherited))
      && (i > 0 ==> start != [])
      && Started(fits, layout.fields, table, i)
    }

    lemma StoringStarts(fits: Typing, inherited: seq<FieldDecl>)
      requires Valid() && table == map[]
      ensures Storing(fits, layout.fields, inherited, 0)
    {
      StartedNone(fits, layout.fields);
      hide Agree, Import;
    }

    lemma StoringEnds(fits: Typing, start: seq<FieldDecl>, inherited: seq<FieldDecl>)
      requires Storing(fits, start, inherited, |layout.fields|)
      ensures Valid() && Grown(layout.fields, start) && Started(fits, layout.fields, table, |layout.fields|)
      ensures TakenOver(layout.fields, start, if start == [] then [] else inherited)
    {
      GrownSelf(start);
      StartedLayout(start, inherited);
      hide Agree, Import, IndexOf, Started, TakenOver, Grown;
    }

    method StoreDefaults(fits: Typing, inherited: seq<FieldDecl>)
      requires Valid() && table == map[]
      modifies this, layout, slots, used
      ensures Valid() && Grown(layout.fields, old(layout.fields))
      ensures Started(fits, layout.fields, table, |layout.fields|)
      ensures TakenOver(layout.fields, old(layout.fields), if old(layout.fields) == [] then [] else inherited)
      ensures (slots == old(slots) || fresh(slots)) && (used == old(used) || fresh(used))
    {
      hide Valid, Storing, Grown, Started, TakenOver;
      ghost var start := layout.fields;
      StoringStarts(fits, inherited);
      var i := 0;
      while i < |layout.fields|
        invariant i <= |layout.fields| && Storing(fits, start, inherited, i)
        invariant (slots == old(slots) || fresh(slots)) && (used == old(used) || fresh(used))
        decreases if i == 0 then 1 else 0, |layout.fields| - i
      {
        StoreDefault(fits, start, inherited, i);
        i := i + 1;
      }
      StoringEnds(fits, start, inherited);
    }

    method StoreDefault(fits: Typing, ghost start: seq<FieldDecl>, inherited: seq<FieldDecl>, i: nat)
      requires Storing(fits, start, inherited, i) && i < |layout.fields|
      modifies this, layout, slots, used
      ensures Storing(fits, start, inherited, i + 1) && i < |layout.fields|
      ensures i > 0 ==> layout.fields == old(layout.fields)
      ensures (slots == old(slots) || fresh(slots)) && (used == old(used) || fresh(used))
    {
      hide Agree, Grown, Import, IndexOf, Append, Advanced, Started, DeclaredType, Accepts, Covers, Governs, TakenOver;
      ghost var before, tableBefore := layout.fields, table;
      var f := layout.fields[i];
      StartedLayout(start, inherited);
      AcceptedExactly(fits, before, inherited, f.name, f.initial);
      var _ := SetField(fits, f.name, f.initial, inherited);
      StartedOne(fits, layout.fields, before, table, tableBefore, inherited, i);
    }

    /** Reads a field: its slot if there is one in use, and else the table. */
    method GetField(name: string) returns (found: bool, v: Value)
      requires Valid()
      ensures found <==> name in table
      ensures found ==> v == table[name]
    {
      var hasIndex, k := layout.Find(name);
      if hasIndex && k < count && used[k] {
        return true, slots[k];
      }
      found, v := FindEntry(name);
    }

    method FindEntry(name: string) returns (found: bool, v: Value)
      ensures found <==> name in table
      ensures found ==> v == table[name]
    {
      found := name in table;
      v := if found then table[name] else Null;
    }

    /** The slot of a field: an address is the slot array and the position in it. */
    method GetSlot(name: string) returns (found: bool, k: nat)
      requires Valid()
      ensures found <==> name in table
      ensures found ==> k < |layout.fields| && k < slots.Length && layout.fields[k].name == name && used[k] && slots[k] == table[name]
    {
      found, k := layout.Find(name);
      found := found && k < count && used[k];
    }
  }

  // ----- cached access -----

  /** The cache of one access site for one member name. */
  class Cache {
    const member: string
    var owner: Instance?
    var version: nat
    var slot: array?<Value>
    var index: nat

    constructor (member: string)
      ensures this.member == member && owner == null && slot == null
    {
      this.member, owner, slot, version, index := member, null, null, 0, 0;
    }

    /** What is cached was the slot of the member when the owner had the cached version. */
    ghost predicate SoundUnder(fields: seq<FieldDecl>)
      reads this, owner, if owner == null then {} else {owner.used}
    {
      owner != null && slot != null ==>
        && version in owner.history && owner.history[version] == slot
        && index < |fields| && fields[index].name == member
        && index < owner.used.Length && owner.used[index]
    }

    ghost predicate Sound()
      reads this, owner, if owner == null then {} else {owner.layout, owner.used}
    {
      owner != null ==> SoundUnder(owner.layout.fields)
    }

    /** A read through the cache returns the current value of the member, whether it hits or not. */
    method Read(instance: Instance) returns (found: bool, v: Value)
      requires instance.Valid() && Sound() && (owner != null ==> owner.Valid())
      modifies this
      ensures Sound() && (owner != null ==> owner == instance || owner == old(owner))
      ensures found <==> member in instance.table
      ensures found ==> v == instance.table[member]
    {
      if owner == instance && version == instance.version && slot != null {
        return true, slot[index];
      }
      var k;
      found, k := instance.GetSlot(member);
      if !found {
        return false, Null;
      }
      owner, version, slot, index := instance, instance.version, instance.slots, k;
      return true, instance.slots[k];
    }

    /** The cached address is the slot of the member in this instance. */
    ghost predicate Current(instance: Instance)
      reads this, instance
    {
      owner == instance && version == instance.version && slot == instance.slots
    }

    /** After a write that missed, the slot is looked up again and cached. */
    method Refill(instance: Instance)
      requires instance.Valid() && Sound()
      modifies this
      ensures Sound() && (owner == old(owner) || owner == instance)
      ensures member in instance.table ==> Current(instance)
    {
      var found, k := instance.GetSlot(member);
      if found {
        owner, version, slot, index := instance, instance.version, instance.slots, k;
      }
    }
  }

  lemma GrownSelf(fields: seq<FieldDecl>)
    requires Distinct(fields)
    ensures Grown(fields, fields)
  {
  }

  ghost predicate Covers(fields: seq<FieldDecl>, source: seq<FieldDecl>) {
    forall i :: 0 <= i < |source| ==> IndexOf(fields, source[i].name) < |fields|
  }

  lemma {:induction false} ImportCovered(fields: seq<FieldDecl>, source: seq<FieldDecl>)
    requires Covers(fields, source)
    ensures Import(fields, source) == fields
    decreases |source|
  {
    if source != [] {
      ImportCovered(fields, source[1..]);
    }
  }

  lemma {:induction false} ImportCovers(fields: seq<FieldDecl>, source: seq<FieldDecl>)
    requires Distinct(fields)
    ensures Distinct(Import(fields, source)) && Covers(Import(fields, source), source)
    decreases |source|
  {
    if source != [] {
      AppendGrows(fields, source[0]);
      ImportCovers(Append(fields, source[0]), source[1..]);
      ImportGrows(Append(fields, source[0]), source[1..]);
      GrownKeepsIndex(Import(fields, source), Append(fields, source[0]), source[0].name);
      forall i | 0 <= i < |source| ensures IndexOf(Import(fields, source), source[i].name) < |Import(fields, source)| {
        if i > 0 {
          assert source[i] == source[1..][i - 1];
        }
      }
    }
  }

  /** The initial values of the first i fields are in the table, those of the right type, and nothing else is. */
  ghost predicate Started(fits: Typing, fields: seq<FieldDecl>, table: map<string, Value>, i: nat) {
    forall n :: StartedName(fits, fields, table, i, n)
  }

  ghost predicate StartedName(fits: Typing, fields: seq<FieldDecl>, table: map<string, Value>, i: nat, n: string) {
    var k := IndexOf(fields, n);
    && (n in table <==> k < i && k < |fields| && Accepts(fits, fields[k].declared, fields[k].initial))
    && (n in table ==> k < |fields| && table[n] == fields[k].initial)
  }

  lemma StartedNone(fits: Typing, fields: seq<FieldDecl>)
    ensures Started(fits, fields, map[], 0)
  {
  }

  /** Taking over twice is taking over once. */
  lemma StartedLayout(start: seq<FieldDecl>, inherited: seq<FieldDecl>)
    requires Distinct(start)
    ensures Covers(Import(start, inherited), inherited) && Import(Import(start, inherited), inherited) == Import(start, inherited)
    ensures TakenOver(start, start, []) && TakenOver(Import(start, inherited), start, inherited)
    ensures Grown(Import(start, inherited), start)
  {
    ImportGrows(start, inherited);
    ImportCovers(start, inherited);
    ImportCovered(Import(start, inherited), inherited);
    ImportTakenOver(start, inherited);
  }

  lemma StartedOne(fits: Typing, fields: seq<FieldDecl>, before: seq<FieldDecl>, table: map<string, Value>,
                   tableBefore: map<string, Value>, inherited: seq<FieldDecl>, i: nat)
    requires Distinct(before) && i < |before| && Started(fits, before, tableBefore, i)
    requires fields == Import(before, inherited) ||
             fields == Append(Import(Import(before, inherited), inherited), FieldDecl(before[i].name, None, Null))
    requires table == if Accepts(fits, DeclaredType(Import(before, inherited), before[i].name), before[i].initial)
                      then tableBefore[before[i].name := before[i].initial] else tableBefore
    ensures i < |fields| && Started(fits, fields, table, i + 1) && fields == Import(before, inherited)
    ensures Covers(fields, inherited) && (Covers(before, inherited) ==> fields == before)
  {
    var imported := Import(before, inherited);
    ImportGrows(before, inherited);
    ImportCovers(before, inherited);
    ImportCovered(imported, inherited);
    IndexUnique(before, i);
    GrownKeepsIndex(imported, before, before[i].name);
    assert fields == imported;
    if Covers(before, inherited) {
      ImportCovered(before, inherited);
    }
    StartedStep(fits, fields, before, table, tableBefore, i);
  }

  lemma StartedStep(fits: Typing, fields: seq<FieldDecl>, before: seq<FieldDecl>, table: map<string, Value>,
                    tableBefore: map<string, Value>, i: nat)
    requires Distinct(before) && Grown(fields, before) && before <= fields && i < |before| && Started(fits, before, tableBefore, i)
    requires table == if Accepts(fits, fields[i].declared, fields[i].initial)
                      then tableBefore[fields[i].name := fields[i].initial] else tableBefore
    ensures Started(fits, fields, table, i + 1)
  {
    hide Accepts;
    IndexUnique(fields, i);
    var j := i + 1;
    forall n ensures StartedName(fits, fields, table, j, n) {
      SameIndex(fields, before, n, i);
      assert StartedName(fits, before, tableBefore, i, n);
    }
  }

  /** Names found among the first fields are found at the same place. */
  lemma SameIndex(fields: seq<FieldDecl>, before: seq<FieldDecl>, n: string, i: nat)
    requires Distinct(before) && Grown(fields, before) && before <= fields && i < |before|
    ensures IndexOf(before, n) <= i || IndexOf(fields, n) <= i ==>
      IndexOf(fields, n) == IndexOf(before, n) && fields[IndexOf(fields, n)] == before[IndexOf(fields, n)]
    ensures IndexOf(fields, n) == i <==> fields[i].name == n
  {
    IndexUnique(fields, i);
    if IndexOf(before, n) < |before| {
      GrownKeepsIndex(fields, before, n);
    } else if IndexOf(fields, n) <= i {
      IndexUnique(before, IndexOf(fields, n));
    }
  }

  lemma GrownTwice(after: seq<FieldDecl>, middle: seq<FieldDecl>, before: seq<FieldDecl>)
    requires Grown(after, middle) && Grown(middle, before)
    ensures Grown(after, before)
  {
  }

  // ----- all instances of a class, and all caches -----

  /** The instances share the layout and nothing else. */
  ghost predicate Apart(layout: Layout, members: set<Instance>)
    reads members
  {
    && (forall x :: x in members ==> x.layout == layout)
    && (forall x, y :: x in members && y in members && x != y ==> x.slots != y.slots && x.used != y.used)
  }

  ghost predicate AllFit(members: set<Instance>, fields: seq<FieldDecl>)
    reads members, set x | x in members :: x.slots, set x | x in members :: x.used
  {
    forall x :: x in members ==> x.Fits(fields)
  }

  ghost predicate AllSound(members: set<Instance>, caches: set<Cache>, fields: seq<FieldDecl>)
    reads members, caches, set x | x in members :: x.used
  {
    forall c :: c in caches && c.owner != null ==> c.owner in members && c.SoundUnder(fields)
  }

  /** A growing layout disturbs nobody. */
  lemma Relayout(members: set<Instance>, caches: set<Cache>, after: seq<FieldDecl>, before: seq<FieldDecl>)
    requires AllFit(members, before) && AllSound(members, caches, before) && Grown(after, before)
    ensures AllFit(members, after) && AllSound(members, caches, after)
  {
    forall x | x in members ensures x.Fits(after) {
      x.StillFits(after, before);
    }
  }

  /** Any number of instances that share one layout, and any number of access sites that cache their slots. */
  class Population {
    const layout: Layout
    ghost var members: set<Instance>
    ghost var caches: set<Cache>

    ghost predicate Valid()
      reads this, layout, members, caches, set x | x in members :: x.slots, set x | x in members :: x.used
    {
      layout.Valid() && Apart(layout, members) && AllFit(members, layout.fields) && AllSound(members, caches, layout.fields)
    }

    constructor (layout: Layout)
      requires layout.Valid()
      ensures Valid() && this.layout == layout && members == {} && caches == {}
    {
      this.layout, members, caches := layout, {}, {};
    }

    /** A new access site, with nothing cached yet. */
    method AddSite(member: string) returns (c: Cache)
      requires Valid()
      modifies this
      ensures Valid() && fresh(c) && c.member == member && members == old(members) && caches == old(caches) + {c}
    {
      hide Instance.Fits, Cache.SoundUnder, Apart;
      c := new Cache(member);
      caches := caches + {c};
    }

    /** A new instance joins. */
    method Create(fits: Typing, inherited: seq<FieldDecl>) returns (x: Instance)
      requires Valid()
      modifies this, layout
      ensures Valid() && fresh(x) && members == old(members) + {x} && caches == old(caches)
      ensures Started(fits, layout.fields, x.table, |layout.fields|)
      ensures forall y :: y in old(members) ==> y.table == old(y.table)
    {
      hide Grown, Agree, Import, IndexOf, Append, Distinct, Started, Apart, AllFit, AllSound;
      ghost var before := layout.fields;
      x := new Instance.Empty(layout);
      x.SetDefaults(fits, inherited);
      Relayout(members, caches, layout.fields, before);
      Joined(layout, members, caches, x);
      members := members + {x};
    }

    /** Setting a field of one instance leaves every other instance and every cache in order. */
    method Set(x: Instance, fits: Typing, name: string, v: Value, inherited: seq<FieldDecl>) returns (ok: bool)
      requires Valid() && x in members
      modifies layout, x, x.slots, x.used
      ensures Valid()
      ensures ok <==> forall d :: Governs(d, old(layout.fields), inherited, name) && d.declared.Some? ==> fits(d.declared.value, v)
      ensures x.table == if ok then old(x.table)[name := v] else old(x.table)
      ensures name in old(x.table) ==> x.slots == old(x.slots) && x.version == old(x.version)
      ensures forall y :: y in members && y != x ==> y.table == old(y.table)
    {
      hide Grown, Agree, Import, DeclaredType, IndexOf, Append, Distinct;
      ghost var before := layout.fields;
      ok := x.SetField(fits, name, v, inherited);
      forall y | y in members ensures y.Fits(layout.fields) {
        if y != x {
          y.StillFits(layout.fields, before);
        }
      }
      forall c | c in caches && c.owner != null ensures c.SoundUnder(layout.fields) {
        IndexKept(layout.fields, before, c.index);
      }
    }

    /**
     * A write at an access site. One that finds its instance cached leaves the cache alone, one that does not caches the
     * slot written. Either way every cache stays in order, and the next access at this site finds its slot cached.
     */
    method Write(c: Cache, x: Instance, fits: Typing, v: Value, inherited: seq<FieldDecl>) returns (ok: bool)
      requires Valid() && c in caches && x in members
      modifies c, layout, x, x.slots, x.used
      ensures Valid()
      ensures ok <==> forall d :: Governs(d, old(layout.fields), inherited, c.member) && d.declared.Some? ==> fits(d.declared.value, v)
      ensures x.table == if ok then old(x.table)[c.member := v] else old(x.table)
      ensures forall y :: y in members && y != x ==> y.table == old(y.table)
      ensures ok ==> c.Current(x)
      ensures !ok ==> c.owner == old(c.owner) && c.version == old(c.version) && c.slot == old(c.slot)
    {
      hide Valid, Grown, Agree, Import, DeclaredType, IndexOf, Append, Distinct, Accepts;
      var hit := c.owner == x && c.version == x.version && c.slot != null;
      if hit {
        CachedSlot(c, x);
      }
      ok := Set(x, fits, c.member, v, inherited);
      if ok && !hit {
        Refill(c, x);
      }
    }

    /** What is cached under the current version is the slot of the member, and the member is there. */
    lemma CachedSlot(c: Cache, x: Instance)
      requires Valid() && c in caches && x in members && c.owner == x && c.version == x.version && c.slot != null
      ensures c.Current(x) && c.member in x.table
    {
      hide IndexOf, Apart, Distinct;
      assert x.Fits(layout.fields) && c.SoundUnder(layout.fields);
    }

    /** The site looks its slot up again. */
    method Refill(c: Cache, x: Instance)
      requires Valid() && c in caches && x in members
      modifies c
      ensures Valid()
      ensures c.member in x.table ==> c.Current(x)
    {
      hide Grown, Agree, IndexOf, Append, Distinct;
      c.Refill(x);
    }

    /** Declaring a field again may change its type and initial value, but no index. */
    method Redeclare(f: FieldDecl)
      requires Valid()
      modifies layout
      ensures Valid() && forall y :: y in members ==> y.table == old(y.table)
    {
      hide Grown, Agree, IndexOf, Append, Distinct, Apart, AllFit, AllSound;
      ghost var before := layout.fields;
      var _ := layout.Declare(f, true);
      Relayout(members, caches, layout.fields, before);
    }

    /** A read at an access site. */
    method Read(c: Cache, x: Instance) returns (found: bool, v: Value)
      requires Valid() && c in caches && x in members
      modifies c
      ensures Valid()
      ensures found <==> c.member in x.table
      ensures found ==> v == x.table[c.member]
    {
      hide Grown, Agree, IndexOf, Append, Distinct;
      found, v := c.Read(x);
    }
  }

  lemma Joined(layout: Layout, members: set<Instance>, caches: set<Cache>, x: Instance)
    requires Apart(layout, members) && AllFit(members, layout.fields) && AllSound(members, caches, layout.fields)
    requires x.layout == layout && x.Fits(layout.fields) && x !in members
    requires forall y :: y in members ==> x.slots != y.slots && x.used != y.used
    ensures Apart(layout, members + {x}) && AllFit(members + {x}, layout.fields)
    ensures AllSound(members + {x}, caches, layout.fields)
  {
    hide Instance.Fits, Cache.SoundUnder;
  }

  lemma IndexKept(after: seq<FieldDecl>, before: seq<FieldDecl>, i: nat)
    requires Grown(after, before)
    ensures i < |before| ==> i < |after| && after[i].name == before[i].name
  {
  }
}
