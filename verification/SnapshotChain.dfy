// The chain of captured scopes as the runtime keeps it: a linked list threaded through
// the snapshots themselves, with the counts stored in them. Every operation is proved to
// be a step of the state machine in module Snapshots.

module SnapshotChain {
  import opened Snapshots

  class Snapshot {
    var next: Snapshot?
    var refs: int
    const owner: Tid
    const id: nat

    constructor (id: nat, owner: Tid)
      ensures next == null && refs == 1 && this.owner == owner && this.id == id
    {
      this.next, this.refs, this.owner, this.id := null, 1, owner, id;
    }
  }

  /** Who holds the captured scope of a function value. */
  datatype Ownership = Owned | Borrowed

  datatype FunctionValue = FunctionValue(ownership: Ownership, captured: Snapshot)

  /** These snapshots, each once, linked in this order from head to end. */
  ghost predicate Segment(head: Snapshot?, s: seq<Snapshot>, end: Snapshot?)
    reads s`next
  {
    if s == [] then head == end
    else head == s[0] && s[0] !in s[1..] && Segment(s[0].next, s[1..], end)
  }

  /** What the counts of these snapshots say. */
  ghost predicate Shows(cells: seq<Cell>, s: seq<Snapshot>)
    reads s`refs
  {
    |cells| == |s| && forall i :: 0 <= i < |s| ==> cells[i] == Cell(s[i].id, s[i].owner, s[i].refs)
  }

  lemma SegmentCons(s: Snapshot, rest: seq<Snapshot>, end: Snapshot?)
    requires Segment(s.next, rest, end) && s !in rest
    ensures Segment(s, [s] + rest, end)
  {
    assert ([s] + rest)[1..] == rest;
  }

  lemma {:induction false} SegmentJoin(head: Snapshot?, s: seq<Snapshot>, mid: Snapshot?, t: seq<Snapshot>, end: Snapshot?)
    requires Segment(head, s, mid) && Segment(mid, t, end) && forall x :: x in s ==> x !in t
    ensures Segment(head, s + t, end)
  {
    if s == [] {
      assert s + t == t;
    } else {
      SegmentJoin(s[0].next, s[1..], mid, t, end);
      assert (s + t)[1..] == s[1..] + t;
    }
  }

  lemma ShowsCons(cells: seq<Cell>, rest: seq<Snapshot>, s: Snapshot)
    requires Shows(cells, rest)
    ensures Shows([Cell(s.id, s.owner, s.refs)] + cells, [s] + rest)
  {
  }

  /** The same, but for the count of one snapshot. */
  ghost predicate ShowsBut(cells: seq<Cell>, s: seq<Snapshot>, x: Snapshot, refs: int)
    reads set y | y in s && y != x
  {
    |cells| == |s| && forall i :: 0 <= i < |s| ==> cells[i] == Cell(s[i].id, s[i].owner, if s[i] == x then refs else s[i].refs)
  }

  lemma ShowsAllBut(cells: seq<Cell>, s: seq<Snapshot>, x: Snapshot)
    requires Shows(cells, s)
    ensures ShowsBut(cells, s, x, x.refs)
  {
  }

  lemma ShowsAdjusted(cells: seq<Cell>, s: seq<Snapshot>, x: Snapshot, refs: int)
    requires x in s && Distinct(cells) && ShowsBut(cells, s, x, refs)
    ensures Shows(Add(cells, x.id, x.refs - refs), s)
  {
    var delta := x.refs - refs;
    AddEntries(cells, x.id, delta);
    var k :| 0 <= k < |s| && s[k] == x;
    forall i | 0 <= i < |s| ensures Add(cells, x.id, delta)[i] == Cell(s[i].id, s[i].owner, s[i].refs) {
      assert i < k ==> cells[i].id != cells[k].id;
      assert k < i ==> cells[k].id != cells[i].id;
    }
  }

  lemma Linked(st: State, s: seq<Snapshot>, x: Snapshot)
    requires Counted(st) && Shows(st.chain, s) && x in s
    ensures Distinct(st.chain) && x.id in Ids(st.chain) && x.refs == 1 + st.held[x.id] + st.forgotten[x.id]
  {
    var i :| 0 <= i < |s| && s[i] == x;
    assert st.chain[i] in st.chain;
  }

  lemma ShowsSnoc(cells: seq<Cell>, s: seq<Snapshot>, x: Snapshot)
    requires Shows(cells, s)
    ensures Shows(cells + [Cell(x.id, x.owner, x.refs)], s + [x])
  {
  }

  /** The snapshots a sweep has kept, still has to visit, and has unlinked, and what their counts say. */
  datatype Walk = Walk(kept: seq<Snapshot>, rest: seq<Snapshot>, gone: seq<Snapshot>,
                       keptCells: seq<Cell>, restCells: seq<Cell>, goneCells: seq<Cell>)

  ghost function Visit(w: Walk, tid: Tid): Walk
    requires w.rest != [] && w.restCells != []
  {
    var x, c := w.rest[0], w.restCells[0];
    var v := w.(rest := w.rest[1..], restCells := w.restCells[1..]);
    if Swept(c, tid) then v.(gone := [x] + v.gone, goneCells := [c] + v.goneCells)
    else v.(kept := v.kept + [x], keptCells := v.keptCells + [c])
  }

  ghost predicate Sorted(w: Walk, all: seq<Cell>, tid: Tid) {
    Keep(all, tid) == w.keptCells + Keep(w.restCells, tid) && Reclaim(all, tid) == Reclaim(w.restCells, tid) + w.goneCells
  }

  ghost predicate Within(w: Walk, chain: seq<Snapshot>) {
    && (forall x :: x in w.kept ==> x in chain)
    && (forall x :: x in w.rest ==> x in chain)
    && (forall x :: x in w.gone ==> x in chain)
  }

  lemma SweepCells(w: Walk, all: seq<Cell>, tid: Tid)
    requires w.rest != [] && w.restCells != [] && Sorted(w, all, tid)
    ensures Sorted(Visit(w, tid), all, tid)
  {
    var kept, rest, gone := w.keptCells, w.restCells, w.goneCells;
    var c, keep, reclaim := rest[0], Keep(rest[1..], tid), Reclaim(rest[1..], tid);
    assert Keep(rest, tid) == if Swept(c, tid) then keep else [c] + keep;
    assert Reclaim(rest, tid) == reclaim + if Swept(c, tid) then [c] else [];
    hide Keep, Reclaim, Swept;
    assert kept + ([c] + keep) == (kept + [c]) + keep;
    assert (reclaim + [c]) + gone == reclaim + ([c] + gone);
    assert reclaim + [] == reclaim;
  }

  lemma HeadFacts(head: Snapshot, s: seq<Snapshot>)
    requires Segment(head, s, null)
    ensures s != [] && s[0] == head && head in s && head !in s[1..] && Segment(head.next, s[1..], null)
  {
  }

  lemma EndFacts(s: seq<Snapshot>)
    requires Segment(null, s, null)
    ensures s == []
  {
  }

  class Root {
    var next: Snapshot?
    var made: nat
    ghost var spine: seq<Snapshot>
    ghost var cells: seq<Cell>
    ghost var held: multiset<nat>
    ghost var forgotten: multiset<nat>

    ghost function View(): State
      reads this
    {
      State(cells, held, forgotten, made)
    }

    ghost predicate Valid()
      reads this, spine
    {
      Segment(next, spine, null) && Shows(cells, spine) && Counted(View())
    }

    constructor ()
      ensures Valid() && View() == EMPTY
    {
      next, made, spine, cells, held, forgotten := null, 0, [], [], multiset{}, multiset{};
    }

    /** Links a new snapshot at the head of the chain. */
    method Create(tid: Tid) returns (s: Snapshot)
      requires Valid()
      modifies this
      ensures Valid() && View() == Step(old(View()), Snapshots.Create(tid))
      ensures fresh(s) && spine == [s] + old(spine)
    {
      hide Counted, Segment, Shows;
      CountedStep(View(), Snapshots.Create(tid));
      s := new Snapshot(made, tid);
      s.next := next;
      SegmentCons(s, spine, null);
      ShowsCons(cells, spine, s);
      next := s;
      made := made + 1;
      spine, cells := [s] + spine, [Cell(s.id, tid, 1)] + cells;
    }

    method Retain(s: Snapshot)
      requires Valid() && s in spine
      modifies this`cells, this`held, s`refs
      ensures Valid() && View() == Step(old(View()), Snapshots.Retain(s.id)) && spine == old(spine)
    {
      hide Counted, Segment, Shows, ShowsBut, Ids, Distinct, Add;
      ghost var refs := s.refs;
      ShowsAllBut(cells, spine, s);
      Linked(View(), spine, s);
      CountedStep(View(), Snapshots.Retain(s.id));
      if s.refs > 0 {
        s.refs := s.refs + 1;
      }
      ShowsAdjusted(cells, spine, s, refs);
      cells, held := Add(cells, s.id, 1), held + multiset{s.id};
    }

    method Release(s: Snapshot)
      requires Valid() && s in spine && s.id in held
      modifies this`cells, this`held, s`refs
      ensures Valid() && View() == Step(old(View()), Snapshots.Release(s.id)) && spine == old(spine)
    {
      hide Counted, Segment, Shows, ShowsBut, Ids, Distinct, Add;
      ghost var refs := s.refs;
      ShowsAllBut(cells, spine, s);
      Linked(View(), spine, s);
      CountedStep(View(), Snapshots.Release(s.id));
      if s.refs <= 0 {
        return;
      }
      s.refs := s.refs - 1;
      ShowsAdjusted(cells, spine, s, refs);
      cells, held := Add(cells, s.id, -1), held - multiset{s.id};
    }

    /** A stored value that is replaced gives back the reference it owns. */
    method ReleaseStored(value: FunctionValue)
      requires Valid() && value.captured in spine && (value.ownership.Owned? ==> value.captured.id in held)
      modifies this`cells, this`held, value.captured`refs
      ensures Valid() && spine == old(spine)
      ensures View() == if value.ownership.Owned? then Step(old(View()), Snapshots.Release(value.captured.id)) else old(View())
    {
      if value.ownership == Owned {
        Release(value.captured);
      }
    }

    /** Destroying a value marks it as borrowed before asking whether it owns a reference. */
    method DestroyValue(value: FunctionValue)
      requires Valid() && value.captured in spine && (value.ownership.Owned? ==> value.captured.id in held)
      modifies this`cells, this`held, this`forgotten, value.captured`refs
      ensures Valid() && spine == old(spine)
      ensures View() == if value.ownership.Owned? then Step(old(View()), Destroy(value.captured.id)) else old(View())
    {
      hide Counted, Segment, Shows;
      if value.ownership.Owned? {
        CountedStep(View(), Destroy(value.captured.id));
        held, forgotten := held - multiset{value.captured.id}, forgotten + multiset{value.captured.id};
      }
      ReleaseStored(value.(ownership := Borrowed));
    }

    /** A sweep under way: the part kept so far, the part still to visit, and the part unlinked. */
    ghost predicate Sweeping(prev: Snapshot?, current: Snapshot?, swept: Snapshot?,
                             kept: seq<Snapshot>, rest: seq<Snapshot>, gone: seq<Snapshot>)
      reads this, kept, rest, gone
    {
      && (if kept == [] then prev == null && next == current
          else
            var k := |kept| - 1;
            prev == kept[k] && prev !in kept[..k] && Segment(next, kept[..k], prev) && kept[k].next == current)
      && Segment(current, rest, null) && Segment(swept, gone, null)
      && Apart(kept, rest, gone)
    }

    lemma Passed(prev: Snapshot?, current: Snapshot, swept: Snapshot?,
                 kept: seq<Snapshot>, rest: seq<Snapshot>, gone: seq<Snapshot>)
      requires Sweeping(prev, current, swept, kept, rest, gone)
      ensures rest != [] && rest[0] == current
      ensures Sweeping(current, current.next, swept, kept + [current], rest[1..], gone)
    {
      var k := |kept| - 1;
      assert (kept + [current])[..k + 1] == kept;
      if kept != [] {
        assert Segment(prev, [prev], current) by {
          assert [prev][1..] == [];
        }
        SegmentJoin(next, kept[..k], prev, [prev], current);
        assert kept == kept[..k] + [prev];
      }
    }

    /** Takes the current snapshot out of the chain and puts it in front of those already taken out. */
    method Unlink(prev: Snapshot?, current: Snapshot, swept: Snapshot?,
                  ghost kept: seq<Snapshot>, ghost rest: seq<Snapshot>, ghost gone: seq<Snapshot>,
                  ghost all: seq<Snapshot>)
      requires Sweeping(prev, current, swept, kept, rest, gone)
      requires current in all && (prev != null ==> prev in all)
      modifies this`next, all`next
      ensures rest != [] && rest[0] == current
      ensures Sweeping(prev, old(current.next), current, kept, rest[1..], [current] + gone)
    {
      ghost var k, tail := |kept| - 1, rest[1..];
      ghost var after := current.next;
      assert current !in tail && current !in kept && current !in gone && Segment(after, tail, null);
      assert kept != [] ==> prev in kept && prev !in tail && prev !in gone && forall x :: x in kept[..k] ==> x in kept;
      if prev == null {
        next := current.next;
      } else {
        prev.next := current.next;
      }
      current.next := swept;
      assert Segment(after, tail, null);
      assert Segment(swept, gone, null);
      SegmentCons(current, gone, null);
    }

    /** The chain after a sweep is what the walk kept. */
    lemma SweepEnds(prev: Snapshot?, swept: Snapshot?, kept: seq<Snapshot>, rest: seq<Snapshot>, gone: seq<Snapshot>)
      requires Sweeping(prev, null, swept, kept, rest, gone)
      ensures rest == [] && Segment(next, kept, null) && Segment(swept, gone, null) && forall x :: x in gone ==> x !in kept
    {
      if kept != [] {
        var k := |kept| - 1;
        assert Segment(prev, [prev], null) by {
          assert [prev][1..] == [];
        }
        SegmentJoin(next, kept[..k], prev, [prev], null);
        assert kept == kept[..k] + [prev];
      }
    }

    /** Everything a sweep knows between two snapshots. */
    ghost predicate Walking(prev: Snapshot?, current: Snapshot?, swept: Snapshot?, w: Walk, tid: Tid)
      reads this, w.kept, w.rest, w.gone
    {
      && Sweeping(prev, current, swept, w.kept, w.rest, w.gone)
      && Shows(w.keptCells, w.kept) && Shows(w.restCells, w.rest) && Shows(w.goneCells, w.gone)
      && Sorted(w, cells, tid) && Within(w, spine)
    }

    lemma Visited(prev: Snapshot?, current: Snapshot, swept: Snapshot?, w: Walk, tid: Tid)
      requires Walking(prev, current, swept, w, tid)
      ensures prev != null ==> prev in spine
      ensures w.rest != [] && w.rest[0] == current && current in spine
      ensures w.restCells != [] && Shows(w.restCells[1..], w.rest[1..])
      ensures w.restCells[0] == Cell(current.id, current.owner, current.refs)
      ensures Sorted(Visit(w, tid), cells, tid) && Within(Visit(w, tid), spine)
    {
      SweepCells(w, cells, tid);
      hide Reclaim, Keep, Segment;
      forall x | x in w.rest[1..] ensures x in spine {
        assert x in w.rest;
      }
    }

    lemma WalkPast(prev: Snapshot?, current: Snapshot, swept: Snapshot?, w: Walk, tid: Tid)
      requires Walking(prev, current, swept, w, tid) && !(current.owner == tid && current.refs <= 1)
      ensures w.rest != [] && w.restCells != [] && Walking(current, current.next, swept, Visit(w, tid), tid)
    {
      Visited(prev, current, swept, w, tid);
      hide Segment, Shows, Sorted, Within, Sweeping;
      ShowsSnoc(w.keptCells, w.kept, current);
      Passed(prev, current, swept, w.kept, w.rest, w.gone);
    }

    method TakeOut(prev: Snapshot?, current: Snapshot, swept: Snapshot?, ghost w: Walk, tid: Tid)
      requires Walking(prev, current, swept, w, tid) && current.owner == tid && current.refs <= 1
      modifies this`next, spine`next
      ensures w.rest != [] && w.restCells != [] && Walking(prev, old(current.next), current, Visit(w, tid), tid)
    {
      Visited(prev, current, swept, w, tid);
      hide Segment, Shows, Sorted, Within, Sweeping;
      ShowsCons(w.goneCells, w.gone, current);
      Unlink(prev, current, swept, w.kept, w.rest, w.gone, spine);
    }

    lemma WalkStarts(tid: Tid)
      requires Valid()
      ensures Walking(null, next, null, Walk([], spine, [], [], cells, []), tid)
    {
    }

    lemma WalkEnds(prev: Snapshot?, swept: Snapshot?, w: Walk, tid: Tid)
      requires Walking(prev, null, swept, w, tid)
      ensures w.rest == [] && Segment(next, w.kept, null) && Segment(swept, w.gone, null)
      ensures (forall x :: x in w.gone ==> x !in w.kept) && Within(w, spine)
      ensures Keep(cells, tid) == w.keptCells && Shows(w.keptCells, w.kept) && Shows(Reclaim(cells, tid), w.gone)
    {
      SweepEnds(prev, swept, w.kept, w.rest, w.gone);
      hide Segment;
      assert w.restCells == [] && Keep([], tid) == [] && Reclaim([], tid) == [];
    }

    /** Unlinks, under the lock, what the thread may reclaim. */
    method UnlinkAll(tid: Tid) returns (swept: Snapshot?, ghost gone: seq<Snapshot>)
      requires Valid()
      modifies this, spine`next
      ensures Valid() && View() == Step(old(View()), Snapshots.Sweep(tid))
      ensures Segment(swept, gone, null) && Shows(Reclaim(old(cells), tid), gone)
      ensures forall x :: x in gone ==> x in old(spine) && x !in spine
      ensures forall x :: x in spine ==> x in old(spine)
    {
      hide Counted, Segment, Shows, Walking;
      CountedStep(View(), Snapshots.Sweep(tid));
      WalkStarts(tid);
      var prev: Snapshot?, current := null, next;
      swept := null;
      ghost var w := Walk([], spine, [], [], cells, []);
      while current != null
        invariant Walking(prev, current, swept, w, tid)
        invariant cells == old(cells) && held == old(held) && forgotten == old(forgotten) && made == old(made) && spine == old(spine)
        decreases |w.rest|
      {
        if current.owner == tid && current.refs <= 1 {
          var after := current.next;
          TakeOut(prev, current, swept, w, tid);
          swept, current := current, after;
        } else {
          WalkPast(prev, current, swept, w, tid);
          prev, current := current, current.next;
        }
        w := Visit(w, tid);
      }
      WalkEnds(prev, swept, w, tid);
      gone := w.gone;
      spine, cells := w.kept, w.keptCells;
    }

    /** Unlinks what the thread may reclaim, then frees it outside the lock, the last unlinked first. */
    method Sweep(tid: Tid) returns (freed: seq<Snapshot>)
      requires Valid()
      modifies this, spine`next
      ensures Valid() && View() == Step(old(View()), Snapshots.Sweep(tid))
      ensures Shows(Reclaim(old(cells), tid), freed)
    {
      hide Counted, Segment, Shows;
      ghost var chain := spine;
      var swept, gone := UnlinkAll(tid);
      freed := FreeAll(swept, gone, chain);
    }
  }

  /** Frees unlinked snapshots from the head on. */
  method FreeAll(head: Snapshot?, ghost gone: seq<Snapshot>, ghost chain: seq<Snapshot>) returns (freed: seq<Snapshot>)
    requires Segment(head, gone, null) && forall x :: x in gone ==> x in chain
    modifies chain`next
    ensures freed == gone
    ensures forall x: Snapshot :: x in chain && x !in gone ==> x.next == old(x.next)
  {
    hide Segment;
    freed := [];
    var swept := head;
    ghost var left := gone;
    while swept != null
      invariant Segment(swept, left, null) && freed + left == gone && forall x :: x in left ==> x in gone
      invariant forall x: Snapshot :: x in chain && x !in gone ==> x.next == old(x.next)
      decreases |left|
    {
      HeadFacts(swept, left);
      ghost var tail := left[1..];
      var closure := swept;
      swept := closure.next;
      closure.next := null;
      freed := freed + [closure];
      left := tail;
    }
    EndFacts(left);
    assert freed == gone;
  }

  ghost predicate Apart(kept: seq<Snapshot>, rest: seq<Snapshot>, gone: seq<Snapshot>) {
    && (forall x :: x in kept ==> x !in rest && x !in gone)
    && (forall x :: x in rest ==> x !in gone)
  }
}
