// Captured scopes and their reference counts: a state machine over the interleaved
// steps of many threads. A lock serialises the steps, so a run is a sequence of them.

module Snapshots {
  type Tid = nat

  /** A linked snapshot: its identity, the thread that made it, and its reference count. */
  datatype Cell = Cell(id: nat, owner: Tid, refs: int)

  /**
   * The chain of one root, newest first. `held` are the references somebody will still give back, `forgotten`
   * those that were lost when their holder was destroyed without giving them back.
   */
  datatype State = State(chain: seq<Cell>, held: multiset<nat>, forgotten: multiset<nat>, next: nat)

  datatype Event = Create(tid: Tid) | Retain(id: nat) | Release(id: nat) | Destroy(id: nat) | Sweep(tid: Tid)

  const EMPTY := State([], multiset{}, multiset{}, 0)

  function Ids(chain: seq<Cell>): set<nat> { set c | c in chain :: c.id }

  function Add(chain: seq<Cell>, id: nat, delta: int): seq<Cell> {
    if chain == [] then []
    else if chain[0].id == id then [chain[0].(refs := chain[0].refs + delta)] + chain[1..]
    else [chain[0]] + Add(chain[1..], id, delta)
  }

  /** What a sweep by this thread reclaims. */
  predicate Swept(c: Cell, tid: Tid) { c.owner == tid && c.refs <= 1 }

  function Keep(chain: seq<Cell>, tid: Tid): seq<Cell> {
    if chain == [] then []
    else if Swept(chain[0], tid) then Keep(chain[1..], tid)
    else [chain[0]] + Keep(chain[1..], tid)
  }

  /** What it reclaims, in the order of reclamation: last unlinked first. */
  function Reclaim(chain: seq<Cell>, tid: Tid): seq<Cell> {
    if chain == [] then []
    else Reclaim(chain[1..], tid) + if Swept(chain[0], tid) then [chain[0]] else []
  }

  /** Only linked snapshots can be retained, and only held references are given back or destroyed. */
  predicate Enabled(st: State, e: Event) {
    match e
    case Create(_) => true
    case Retain(id) => id in Ids(st.chain)
    case Release(id) => id in st.held
    case Destroy(id) => id in st.held
    case Sweep(_) => true
  }

  function Step(st: State, e: Event): State {
    match e
    case Create(tid) => st.(chain := [Cell(st.next, tid, 1)] + st.chain, next := st.next + 1)
    case Retain(id) => st.(chain := Add(st.chain, id, 1), held := st.held + multiset{id})
    case Release(id) => st.(chain := Add(st.chain, id, -1), held := st.held - multiset{id})
    case Destroy(id) => st.(held := st.held - multiset{id}, forgotten := st.forgotten + multiset{id})
    case Sweep(tid) => st.(chain := Keep(st.chain, tid))
  }

  ghost predicate Possible(st: State, run: seq<Event>)
    decreases |run|
  {
    run == [] || (Enabled(st, run[0]) && Possible(Step(st, run[0]), run[1..]))
  }

  ghost function After(st: State, run: seq<Event>): State
    decreases |run|
  {
    if run == [] then st else After(Step(st, run[0]), run[1..])
  }

  ghost predicate Distinct(chain: seq<Cell>) {
    forall i, j :: 0 <= i < j < |chain| ==> chain[i].id != chain[j].id
  }

  /** Every count is the chain's own reference plus one for every reference ever taken and not given back. */
  ghost predicate Counted(st: State) {
    && Distinct(st.chain)
    && CountsRight(st.chain, st.held, st.forgotten, st.next)
    && (forall id :: id in st.held || id in st.forgotten ==> id in Ids(st.chain))
  }

  ghost predicate CountsRight(chain: seq<Cell>, held: multiset<nat>, forgotten: multiset<nat>, next: nat) {
    forall c :: c in chain ==> c.id < next && c.refs == 1 + held[c.id] + forgotten[c.id]
  }

  lemma {:induction false} AddEntries(chain: seq<Cell>, id: nat, delta: int)
    requires Distinct(chain)
    ensures |Add(chain, id, delta)| == |chain|
    ensures forall i :: 0 <= i < |chain| ==>
      Add(chain, id, delta)[i] == if chain[i].id == id then chain[i].(refs := chain[i].refs + delta) else chain[i]
  {
    if chain != [] && chain[0].id != id {
      AddEntries(chain[1..], id, delta);
    }
  }

  lemma AddIds(chain: seq<Cell>, id: nat, delta: int)
    requires Distinct(chain)
    ensures Ids(Add(chain, id, delta)) == Ids(chain)
  {
    AddEntries(chain, id, delta);
    hide Add;
    var after := Add(chain, id, delta);
    forall x | x in Ids(chain) ensures x in Ids(after) {
      var i :| 0 <= i < |chain| && chain[i].id == x;
      assert after[i] in after;
    }
    forall x | x in Ids(after) ensures x in Ids(chain) {
      var i :| 0 <= i < |after| && after[i].id == x;
      assert chain[i] in chain;
    }
  }

  /** A sweep keeps exactly the other snapshots, in their order. */
  lemma {:induction false} KeepEntries(chain: seq<Cell>, tid: Tid)
    requires Distinct(chain)
    ensures forall c :: c in Keep(chain, tid) <==> c in chain && !Swept(c, tid)
    ensures Distinct(Keep(chain, tid))
  {
    if chain != [] {
      KeepEntries(chain[1..], tid);
      assert forall c :: c in chain <==> c == chain[0] || c in chain[1..];
      var rest := Keep(chain[1..], tid);
      forall j | 0 <= j < |rest| ensures rest[j].id != chain[0].id {
        assert rest[j] in rest;
      }
    }
  }

  lemma CountedStep(st: State, e: Event)
    requires Counted(st) && Enabled(st, e)
    ensures Counted(Step(st, e))
  {
    match e
    case Create(tid) => CountedCreate(st, tid);
    case Retain(id) => CountedAdd(st, id, 1);
    case Release(id) => CountedAdd(st, id, -1);
    case Destroy(id) =>
    case Sweep(tid) => CountedSweep(st, tid);
  }

  lemma CountedCreate(st: State, tid: Tid)
    requires Counted(st)
    ensures Counted(Step(st, Create(tid)))
  {
    var c := Cell(st.next, tid, 1);
    var chain := [c] + st.chain;
    assert forall i :: 0 < i < |chain| ==> chain[i] == st.chain[i - 1] && chain[i] in st.chain;
    assert Distinct(chain);
    assert Ids(chain) == {st.next} + Ids(st.chain);
    hide Ids, Distinct;
    assert st.next !in st.held && st.next !in st.forgotten;
  }

  lemma CountedAdd(st: State, id: nat, delta: int)
    requires Counted(st) && (if delta == 1 then id in Ids(st.chain) else delta == -1 && id in st.held)
    ensures Counted(Step(st, if delta == 1 then Retain(id) else Release(id)))
  {
    AddEntries(st.chain, id, delta);
    var chain := Add(st.chain, id, delta);
    assert Distinct(chain);
    AddIds(st.chain, id, delta);
    AddCounts(st.chain, st.held, st.forgotten, st.next, id, delta);
    hide Add, Distinct, Ids, CountsRight;
  }

  lemma AddCounts(chain: seq<Cell>, held: multiset<nat>, forgotten: multiset<nat>, next: nat, id: nat, delta: int)
    requires Distinct(chain) && CountsRight(chain, held, forgotten, next)
    requires delta == 1 || (delta == -1 && id in held)
    ensures CountsRight(Add(chain, id, delta), if delta == 1 then held + multiset{id} else held - multiset{id}, forgotten, next)
  {
    hide Add, Distinct;
    var after := if delta == 1 then held + multiset{id} else held - multiset{id};
    forall c | c in Add(chain, id, delta) ensures c.id < next && c.refs == 1 + after[c.id] + forgotten[c.id] {
      AddedCell(chain, id, delta, c);
      var b := c.(refs := if c.id == id then c.refs - delta else c.refs);
      assert b in chain;
    }
  }

  lemma AddedCell(chain: seq<Cell>, id: nat, delta: int, c: Cell)
    requires Distinct(chain) && c in Add(chain, id, delta)
    ensures c.(refs := if c.id == id then c.refs - delta else c.refs) in chain
  {
    AddEntries(chain, id, delta);
    var i :| 0 <= i < |chain| && Add(chain, id, delta)[i] == c;
    assert chain[i] in chain;
  }

  lemma CountedSweep(st: State, tid: Tid)
    requires Counted(st)
    ensures Counted(Step(st, Sweep(tid)))
  {
    KeepEntries(st.chain, tid);
    hide Keep;
    forall id | id in st.held || id in st.forgotten ensures id in Ids(Keep(st.chain, tid)) {
      var c :| c in st.chain && c.id == id;
      assert c.refs > 1 && c in Keep(st.chain, tid);
    }
  }

  /** The count is right in every state that any interleaving reaches. */
  lemma {:induction false} CountedAlways(st: State, run: seq<Event>)
    requires Counted(st) && Possible(st, run)
    ensures Counted(After(st, run))
    decreases |run|
  {
    hide Counted, Step, Enabled;
    if run != [] {
      CountedStep(st, run[0]);
      CountedAlways(Step(st, run[0]), run[1..]);
    }
  }

  /**
   * Safety and precision of sweeping, in every reachable state: what is held stays linked with a count of at least
   * one more than its holders, and a sweep removes a snapshot exactly if the calling thread made it and every
   * reference ever taken on it was given back.
   */
  lemma SweepExact(run: seq<Event>, tid: Tid)
    requires Possible(EMPTY, run)
    ensures
      var st := After(EMPTY, run);
      && (forall id :: id in st.held ==> id in Ids(Step(st, Sweep(tid)).chain))
      && (forall c :: c in st.chain ==> c.refs >= 1 + st.held[c.id])
      && (forall c :: c in st.chain ==>
            (c !in Step(st, Sweep(tid)).chain <==> c.owner == tid && c.id !in st.held && c.id !in st.forgotten))
  {
    assert Counted(EMPTY);
    CountedAlways(EMPTY, run);
    hide After;
    var st := After(EMPTY, run);
    CountedSweep(st, tid);
    KeepEntries(st.chain, tid);
  }

  /** A reference lost once keeps its snapshot linked for the rest of the run, whoever sweeps. */
  lemma {:induction false} LostForever(st: State, run: seq<Event>, id: nat)
    requires Counted(st) && Possible(st, run) && id in st.forgotten
    ensures id in Ids(After(st, run).chain) && id in After(st, run).forgotten
    decreases |run|
  {
    hide Counted, Enabled, Ids;
    if run != [] {
      CountedStep(st, run[0]);
      LostForever(Step(st, run[0]), run[1..], id);
    } else {
      LostLinked(st, id);
    }
  }

  lemma LostLinked(st: State, id: nat)
    requires Counted(st) && id in st.forgotten
    ensures id in Ids(st.chain)
  {
  }
}
