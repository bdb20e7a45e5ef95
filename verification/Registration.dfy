// Registering a batch of native functions: all or nothing, under every schedule of
// allocation failures.

module Registration {
  import opened Options

  datatype Status = Ok | InvalidArgument | Conflict | OutOfMemory

  /** A request; a missing name or function is a null pointer. */
  datatype Request = Request(name: Option<string>, fn: Option<nat>, userData: nat, flags: bv32)

  datatype Func = Func(name: string, fn: nat, userData: nat, flags: bv32)

  const FLAG_MASK: bv32 := 1

  predicate WellFormed(r: Request) { r.name.Some? && r.fn.Some? && r.flags & !FLAG_MASK == 0 }

  function FuncOf(r: Request): Func
    requires WellFormed(r)
  {
    Func(r.name.value, r.fn.value, r.userData, r.flags)
  }

  /** The functions visible from a chain of scopes, innermost first. */
  ghost predicate Visible(scopes: seq<Scope>, name: string)
    reads scopes
  {
    exists i :: 0 <= i < |scopes| && Holds(scopes[i].funcs, name)
  }

  ghost predicate Holds(funcs: seq<Func>, name: string) {
    exists k :: 0 <= k < |funcs| && funcs[k].name == name
  }

  /** The names of the first i requests. */
  ghost predicate Requested(batch: seq<Request>, i: nat, name: string) {
    exists j :: 0 <= j < i && j < |batch| && batch[j].name == Some(name)
  }

  /** Request i can be accepted after the ones before it. */
  ghost predicate Acceptable(batch: seq<Request>, scopes: seq<Scope>, i: nat)
    requires i < |batch|
    reads scopes
  {
    && WellFormed(batch[i])
    && !Visible(scopes, batch[i].name.value)
    && !Requested(batch, i, batch[i].name.value)
  }

  /** The verdict on a batch: that on the first request that cannot be accepted. */
  ghost function Verdict(batch: seq<Request>, scopes: seq<Scope>, i: nat): Status
    requires i <= |batch|
    reads scopes
    decreases |batch| - i
  {
    if i == |batch| then Ok
    else if !WellFormed(batch[i]) then InvalidArgument
    else if !Acceptable(batch, scopes, i) then Conflict
    else Verdict(batch, scopes, i + 1)
  }

  lemma {:induction false} VerdictOk(batch: seq<Request>, scopes: seq<Scope>, i: nat)
    requires i <= |batch|
    ensures Verdict(batch, scopes, i) == Ok <==> AllAcceptable(batch, scopes, i)
    ensures AllAcceptable(batch, scopes, i) ==> forall j :: i <= j < |batch| ==> WellFormed(batch[j])
    decreases |batch| - i
  {
    hide WellFormed;
    if i < |batch| {
      VerdictOk(batch, scopes, i + 1);
      assert AllAcceptable(batch, scopes, i) <==> Acceptable(batch, scopes, i) && AllAcceptable(batch, scopes, i + 1) by {
        if Acceptable(batch, scopes, i) && AllAcceptable(batch, scopes, i + 1) {
          forall j | i <= j < |batch| ensures Acceptable(batch, scopes, j) {
            assert j == i || i + 1 <= j;
          }
        }
      }
    }
  }

  /** A request without a name or a function, or with a flag other than the lowest. */
  ghost predicate Rejected(r: Request) { r.name.None? || r.fn.None? || (r.flags != 0 && r.flags != 1) }

  ghost predicate Taken(scopes: seq<Scope>, name: string)
    reads scopes
  {
    exists s, k :: 0 <= s < |scopes| && 0 <= k < |scopes[s].funcs| && scopes[s].funcs[k].name == name
  }

  /** The name of request i is taken, by a function in scope or by an earlier request. */
  ghost predicate Clashes(batch: seq<Request>, scopes: seq<Scope>, i: nat)
    requires i < |batch|
    reads scopes
  {
    || (batch[i].name.Some? && Taken(scopes, batch[i].name.value))
    || (batch[i].name.Some? && exists j :: 0 <= j < i && batch[j].name == batch[i].name)
  }

  lemma AcceptableExactly(batch: seq<Request>, scopes: seq<Scope>, i: nat)
    requires i < |batch|
    ensures WellFormed(batch[i]) <==> !Rejected(batch[i])
    ensures WellFormed(batch[i]) ==> (Acceptable(batch, scopes, i) <==> !Clashes(batch, scopes, i))
  {
    hide Taken, Visible;
    KnownFlags(batch[i].flags);
    if WellFormed(batch[i]) {
      VisibleExactly(scopes, batch[i].name.value);
      assert WellFormed(batch[i]) && batch[i].name.Some?;
    }
  }

  lemma KnownFlags(f: bv32)
    ensures f & !FLAG_MASK == 0 <==> f == 0 || f == 1
  {
  }

  lemma VisibleExactly(scopes: seq<Scope>, name: string)
    ensures Visible(scopes, name) <==> Taken(scopes, name)
  {
    if s, k :| 0 <= s < |scopes| && 0 <= k < |scopes[s].funcs| && scopes[s].funcs[k].name == name {
      assert Holds(scopes[s].funcs, name);
    }
  }

  /** The verdict speaks of the first request that is rejected or clashes: k, or the end if there is none. */
  lemma {:induction false} VerdictFirst(batch: seq<Request>, scopes: seq<Scope>, i: nat) returns (k: nat)
    requires i <= |batch|
    ensures i <= k <= |batch| && forall j :: i <= j < k ==> !Rejected(batch[j]) && !Clashes(batch, scopes, j)
    ensures k < |batch| ==> Rejected(batch[k]) || Clashes(batch, scopes, k)
    ensures Verdict(batch, scopes, i) == if k == |batch| then Ok else if Rejected(batch[k]) then InvalidArgument else Conflict
    decreases |batch| - i
  {
    hide WellFormed, Rejected, Clashes, Acceptable;
    k := i;
    if i < |batch| {
      AcceptableExactly(batch, scopes, i);
      if !Rejected(batch[i]) && !Clashes(batch, scopes, i) {
        k := VerdictFirst(batch, scopes, i + 1);
      }
    }
  }

  ghost predicate AllAcceptable(batch: seq<Request>, scopes: seq<Scope>, i: nat)
    reads scopes
  {
    forall j :: i <= j < |batch| ==> Acceptable(batch, scopes, j)
  }

  /** One of the next n allocations fails. */
  ghost predicate Faulty(fails: nat -> bool, start: nat, n: nat) {
    exists k: nat :: start <= k < start + n && fails(k)
  }

  class Scope {
    var funcs: seq<Func>

    constructor ()
      ensures funcs == []
    {
      funcs := [];
    }
  }

  /** The heap: which allocation comes next, and how many blocks are in use. */
  class Heap {
    const fails: nat -> bool
    var next: nat
    var live: nat

    constructor (fails: nat -> bool)
      ensures this.fails == fails && next == 0 && live == 0
    {
      this.fails, next, live := fails, 0, 0;
    }

    method Allocate() returns (ok: bool)
      modifies this
      ensures ok <==> !fails(old(next))
      ensures next == old(next) + 1 && live == if ok then old(live) + 1 else old(live)
    {
      ok := !fails(next);
      next := next + 1;
      if ok {
        live := live + 1;
      }
    }

    method Free()
      requires live > 0
      modifies this`live
      ensures live == old(live) - 1
    {
      live := live - 1;
    }
  }

  method HasFunc(scopes: seq<Scope>, name: string) returns (has: bool)
    ensures has <==> Visible(scopes, name)
  {
    var i := 0;
    while i < |scopes|
      invariant 0 <= i <= |scopes| && forall j :: 0 <= j < i ==> !Holds(scopes[j].funcs, name)
    {
      var funcs, k := scopes[i].funcs, 0;
      while k < |funcs|
        invariant 0 <= k <= |funcs| && forall j :: 0 <= j < k ==> funcs[j].name != name
      {
        if funcs[k].name == name {
          return true;
        }
        k := k + 1;
      }
      i := i + 1;
    }
    return false;
  }

  /** Looks at every request before anything is allocated. */
  method Check(batch: seq<Request>, scopes: seq<Scope>) returns (status: Status)
    ensures status == Verdict(batch, scopes, 0)
  {
    var i := 0;
    while i < |batch|
      invariant 0 <= i <= |batch| && Verdict(batch, scopes, 0) == Verdict(batch, scopes, i)
    {
      if !WellFormed(batch[i]) {
        return InvalidArgument;
      }
      var name := batch[i].name.value;
      var has := HasFunc(scopes, name);
      if has {
        return Conflict;
      }
      var j := 0;
      while j < i
        invariant 0 <= j <= i && forall k :: 0 <= k < j ==> batch[k].name != Some(name)
      {
        if batch[j].name == Some(name) {
          return Conflict;
        }
        j := j + 1;
      }
      i := i + 1;
    }
    return Ok;
  }

  /** The new functions in front of the old ones, the last request first. */
  ghost function Pushed(batch: seq<Request>, n: nat): seq<Func>
    requires n <= |batch| && forall i :: 0 <= i < n ==> WellFormed(batch[i])
  {
    if n == 0 then [] else [FuncOf(batch[n - 1])] + Pushed(batch, n - 1)
  }

  /** Gives back the node and the name of every pending function. */
  method FreePending(heap: Heap, pending: seq<Func>)
    requires heap.live >= 2 * |pending|
    modifies heap`live
    ensures heap.live == old(heap.live) - 2 * |pending|
  {
    var i := 0;
    while i < |pending|
      invariant 0 <= i <= |pending| && heap.live == old(heap.live) - 2 * i
    {
      heap.Free();
      heap.Free();
      i := i + 1;
    }
  }

  /**
   * Registers a batch in the innermost scope. Any status but Ok leaves every scope as it was and every block given
   * back; the status is that of the first request that cannot be accepted, and else depends on whether one of the
   * 2 * n allocations fails.
   */
  method Register(scopes: seq<Scope>, heap: Heap, batch: seq<Request>) returns (status: Status)
    requires scopes != []
    modifies scopes[0], heap
    ensures status == old(
      if Verdict(batch, scopes, 0) != Ok then Verdict(batch, scopes, 0)
      else if Faulty(heap.fails, heap.next, 2 * |batch|) then OutOfMemory
      else Ok)
    ensures status != Ok ==> scopes[0].funcs == old(scopes[0].funcs) && heap.live == old(heap.live)
    ensures status == Ok ==> old(AllAcceptable(batch, scopes, 0))
    ensures status == Ok ==>
      && (forall i :: 0 <= i < |batch| ==> WellFormed(batch[i]))
      && scopes[0].funcs == Pushed(batch, |batch|) + old(scopes[0].funcs) && heap.live == old(heap.live) + 2 * |batch|
  {
    hide WellFormed, Acceptable, Verdict, FuncOf, AllAcceptable;
    status := Check(batch, scopes);
    VerdictOk(batch, scopes, 0);
    if status != Ok {
      return;
    }
    ghost var start := heap.next;
    var pending: seq<Func> := [];
    var i := 0;
    while i < |batch|
      invariant 0 <= i <= |batch| && pending == Pushed(batch, i) && |pending| == i
      invariant heap.next == start + 2 * i && heap.live == old(heap.live) + 2 * i
      invariant !Faulty(heap.fails, start, 2 * i)
      invariant scopes[0].funcs == old(scopes[0].funcs)
    {
      var node := heap.Allocate();
      if !node {
        FreePending(heap, pending);
        return OutOfMemory;
      }
      var name := heap.Allocate();
      if !name {
        heap.Free();
        FreePending(heap, pending);
        return OutOfMemory;
      }
      pending := [FuncOf(batch[i])] + pending;
      i := i + 1;
    }
    scopes[0].funcs := pending + scopes[0].funcs;
  }

  lemma {:induction false} PushedAt(batch: seq<Request>, n: nat, j: nat)
    requires n <= |batch| && j < n && forall i :: 0 <= i < n ==> WellFormed(batch[i])
    ensures |Pushed(batch, n)| == n
    ensures
      var r, f := batch[n - 1 - j], Pushed(batch, n)[j];
      r.name == Some(f.name) && r.fn == Some(f.fn) && f.userData == r.userData && f.flags == r.flags
  {
    assert Pushed(batch, n) == [FuncOf(batch[n - 1])] + Pushed(batch, n - 1);
    assert WellFormed(batch[n - 1]);
    if j > 0 {
      PushedAt(batch, n - 1, j - 1);
    } else {
      PushedLength(batch, n);
    }
  }

  lemma {:induction false} PushedLength(batch: seq<Request>, n: nat)
    requires n <= |batch| && forall i :: 0 <= i < n ==> WellFormed(batch[i])
    ensures |Pushed(batch, n)| == n
  {
    hide WellFormed, FuncOf;
    if n > 0 {
      PushedLength(batch, n - 1);
    }
  }

  ghost predicate DistinctNames(funcs: seq<Func>) {
    forall i, j :: 0 <= i < j < |funcs| ==> funcs[i].name != funcs[j].name
  }

  /** A name never means two functions of one scope, however many batches are registered. */
  lemma NamesStayDistinct(batch: seq<Request>, scopes: seq<Scope>)
    requires scopes != [] && AllAcceptable(batch, scopes, 0) && DistinctNames(scopes[0].funcs)
    ensures forall i :: 0 <= i < |batch| ==> WellFormed(batch[i])
    ensures DistinctNames(Pushed(batch, |batch|) + scopes[0].funcs)
  {
    VerdictOk(batch, scopes, 0);
    var n, old' := |batch|, scopes[0].funcs;
    var all := Pushed(batch, n) + old';
    PushedLength(batch, n);
    forall i, j | 0 <= i < j < |all| ensures all[i].name != all[j].name {
      if i < n {
        PushedAt(batch, n, i);
        assert Acceptable(batch, scopes, n - 1 - i);
        if j < n {
          PushedAt(batch, n, j);
        } else {
          assert all[j] == old'[j - n];
          assert Holds(old', old'[j - n].name);
        }
      }
    }
  }
}
