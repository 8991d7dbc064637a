/**
 Wasm linear memories on one budget. A budgeted memory charges its size; a plain one, of an
 engine without budgeted tunables, charges nothing. A memory may have several handles (clones
 of a shared memory); they share one charge, which is released when the last handle is
 dropped. The backend memory is a contract: what it answers is a parameter. Other users of
 the same pool charge and uncharge beside the memories.
 */
module BudgetedMemories {
  import opened Basics
  import opened ChargeSteps
  import opened SharedBudget

  const PAGE: nat := 0x1_0000

  /** One allocation: its size and maximum in pages, whether its size is charged, the bytes
      charged for it, and its handles. */
  datatype Memory = Memory(pages: nat, maximum: nat, budgeted: bool, bytes: nat, handles: nat)

  /** Round up to whole pages, saturating at the largest 64-bit number. */
  function RoundUpToPage(bytes: nat): nat {
    var up := (bytes + PAGE - 1) / PAGE * PAGE;
    if up < U64 then up else U64 - 1
  }

  lemma RoundsUp(bytes: nat)
    requires bytes < U64
    ensures bytes <= RoundUpToPage(bytes) < bytes + PAGE
  {
  }

  /** What `pages` of this memory cost. */
  function Cost(m: Memory, pages: nat): nat { if m.budgeted then pages * PAGE else 0 }

  /** What is to be charged for a memory as it is. */
  function Charged(m: Memory): nat { if m.handles > 0 then Cost(m, m.pages) else 0 }

  ghost predicate MemoryOk(m: Memory) { m.bytes == Charged(m) && m.pages <= m.maximum }

  /** The memory at `pages` pages, with its charge. */
  function Sized(m: Memory, pages: nat): Memory { m.(pages := pages, bytes := Cost(m, pages)) }

  /** A memory with one handle fewer; with the last one its charge goes. */
  function Dropped(m: Memory): Memory
    requires m.handles > 0
  {
    m.(bytes := if m.handles == 1 then 0 else m.bytes, handles := m.handles - 1)
  }

  function TotalCharged(ms: seq<Memory>): nat {
    if ms == [] then 0 else TotalCharged(ms[..|ms| - 1]) + Charged(ms[|ms| - 1])
  }

  lemma {:induction false} TotalUpdate(ms: seq<Memory>, h: nat, m: Memory)
    requires h < |ms|
    ensures TotalCharged(ms[h := m]) + Charged(ms[h]) == TotalCharged(ms) + Charged(m)
    ensures Charged(ms[h]) <= TotalCharged(ms)
  {
    var n := |ms| - 1;
    if h == n {
      assert ms[h := m][..n] == ms[..n];
    } else {
      assert ms[h := m][..n] == ms[..n][h := m];
      TotalUpdate(ms[..n], h, m);
    }
  }

  lemma TotalPush(ms: seq<Memory>, m: Memory)
    ensures TotalCharged(ms + [m]) == TotalCharged(ms) + Charged(m)
  {
    assert (ms + [m])[..|ms|] == ms;
  }

  /** However many clones a memory has, it is counted once. */
  lemma ClonesCountOnce(ms: seq<Memory>, h: nat, handles: nat)
    requires h < |ms| && ms[h].handles > 0 && handles > 0
    ensures TotalCharged(ms[h := ms[h].(handles := handles)]) == TotalCharged(ms)
  {
    TotalUpdate(ms, h, ms[h].(handles := handles));
  }

  lemma {:induction false} NoHandlesNoCharge(ms: seq<Memory>)
    requires forall m <- ms :: m.handles == 0
    ensures TotalCharged(ms) == 0
  {
    if ms != [] {
      assert ms[|ms| - 1] in ms;
      NoHandlesNoCharge(ms[..|ms| - 1]);
    }
  }

  class Memories {
    const ledger: Ledger
    var memories: seq<Memory>
    // what other users of the pool hold in it
    ghost var others: nat

    /** The pool is what the other users hold and what the budgeted memories are charged. */
    ghost predicate Valid()
      reads this, ledger
    {
      && ledger.Valid() && ledger.pools.wasmLinear == others + TotalCharged(memories)
      && forall m <- memories :: MemoryOk(m)
    }

    constructor (ledger: Ledger)
      requires ledger.Valid()
      ensures Valid() && memories == [] && this.ledger == ledger && others == ledger.pools.wasmLinear
    {
      this.ledger, memories, others := ledger, [], ledger.pools.wasmLinear;
    }

    ghost predicate IsHandle(h: nat)
      reads this
    {
      h < |memories| && memories[h].handles > 0
    }

    /** Once the last handles are gone, the pool holds what the other users hold. */
    lemma AllDropped()
      requires Valid() && forall m <- memories :: m.handles == 0
      ensures ledger.pools.wasmLinear == others
    {
      NoHandlesNoCharge(memories);
    }

    /** Another user of the pool charges it. */
    method ChargeForOther(bytes: nat, accept: bool) returns (ok: bool)
      requires Valid()
      modifies this`others, ledger
      ensures Valid() && ok == old(ledger.Admits(bytes, accept))
      ensures ledger.Counters() == ChargeAlone(ledger.budget, old(ledger.Counters()), WasmLinear, bytes, accept)
      ensures others == old(others) + if ok then bytes else 0
    {
      ok := ledger.TryCharge(WasmLinear, bytes, accept);
      if ok { others := others + bytes; }
    }

    /** Another user gives back what it charged. */
    method UnchargeForOther(bytes: nat)
      requires Valid() && bytes <= others
      modifies this`others, ledger
      ensures Valid() && others == old(others) - bytes
      ensures ledger.pools == old(ledger.pools).With(WasmLinear, old(ledger.pools).wasmLinear - bytes)
      ensures ledger.share == old(ledger.share) - Shared(ledger.budget, bytes)
    {
      ledger.Uncharge(WasmLinear, bytes);
      others := others - bytes;
    }

    /** Wraps a backend memory of `pages` pages; a budgeted one is refused, and so freed, if it
        does not fit. */
    method New(pages: nat, maximum: nat, budgeted: bool, accept: bool) returns (h: Option<nat>)
      requires Valid() && pages <= maximum
      modifies this`memories, ledger
      ensures Valid()
      ensures h.Some? <==> old(ledger.Admits(if budgeted then pages * PAGE else 0, accept))
      ensures var m := Memory(pages, maximum, budgeted, if budgeted then pages * PAGE else 0, 1);
              if h.Some? then h.value == old(|memories|) && memories == old(memories) + [m]
              else memories == old(memories) && ledger.pools == old(ledger.pools)
    {
      var bytes := if budgeted then pages * PAGE else 0;
      var ok := ledger.TryCharge(WasmLinear, bytes, accept);
      if !ok { return None; }
      var m := Memory(pages, maximum, budgeted, bytes, 1);
      TotalPush(memories, m);
      h := Some(|memories|);
      memories := memories + [m];
    }

    /** The charge and the size change together, the pool having changed already. */
    method Resized(h: nat, pages: nat, bytes: nat)
      requires IsHandle(h) && bytes == Cost(memories[h], pages) && pages <= memories[h].maximum
      requires ledger.Valid() && (forall m <- memories :: MemoryOk(m))
      requires ledger.pools.wasmLinear + Charged(memories[h]) == others + TotalCharged(memories) + bytes
      modifies this`memories
      ensures Valid() && memories == old(memories)[h := Sized(old(memories)[h], pages)]
    {
      var m := memories[h].(pages := pages, bytes := bytes);
      TotalUpdate(memories, h, m);
      memories := memories[h := m];
    }

    /** Grows by `delta` pages if the budget and then the backend allow it. */
    method Grow(h: nat, delta: nat, backendGrows: bool, accept: bool) returns (previous: Option<nat>)
      requires Valid() && IsHandle(h)
      modifies this`memories, ledger
      ensures Valid()
      ensures previous.Some? <==>
                && old(ledger.Admits(Cost(memories[h], delta), accept))
                && backendGrows && old(memories)[h].pages + delta <= old(memories)[h].maximum
      ensures if previous.Some? then
                && previous.value == old(memories)[h].pages
                && memories == old(memories)[h := Sized(old(memories)[h], previous.value + delta)]
                && ledger.pools ==
                   old(ledger.pools).With(WasmLinear, old(ledger.pools).wasmLinear + Cost(old(memories)[h], delta))
              else memories == old(memories) && ledger.pools == old(ledger.pools)
    {
      assert memories[h] in memories;
      var deltaBytes := Cost(memories[h], delta);
      var ok := ledger.TryCharge(WasmLinear, deltaBytes, accept);
      if !ok { return None; }
      if !backendGrows || memories[h].pages + delta > memories[h].maximum {
        ledger.Uncharge(WasmLinear, deltaBytes);
        assert ledger.pools == old(ledger.pools);
        return None;
      }
      previous := Some(memories[h].pages);
      Resized(h, memories[h].pages + delta, memories[h].bytes + deltaBytes);
    }

    /** Grows to at least `minSize` bytes: reserves the page-rounded target, then keeps what the
        backend really grew by. The backend answers with its new size in pages, or fails. */
    method GrowAtLeast(h: nat, minSize: nat, backend: Option<nat>, accept: bool) returns (ok: bool)
      requires Valid() && IsHandle(h) && minSize < U64
      requires minSize <= memories[h].pages * PAGE ==> backend == Some(memories[h].pages)
      requires backend.Some? ==> memories[h].pages <= backend.value <= memories[h].maximum
      requires backend.Some? && minSize > memories[h].pages * PAGE ==> backend.value * PAGE <= RoundUpToPage(minSize)
      modifies this`memories, ledger
      ensures Valid()
      ensures minSize <= old(memories)[h].pages * PAGE ==> ok
      ensures minSize > old(memories)[h].pages * PAGE ==>
                var m := old(memories)[h];
                var reserve := if m.budgeted then RoundUpToPage(minSize) - m.pages * PAGE else 0;
                reserve >= 0 && (ok <==> backend.Some? && old(ledger.Admits(reserve, accept)))
      ensures if ok then
                && memories == old(memories)[h := Sized(old(memories)[h], backend.value)]
                && ledger.pools == old(ledger.pools).With(WasmLinear,
                     old(ledger.pools).wasmLinear + Cost(old(memories)[h], backend.value - old(memories)[h].pages))
              else memories == old(memories) && ledger.pools == old(ledger.pools)
    {
      hide TotalCharged, BudgetOk, ChargeSteps.Admits;
      assert memories[h] in memories;
      var m := memories[h];
      var before := m.pages * PAGE;
      if minSize <= before {
        assert memories[h := Sized(m, backend.value)] == memories;
        assert ledger.pools.With(WasmLinear, ledger.pools.wasmLinear) == ledger.pools;
        return true;
      }
      RoundsUp(minSize);
      var reserve := if m.budgeted then RoundUpToPage(minSize) - before else 0;
      var charged := ledger.TryCharge(WasmLinear, reserve, accept);
      if !charged { return false; }
      if backend.None? {
        ledger.Uncharge(WasmLinear, reserve);
        assert ledger.pools == old(ledger.pools);
        return false;
      }
      var actual := Cost(m, backend.value - m.pages);
      if reserve > actual { ledger.Uncharge(WasmLinear, reserve - actual); }
      Resized(h, backend.value, m.bytes + actual);
      ok := true;
    }

    /** The backend shrinks to `pages`, or fails; the freed bytes are given back. */
    method Reset(h: nat, backend: Option<nat>) returns (ok: bool)
      requires Valid() && IsHandle(h) && (backend.Some? ==> backend.value <= memories[h].pages)
      modifies this`memories, ledger
      ensures Valid() && ok == backend.Some?
      ensures if ok then
                && memories == old(memories)[h := Sized(old(memories)[h], backend.value)]
                && ledger.pools == old(ledger.pools).With(WasmLinear, ledger.pools.wasmLinear)
                && ledger.pools.wasmLinear + Cost(old(memories)[h], old(memories)[h].pages - backend.value) ==
                   old(ledger.pools).wasmLinear
              else memories == old(memories) && ledger.pools == old(ledger.pools)
    {
      assert memories[h] in memories;
      TotalUpdate(memories, h, memories[h]);
      if backend.None? { return false; }
      var after, previous := Cost(memories[h], backend.value), memories[h].bytes;
      if previous > after { ledger.Uncharge(WasmLinear, previous - after); }
      Resized(h, backend.value, after);
      ok := true;
    }

    /** Another handle on the same memory, sharing its charge. */
    method TryClone(h: nat, backendClones: bool) returns (ok: bool)
      requires Valid() && IsHandle(h)
      modifies this`memories
      ensures Valid() && ok == backendClones
      ensures var m := old(memories)[h];
              memories == if ok then old(memories)[h := m.(handles := m.handles + 1)] else old(memories)
    {
      assert memories[h] in memories;
      if !backendClones { return false; }
      ClonesCountOnce(memories, h, memories[h].handles + 1);
      memories := memories[h := memories[h].(handles := memories[h].handles + 1)];
      ok := true;
    }

    /** A new memory, as big as the backend made it, with a charge of its own. */
    method Copy(h: nat, backend: Option<nat>, accept: bool) returns (copy: Option<nat>)
      requires Valid() && IsHandle(h) && (backend.Some? ==> backend.value <= memories[h].maximum)
      modifies this`memories, ledger
      ensures Valid()
      ensures copy.Some? <==> backend.Some? && old(ledger.Admits(Cost(memories[h], backend.value), accept))
      ensures if copy.Some? then
                && copy.value == old(|memories|)
                && memories == old(memories) + [Sized(old(memories)[h], backend.value).(handles := 1)]
              else memories == old(memories) && ledger.pools == old(ledger.pools)
    {
      if backend.None? { return None; }
      copy := New(backend.value, memories[h].maximum, memories[h].budgeted, accept);
    }

    /** Drops one handle; with the last one the whole charge is returned. */
    method Drop(h: nat)
      requires Valid() && IsHandle(h)
      modifies this`memories, ledger
      ensures Valid() && memories == old(memories)[h := Dropped(old(memories)[h])]
      ensures ledger.pools == old(ledger.pools).With(WasmLinear, ledger.pools.wasmLinear)
      ensures ledger.pools.wasmLinear + (if old(memories)[h].handles == 1 then Charged(old(memories)[h]) else 0) ==
              old(ledger.pools).wasmLinear
    {
      assert memories[h] in memories;
      var m := memories[h];
      TotalUpdate(memories, h, Dropped(m));
      memories := memories[h := Dropped(m)];
      if m.handles == 1 { ledger.Uncharge(WasmLinear, m.bytes); }
    }
  }
}
