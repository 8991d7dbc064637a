/**
 The lock-free byte accountant: any number of threads inside `try_charge` and `uncharge`,
 one atomic operation at a time. Counters are 64-bit and wrap; a compare-and-swap may fail
 spuriously. What is charged belongs to somebody until it is uncharged, by any thread.
 */
module ChargeSteps {

  const U64: nat := 0x1_0000_0000_0000_0000

  datatype Pool = WasmLinear | V8HeapReserved | V8External

  /** How a budget decides: against its own total, never, or by asking an embedder. */
  datatype Budget = Limited(total: nat) | Unlimited | Accounted(limit: nat)

  predicate BudgetOk(b: Budget) {
    && (b.Limited? ==> b.total < U64 - 1)
    && (b.Accounted? ==> b.limit < U64)
  }

  /** One number per pool. */
  datatype Pools = Pools(wasmLinear: nat, v8HeapReserved: nat, v8External: nat) {
    function At(p: Pool): nat {
      match p case WasmLinear => wasmLinear case V8HeapReserved => v8HeapReserved case V8External => v8External
    }
    function With(p: Pool, x: nat): (r: Pools)
      ensures r.At(p) == x && r.Total() + At(p) == Total() + x
    {
      match p
      case WasmLinear => Pools(x, v8HeapReserved, v8External)
      case V8HeapReserved => Pools(wasmLinear, x, v8External)
      case V8External => Pools(wasmLinear, v8HeapReserved, x)
    }
    function Total(): nat { wasmLinear + v8HeapReserved + v8External }
  }

  /** What a thread does next. */
  datatype Thread =
    | Idle
    | Charging(pool: Pool, bytes: nat)                // has just entered try_charge
    | Swapping(pool: Pool, bytes: nat, current: nat)  // holds a value it read from mem_charged
    | AddingMem(pool: Pool, bytes: nat)               // allowed, mem_charged not yet raised
    | AddingPool(pool: Pool, bytes: nat)              // mem_charged raised, its pool not yet
    | SubtractingPool(pool: Pool, bytes: nat)         // has just entered uncharge
    | SubtractingMem(bytes: nat)
    | ReturningShare(bytes: nat)                      // about to tell the embedder

  /** `share` is what the embedder's accountant has booked for N-API; `owned` is what was
      successfully charged and not yet given to `uncharge`. */
  datatype State = State(mem: nat, pools: Pools, share: nat, owned: Pools, threads: seq<Thread>)

  datatype Action =
    | Charge(t: nat, pool: Pool, bytes: nat)
    | Uncharge(t: nat, pool: Pool, bytes: nat)
    | Go(t: nat, spurious: bool, accept: bool)

  function WrapAdd(x: nat, y: nat): nat { (x + y) % U64 }

  function WrapSub(x: nat, y: nat): nat { (x - y) % U64 }

  /** checked_add and the filter: the next value of mem_charged, if the charge fits. */
  predicate Fits(total: nat, current: nat, bytes: nat) { current + bytes < U64 && current + bytes <= total }

  // --------------------------------------------------------------------------
  // Steps
  // --------------------------------------------------------------------------

  /** Callers uncharge only what they own. The embedder accepts only within its limit, and an
      unlimited budget is assumed to be asked for no more than 64 bits hold. */
  predicate Enabled(b: Budget, s: State, a: Action) {
    && a.t < |s.threads|
    && match a
       case Charge(t, pool, bytes) => s.threads[t].Idle? && bytes < U64
       case Uncharge(t, pool, bytes) => s.threads[t].Idle? && bytes <= s.owned.At(pool)
       case Go(t, spurious, accept) =>
         && !s.threads[t].Idle?
         && (s.threads[t].Charging? && b.Accounted? && accept ==> s.share + s.threads[t].bytes <= b.limit)
         && (s.threads[t].AddingMem? && b.Unlimited? ==> s.mem + s.threads[t].bytes < U64)
  }

  function Step(b: Budget, s: State, a: Action): State
    requires Enabled(b, s, a)
  {
    match a
    case Charge(t, pool, bytes) =>
      if bytes == 0 then s else s.(threads := s.threads[t := Charging(pool, bytes)])
    case Uncharge(t, pool, bytes) =>
      if bytes == 0 then s
      else s.(owned := s.owned.With(pool, s.owned.At(pool) - bytes),
              threads := s.threads[t := SubtractingPool(pool, bytes)])
    case Go(t, spurious, accept) => Advance(b, s, t, spurious, accept)
  }

  /** One atomic operation of thread `t`. */
  function Advance(b: Budget, s: State, t: nat, spurious: bool, accept: bool): State
    requires t < |s.threads| && !s.threads[t].Idle?
  {
    match s.threads[t]
    case Charging(pool, bytes) =>
      (match b
       case Limited(_) => s.(threads := s.threads[t := Swapping(pool, bytes, s.mem)])
       case Unlimited => s.(threads := s.threads[t := AddingMem(pool, bytes)])
       case Accounted(_) =>
         if accept then s.(share := s.share + bytes, threads := s.threads[t := AddingMem(pool, bytes)])
         else s.(threads := s.threads[t := Idle]))
    case Swapping(pool, bytes, current) =>
      if !(b.Limited? && Fits(b.total, current, bytes)) then s.(threads := s.threads[t := Idle])
      else if spurious || s.mem != current then s.(threads := s.threads[t := Swapping(pool, bytes, s.mem)])
      else s.(mem := current + bytes, threads := s.threads[t := AddingPool(pool, bytes)])
    case AddingMem(pool, bytes) =>
      s.(mem := WrapAdd(s.mem, bytes), threads := s.threads[t := AddingPool(pool, bytes)])
    case AddingPool(pool, bytes) =>
      s.(pools := s.pools.With(pool, WrapAdd(s.pools.At(pool), bytes)),
         owned := s.owned.With(pool, s.owned.At(pool) + bytes), threads := s.threads[t := Idle])
    case SubtractingPool(pool, bytes) =>
      s.(pools := s.pools.With(pool, WrapSub(s.pools.At(pool), bytes)),
         threads := s.threads[t := SubtractingMem(bytes)])
    case SubtractingMem(bytes) =>
      s.(mem := WrapSub(s.mem, bytes), threads := s.threads[t := if b.Accounted? then ReturningShare(bytes) else Idle])
    case ReturningShare(bytes) =>
      s.(share := if bytes <= s.share then s.share - bytes else 0, threads := s.threads[t := Idle])
  }

  // --------------------------------------------------------------------------
  // Bytes on the way
  // --------------------------------------------------------------------------

  /** The gaps between the counters that a thread can stand in. */
  datatype Gap = MemOverPools | ShareOverMem | PoolOverOwned(pool: Pool)

  function Weight(th: Thread, g: Gap): nat {
    match g
    case MemOverPools => if th.AddingPool? || th.SubtractingMem? then th.bytes else 0
    case ShareOverMem => if th.AddingMem? || th.ReturningShare? then th.bytes else 0
    case PoolOverOwned(p) => if th.SubtractingPool? && th.pool == p then th.bytes else 0
  }

  function InGap(threads: seq<Thread>, g: Gap): nat {
    if threads == [] then 0 else InGap(threads[..|threads| - 1], g) + Weight(threads[|threads| - 1], g)
  }

  lemma {:induction false} InGapUpdate(threads: seq<Thread>, t: nat, th: Thread, g: Gap)
    requires t < |threads|
    ensures InGap(threads[t := th], g) + Weight(threads[t], g) == InGap(threads, g) + Weight(th, g)
    ensures InGap(threads, g) >= Weight(threads[t], g)
  {
    var n := |threads| - 1;
    if t == n {
      assert threads[t := th][..n] == threads[..n];
    } else {
      assert threads[t := th][..n] == threads[..n][t := th];
      InGapUpdate(threads[..n], t, th, g);
    }
  }

  lemma {:induction false} NobodyInGap(threads: seq<Thread>, g: Gap)
    requires forall t | 0 <= t < |threads| :: threads[t].Idle?
    ensures InGap(threads, g) == 0
  {
    if threads != [] { NobodyInGap(threads[..|threads| - 1], g); }
  }

  // --------------------------------------------------------------------------
  // The invariant
  // --------------------------------------------------------------------------

  /** Owned bytes are in their pool, pooled bytes are in mem_charged, and those are in the
      embedder's share; what is in one counter and not in the one before is on its way. */
  ghost predicate Inv(b: Budget, s: State) {
    && s.mem < U64 && (b.Limited? ==> s.mem <= b.total) && (b.Accounted? ==> s.share <= b.limit)
    && s.mem == s.pools.Total() + InGap(s.threads, MemOverPools)
    && (b.Accounted? ==> s.share == s.mem + InGap(s.threads, ShareOverMem))
    && (forall p: Pool :: PoolOk(s, p))
    && (forall t | 0 <= t < |s.threads| :: ThreadOk(b, s.threads[t]))
  }

  ghost predicate PoolOk(s: State, p: Pool) {
    s.pools.At(p) == s.owned.At(p) + InGap(s.threads, PoolOverOwned(p))
  }

  ghost predicate ThreadOk(b: Budget, th: Thread) {
    && (th.Swapping? ==> b.Limited?) && (th.AddingMem? ==> !b.Limited?) && (th.ReturningShare? ==> b.Accounted?)
    && (!th.Idle? ==> 0 < th.bytes)
  }

  /** No counter wraps: every atomic addition and subtraction is exact. */
  lemma NoCounterWraps(b: Budget, s: State, a: Action)
    requires BudgetOk(b) && Inv(b, s) && Enabled(b, s, a) && a.Go?
    ensures var th := s.threads[a.t];
            && (th.AddingMem? ==> s.mem + th.bytes < U64)
            && (th.AddingPool? ==> s.pools.At(th.pool) + th.bytes < U64)
            && (th.SubtractingPool? ==> th.bytes <= s.pools.At(th.pool) < U64)
            && (th.SubtractingMem? ==> th.bytes <= s.mem)
            && (th.ReturningShare? ==> th.bytes <= s.share)
  {
    var th := s.threads[a.t];
    InGapUpdate(s.threads, a.t, Idle, MemOverPools);
    InGapUpdate(s.threads, a.t, Idle, ShareOverMem);
    if th.SubtractingPool? {
      InGapUpdate(s.threads, a.t, Idle, PoolOverOwned(th.pool));
      assert PoolOk(s, th.pool);
    }
  }

  /** A step moves one thread, and moves what it carries across no gap unseen. */
  lemma StepBalances(b: Budget, s: State, a: Action)
    requires BudgetOk(b) && Inv(b, s) && Enabled(b, s, a)
    ensures var s' := Step(b, s, a);
            && |s'.threads| == |s.threads| && s'.threads == s.threads[a.t := s'.threads[a.t]]
            && ThreadOk(b, s'.threads[a.t])
            && s'.mem - s'.pools.Total() - Weight(s'.threads[a.t], MemOverPools) ==
               s.mem - s.pools.Total() - Weight(s.threads[a.t], MemOverPools)
            && s'.mem < U64 && (b.Limited? ==> s'.mem <= b.total)
  {
    if a.Go? {
      NoCounterWraps(b, s, a);
      GoBalances(b, s, a);
    }
  }

  lemma GoBalances(b: Budget, s: State, a: Action)
    requires BudgetOk(b) && Inv(b, s) && Enabled(b, s, a) && a.Go?
    ensures var s' := Step(b, s, a);
            && |s'.threads| == |s.threads| && s'.threads == s.threads[a.t := s'.threads[a.t]]
            && ThreadOk(b, s'.threads[a.t])
            && s'.mem - s'.pools.Total() - Weight(s'.threads[a.t], MemOverPools) ==
               s.mem - s.pools.Total() - Weight(s.threads[a.t], MemOverPools)
            && s'.mem < U64 && (b.Limited? ==> s'.mem <= b.total)
  {
    NoCounterWraps(b, s, a);
    assert ThreadOk(b, s.threads[a.t]);
    GoMovesOne(b, s, a.t, a.spurious, a.accept);
    GoBalancesMem(b, s, a.t, a.spurious, a.accept);
  }

  lemma GoMovesOne(b: Budget, s: State, t: nat, spurious: bool, accept: bool)
    requires t < |s.threads| && !s.threads[t].Idle? && ThreadOk(b, s.threads[t])
    ensures var s' := Advance(b, s, t, spurious, accept);
            |s'.threads| == |s.threads| && s'.threads == s.threads[t := s'.threads[t]] && ThreadOk(b, s'.threads[t])
  {
  }

  lemma GoBalancesMem(b: Budget, s: State, t: nat, spurious: bool, accept: bool)
    requires t < |s.threads| && !s.threads[t].Idle? && s.mem < U64 && (b.Limited? ==> s.mem <= b.total)
    requires ThreadOk(b, s.threads[t])
    requires var th := s.threads[t];
             && (th.AddingMem? ==> s.mem + th.bytes < U64)
             && (th.AddingPool? ==> s.pools.At(th.pool) + th.bytes < U64)
             && (th.SubtractingPool? ==> th.bytes <= s.pools.At(th.pool) < U64)
             && (th.SubtractingMem? ==> th.bytes <= s.mem)
    ensures var s' := Advance(b, s, t, spurious, accept);
            && t < |s'.threads| && s'.mem < U64 && (b.Limited? ==> s'.mem <= b.total)
            && s'.mem - s'.pools.Total() - Weight(s'.threads[t], MemOverPools) ==
               s.mem - s.pools.Total() - Weight(s.threads[t], MemOverPools)
  {
    hide Pools.At, Pools.With, Pools.Total;
    var th := s.threads[t];
    if th.AddingPool? {
      assert WrapAdd(s.pools.At(th.pool), th.bytes) == s.pools.At(th.pool) + th.bytes;
      assert s.pools.With(th.pool, s.pools.At(th.pool) + th.bytes).Total() == s.pools.Total() + th.bytes;
    } else if th.SubtractingPool? {
      assert WrapSub(s.pools.At(th.pool), th.bytes) == s.pools.At(th.pool) - th.bytes;
      assert s.pools.With(th.pool, s.pools.At(th.pool) - th.bytes).Total() == s.pools.Total() - th.bytes;
    }
  }

  lemma StepBalancesShare(b: Budget, s: State, a: Action)
    requires BudgetOk(b) && Inv(b, s) && Enabled(b, s, a) && b.Accounted?
    ensures var s' := Step(b, s, a);
            && a.t < |s'.threads| && s'.share <= b.limit
            && s'.share - s'.mem - Weight(s'.threads[a.t], ShareOverMem) ==
                 s.share - s.mem - Weight(s.threads[a.t], ShareOverMem)
  {
    if a.Go? { NoCounterWraps(b, s, a); }
    assert ThreadOk(b, s.threads[a.t]);
  }

  lemma WithSame(ps: Pools, p: Pool)
    ensures ps.With(p, ps.At(p)) == ps
  {
  }

  lemma WithAt(ps: Pools, p: Pool, x: nat, q: Pool)
    ensures ps.With(p, x).At(q) == if q == p then x else ps.At(q)
  {
  }

  lemma StepBalancesPool(b: Budget, s: State, a: Action, p: Pool)
    requires BudgetOk(b) && Inv(b, s) && Enabled(b, s, a)
    ensures var s' := Step(b, s, a);
            && a.t < |s'.threads|
            && s'.pools.At(p) - s'.owned.At(p) - Weight(s'.threads[a.t], PoolOverOwned(p)) ==
               s.pools.At(p) - s.owned.At(p) - Weight(s.threads[a.t], PoolOverOwned(p))
  {
    if a.Uncharge? {
      WithAt(s.owned, a.pool, s.owned.At(a.pool) - a.bytes, p);
    } else if a.Go? {
      NoCounterWraps(b, s, a);
      GoBalancesPool(b, s, a.t, a.spurious, a.accept, p);
    }
  }

  lemma GoBalancesPool(b: Budget, s: State, t: nat, spurious: bool, accept: bool, p: Pool)
    requires t < |s.threads| && !s.threads[t].Idle?
    requires s.threads[t].AddingPool? ==> s.pools.At(s.threads[t].pool) + s.threads[t].bytes < U64
    requires s.threads[t].SubtractingPool? ==> s.threads[t].bytes <= s.pools.At(s.threads[t].pool) < U64
    ensures var s' := Advance(b, s, t, spurious, accept);
            && t < |s'.threads|
            && s'.pools.At(p) - s'.owned.At(p) - Weight(s'.threads[t], PoolOverOwned(p)) ==
               s.pools.At(p) - s.owned.At(p) - Weight(s.threads[t], PoolOverOwned(p))
  {
    var th := s.threads[t];
    if th.AddingPool? {
      assert WrapAdd(s.pools.At(th.pool), th.bytes) == s.pools.At(th.pool) + th.bytes;
      WithAt(s.pools, th.pool, s.pools.At(th.pool) + th.bytes, p);
      WithAt(s.owned, th.pool, s.owned.At(th.pool) + th.bytes, p);
    } else if th.SubtractingPool? {
      assert WrapSub(s.pools.At(th.pool), th.bytes) == s.pools.At(th.pool) - th.bytes;
      WithAt(s.pools, th.pool, s.pools.At(th.pool) - th.bytes, p);
    }
  }

  lemma StepKeepsInv(b: Budget, s: State, a: Action)
    requires BudgetOk(b) && Inv(b, s) && Enabled(b, s, a)
    ensures Inv(b, Step(b, s, a))
  {
    StepBalances(b, s, a);
    if b.Accounted? { StepBalancesShare(b, s, a); }
    forall p: Pool { StepBalancesPool(b, s, a, p); }
    BalancedKeepsInv(b, s, Step(b, s, a), a.t);
  }

  lemma BalancedKeepsInv(b: Budget, s: State, s': State, t: nat)
    requires Inv(b, s) && t < |s.threads| == |s'.threads| && s'.threads == s.threads[t := s'.threads[t]]
             && ThreadOk(b, s'.threads[t])
    requires s'.mem - s'.pools.Total() - Weight(s'.threads[t], MemOverPools) ==
             s.mem - s.pools.Total() - Weight(s.threads[t], MemOverPools)
    requires b.Accounted? ==>
               && s'.share <= b.limit
               && s'.share - s'.mem - Weight(s'.threads[t], ShareOverMem) ==
                    s.share - s.mem - Weight(s.threads[t], ShareOverMem)
    requires forall p: Pool :: s'.pools.At(p) - s'.owned.At(p) - Weight(s'.threads[t], PoolOverOwned(p)) ==
                               s.pools.At(p) - s.owned.At(p) - Weight(s.threads[t], PoolOverOwned(p))
    requires s'.mem < U64 && (b.Limited? ==> s'.mem <= b.total)
    ensures Inv(b, s')
  {
    InGapUpdate(s.threads, t, s'.threads[t], MemOverPools);
    InGapUpdate(s.threads, t, s'.threads[t], ShareOverMem);
    forall p: Pool ensures PoolOk(s', p) {
      InGapUpdate(s.threads, t, s'.threads[t], PoolOverOwned(p));
      assert PoolOk(s, p);
    }
  }

  // --------------------------------------------------------------------------
  // Runs
  // --------------------------------------------------------------------------

  ghost predicate Initial(s: State) {
    && s.mem == s.share == 0 && s.pools == s.owned == Pools(0, 0, 0)
    && forall t | 0 <= t < |s.threads| :: s.threads[t].Idle?
  }

  ghost predicate StepAt(b: Budget, run: seq<State>, i: nat) {
    i + 1 < |run| && exists a: Action :: Enabled(b, run[i], a) && run[i + 1] == Step(b, run[i], a)
  }

  ghost predicate Run(b: Budget, run: seq<State>) {
    run != [] && Initial(run[0]) && forall i: nat | i + 1 < |run| :: StepAt(b, run, i)
  }

  lemma {:induction false} RunKeepsInv(b: Budget, run: seq<State>, i: nat)
    requires BudgetOk(b) && Run(b, run) && i < |run|
    ensures Inv(b, run[i])
  {
    if i == 0 {
      NobodyInGap(run[0].threads, MemOverPools);
      NobodyInGap(run[0].threads, ShareOverMem);
      forall p: Pool ensures PoolOk(run[0], p) { NobodyInGap(run[0].threads, PoolOverOwned(p)); }
    } else {
      RunKeepsInv(b, run, i - 1);
      assert StepAt(b, run, i - 1);
      var a: Action :| Enabled(b, run[i - 1], a) && run[i] == Step(b, run[i - 1], a);
      StepKeepsInv(b, run[i - 1], a);
    }
  }

  /** In every state of every run a limited budget is not exceeded, the pools are within
      mem_charged and that within the embedder's share, and what callers own is charged. */
  lemma NeverOverBudget(b: Budget, run: seq<State>, i: nat)
    requires BudgetOk(b) && Run(b, run) && i < |run|
    ensures b.Limited? ==> run[i].mem <= b.total
    ensures run[i].owned.Total() <= run[i].pools.Total() <= run[i].mem
    ensures b.Accounted? ==> run[i].mem <= run[i].share <= b.limit
  {
    RunKeepsInv(b, run, i);
    var s := run[i];
    assert PoolOk(s, WasmLinear) && PoolOk(s, V8HeapReserved) && PoolOk(s, V8External);
  }

  /** With every thread out of the accountant, all its counters agree with what is owned. */
  lemma AtRestAllAgree(b: Budget, run: seq<State>, i: nat)
    requires BudgetOk(b) && Run(b, run) && i < |run| && forall t | 0 <= t < |run[i].threads| :: run[i].threads[t].Idle?
    ensures run[i].pools == run[i].owned && run[i].mem == run[i].owned.Total()
    ensures b.Accounted? ==> run[i].share == run[i].mem
  {
    RunKeepsInv(b, run, i);
    var s := run[i];
    NobodyInGap(s.threads, MemOverPools);
    NobodyInGap(s.threads, ShareOverMem);
    forall p: Pool ensures s.pools.At(p) == s.owned.At(p) {
      NobodyInGap(s.threads, PoolOverOwned(p));
      assert PoolOk(s, p);
    }
    assert s.pools.At(WasmLinear) == s.owned.At(WasmLinear) && s.pools.At(V8HeapReserved) == s.owned.At(V8HeapReserved)
           && s.pools.At(V8External) == s.owned.At(V8External);
  }

  // --------------------------------------------------------------------------
  // One call with nothing in between
  // --------------------------------------------------------------------------

  /** A charge refused by a limited budget did not fit the value the thread last read; a charge
      let through fits now, whatever other threads did since. */
  lemma SwapDecides(b: Budget, s: State, t: nat, spurious: bool, accept: bool)
    requires b.Limited? && Inv(b, s) && t < |s.threads| && s.threads[t].Swapping?
    ensures var s', th := Advance(b, s, t, spurious, accept), s.threads[t];
            && (s'.threads[t].Idle? <==> !Fits(b.total, th.current, th.bytes))
            && (s'.threads[t].Idle? ==> s'.mem == s.mem)
            && (s'.threads[t].AddingPool? ==> s'.mem == s.mem + th.bytes <= b.total)
            && (s'.threads[t].Swapping? ==> s'.threads[t].current == s.mem)
  {
  }

  /** Whether a budget with these counters lets a charge through; `accept` is the embedder's
      answer, which accepts only within its limit. */
  predicate Admits(b: Budget, mem: nat, share: nat, bytes: nat, accept: bool) {
    || bytes == 0
    || match b
       case Limited(total) => Fits(total, mem, bytes)
       case Unlimited => true
       case Accounted(limit) => accept && share + bytes <= limit
  }

  /** What belongs to the embedder's books of a change of `bytes`. */
  function Shared(b: Budget, bytes: nat): nat { if b.Accounted? then bytes else 0 }

  /** try_charge as one call. */
  function ChargeAlone(b: Budget, s: State, pool: Pool, bytes: nat, accept: bool): State {
    if bytes == 0 || !Admits(b, s.mem, s.share, bytes, accept) then s
    else
      s.(mem := s.mem + bytes, share := s.share + Shared(b, bytes),
         pools := s.pools.With(pool, s.pools.At(pool) + bytes),
         owned := s.owned.With(pool, s.owned.At(pool) + bytes))
  }

  /** uncharge as one call. */
  function UnchargeAlone(b: Budget, s: State, pool: Pool, bytes: nat): State
    requires bytes <= s.mem && Shared(b, bytes) <= s.share
    requires bytes <= s.pools.At(pool) && bytes <= s.owned.At(pool)
  {
    s.(mem := s.mem - bytes, share := s.share - Shared(b, bytes),
       pools := s.pools.With(pool, s.pools.At(pool) - bytes),
       owned := s.owned.With(pool, s.owned.At(pool) - bytes))
  }

  /** Up to `n` steps of thread `t` with nobody else in between. */
  function RunAlone(b: Budget, s: State, t: nat, n: nat, accept: bool): State
    decreases n
  {
    if n == 0 || t >= |s.threads| || s.threads[t].Idle? then s
    else RunAlone(b, Advance(b, s, t, false, accept), t, n - 1, accept)
  }

  /** State `s` but for thread `t`. */
  function With(s: State, t: nat, th: Thread): State
    requires t < |s.threads|
  {
    s.(threads := s.threads[t := th])
  }

  lemma WithWith(s: State, t: nat, th: Thread, th': Thread)
    requires t < |s.threads|
    ensures With(With(s, t, th), t, th') == With(s, t, th')
    ensures s.threads[t] == th' ==> With(With(s, t, th), t, th') == s
  {
    assert s.threads[t := th][t := th'] == s.threads[t := th'];
    assert s.threads[t := s.threads[t]] == s.threads;
  }

  /** Three uninterrupted steps after entering, a charge is made or refused, as one call, under
      every kind of budget. */
  lemma AloneIsAtomic(b: Budget, s: State, t: nat, pool: Pool, bytes: nat, accept: bool)
    requires BudgetOk(b) && Inv(b, s) && Enabled(b, s, Charge(t, pool, bytes))
    requires b.Unlimited? ==> s.mem + bytes < U64
    requires b.Accounted? && accept ==> s.share + bytes <= b.limit
    ensures RunAlone(b, Step(b, s, Charge(t, pool, bytes)), t, 3, accept) == ChargeAlone(b, s, pool, bytes, accept)
  {
    if bytes == 0 { return; }
    var s1 := With(s, t, Charging(pool, bytes));
    assert Step(b, s, Charge(t, pool, bytes)) == s1;
    var s2 := Advance(b, s1, t, false, accept);
    assert RunAlone(b, s1, t, 3, accept) == RunAlone(b, s2, t, 2, accept);
    match b
    case Limited(_) =>
      WithWith(s, t, Charging(pool, bytes), Swapping(pool, bytes, s.mem));
      AloneSwaps(b, s, t, pool, bytes, accept);
    case Unlimited =>
      WithWith(s, t, Charging(pool, bytes), AddingMem(pool, bytes));
      AloneAddsMem(b, s, s, t, pool, bytes, accept);
    case Accounted(_) =>
      if accept {
        WithWith(s, t, Charging(pool, bytes), AddingMem(pool, bytes));
        AloneAddsMem(b, s, s.(share := s.share + bytes), t, pool, bytes, accept);
      } else {
        WithWith(s, t, Charging(pool, bytes), Idle);
      }
  }

  lemma AloneSwaps(b: Budget, s: State, t: nat, pool: Pool, bytes: nat, accept: bool)
    requires b.Limited? && BudgetOk(b) && Inv(b, s) && t < |s.threads| && s.threads[t].Idle? && 0 < bytes < U64
    ensures RunAlone(b, With(s, t, Swapping(pool, bytes, s.mem)), t, 2, accept) ==
              ChargeAlone(b, s, pool, bytes, accept)
  {
    var s2 := With(s, t, Swapping(pool, bytes, s.mem));
    var s3 := Advance(b, s2, t, false, accept);
    assert RunAlone(b, s2, t, 2, accept) == RunAlone(b, s3, t, 1, accept);
    if Fits(b.total, s.mem, bytes) {
      WithWith(s, t, Swapping(pool, bytes, s.mem), AddingPool(pool, bytes));
      AloneAddsPool(b, s, s.(mem := s.mem + bytes), t, pool, bytes, accept);
    } else {
      WithWith(s, t, Swapping(pool, bytes, s.mem), Idle);
    }
  }

  lemma AloneAddsMem(b: Budget, s: State, s': State, t: nat, pool: Pool, bytes: nat, accept: bool)
    requires !b.Limited? && s.pools.Total() <= s.mem && t < |s.threads| && s.threads[t].Idle? && s.mem + bytes < U64
    requires s' == s.(share := s.share + Shared(b, bytes)) && 0 < bytes && Admits(b, s.mem, s.share, bytes, accept)
    ensures RunAlone(b, With(s', t, AddingMem(pool, bytes)), t, 2, accept) == ChargeAlone(b, s, pool, bytes, accept)
  {
    var s2 := With(s', t, AddingMem(pool, bytes));
    var s3 := Advance(b, s2, t, false, accept);
    assert WrapAdd(s.mem, bytes) == s.mem + bytes;
    WithWith(s', t, AddingMem(pool, bytes), AddingPool(pool, bytes));
    assert RunAlone(b, s2, t, 2, accept) == RunAlone(b, s3, t, 1, accept);
    AloneAddsPool(b, s, s'.(mem := s.mem + bytes), t, pool, bytes, accept);
  }

  lemma AloneAddsPool(b: Budget, s: State, s': State, t: nat, pool: Pool, bytes: nat, accept: bool)
    requires s.pools.Total() <= s.mem && t < |s.threads| && s.threads[t].Idle? && s.mem + bytes < U64 && 0 < bytes
    requires s' == s.(mem := s.mem + bytes, share := s.share + Shared(b, bytes))
             && Admits(b, s.mem, s.share, bytes, accept)
    ensures RunAlone(b, With(s', t, AddingPool(pool, bytes)), t, 1, accept) == ChargeAlone(b, s, pool, bytes, accept)
  {
    var s3 := With(s', t, AddingPool(pool, bytes));
    assert s.pools.At(pool) <= s.pools.Total() <= s.mem;
    assert WrapAdd(s.pools.At(pool), bytes) == s.pools.At(pool) + bytes;
    var s4 := Advance(b, s3, t, false, accept);
    WithWith(s', t, AddingPool(pool, bytes), Idle);
    assert RunAlone(b, s3, t, 1, accept) == RunAlone(b, s4, t, 0, accept) == s4;
  }

  /** An uncharge that nothing interrupts gives back its bytes as one call, under every kind of
      budget, with no counter going below zero. */
  lemma UnchargeIsAtomic(b: Budget, s: State, t: nat, pool: Pool, bytes: nat, accept: bool)
    requires BudgetOk(b) && Inv(b, s) && Enabled(b, s, Uncharge(t, pool, bytes))
    ensures bytes <= s.owned.At(pool) <= s.pools.At(pool) <= s.mem && Shared(b, bytes) <= s.share
    ensures RunAlone(b, Step(b, s, Uncharge(t, pool, bytes)), t, 3, accept) == UnchargeAlone(b, s, pool, bytes)
  {
    hide Inv;
    OwnedIsCharged(b, s, pool);
    if bytes == 0 {
      WithSame(s.pools, pool);
      WithSame(s.owned, pool);
      return;
    }
    hide Pools.At, Pools.With, Pools.Total;
    var r := s.(owned := s.owned.With(pool, s.owned.At(pool) - bytes));
    assert Step(b, s, Uncharge(t, pool, bytes)) == With(r, t, SubtractingPool(pool, bytes));
    AloneSubtractsPool(b, r, t, pool, bytes, accept);
  }

  lemma OwnedIsCharged(b: Budget, s: State, pool: Pool)
    requires Inv(b, s)
    ensures s.owned.At(pool) <= s.pools.At(pool) <= s.mem < U64 && (b.Accounted? ==> s.mem <= s.share)
  {
    assert PoolOk(s, pool);
    assert s.pools.At(pool) <= s.pools.Total();
  }

  lemma AloneSubtractsPool(b: Budget, s: State, t: nat, pool: Pool, bytes: nat, accept: bool)
    requires t < |s.threads| && s.threads[t].Idle? && 0 < bytes <= s.pools.At(pool) <= s.mem < U64
    requires Shared(b, bytes) <= s.share
    ensures RunAlone(b, With(s, t, SubtractingPool(pool, bytes)), t, 3, accept) ==
            s.(mem := s.mem - bytes, share := s.share - Shared(b, bytes),
               pools := s.pools.With(pool, s.pools.At(pool) - bytes))
  {
    var s1, r := With(s, t, SubtractingPool(pool, bytes)), s.(pools := s.pools.With(pool, s.pools.At(pool) - bytes));
    assert WrapSub(s.pools.At(pool), bytes) == s.pools.At(pool) - bytes;
    WithWith(r, t, SubtractingPool(pool, bytes), SubtractingMem(bytes));
    assert Advance(b, s1, t, false, accept) == With(r, t, SubtractingMem(bytes));
    assert RunAlone(b, s1, t, 3, accept) == RunAlone(b, With(r, t, SubtractingMem(bytes)), t, 2, accept);
    AloneSubtracts(b, r, t, bytes, accept);
  }

  lemma AloneSubtracts(b: Budget, s: State, t: nat, bytes: nat, accept: bool)
    requires t < |s.threads| && s.threads[t].Idle? && 0 < bytes <= s.mem < U64 && Shared(b, bytes) <= s.share
    ensures RunAlone(b, With(s, t, SubtractingMem(bytes)), t, 2, accept) ==
            s.(mem := s.mem - bytes, share := s.share - Shared(b, bytes))
  {
    assert WrapSub(s.mem, bytes) == s.mem - bytes;
    var r := s.(mem := s.mem - bytes);
    var next := if b.Accounted? then ReturningShare(bytes) else Idle;
    var s2 := With(s, t, SubtractingMem(bytes));
    WithWith(r, t, SubtractingMem(bytes), next);
    assert Advance(b, s2, t, false, accept) == With(r, t, next);
    assert RunAlone(b, s2, t, 2, accept) == RunAlone(b, With(r, t, next), t, 1, accept);
    if b.Accounted? {
      var r2 := r.(share := r.share - bytes);
      WithWith(r2, t, ReturningShare(bytes), Idle);
      assert Advance(b, With(r, t, next), t, false, accept) == With(r2, t, Idle);
      assert RunAlone(b, With(r, t, next), t, 1, accept) == RunAlone(b, With(r2, t, Idle), t, 0, accept);
    }
  }
}
