/**
 Heap reservations of V8 envs: acquiring an isolate slot, planning and charging a ceiling,
 committing or aborting, the near-heap-limit grants, and the release. Any number of envs do
 this at once on their own threads; one step is one operation on the shared budget.
 */
module HeapReservations {
  import opened Basics
  import ChargeSteps

  const MIB: nat := 1024 * 1024
  const INITIAL_ISOLATE_HEAP: nat := 64 * MIB
  const GROW_STEP: nat := 32 * MIB
  const UNWIND_SLACK: nat := 16 * MIB
  const ISOLATE_OVERHEAD: nat := 8 * MIB
  const U32: nat := 0x1_0000_0000

  /** What the guest asked for, in bytes; 0 is unset. Each is a 32-bit number. */
  datatype Request = Request(maxYoung: nat, maxOld: nat, codeRange: nat)

  datatype Plan = Plan(maxYoung: nat, maxOld: nat, codeRange: nat, ceiling: nat, clamped: bool)

  predicate RequestOk(req: Request) { req.maxYoung < U32 && req.maxOld < U32 && req.codeRange < U32 }

  datatype Limits = Limits(budget: ChargeSteps.Budget, maxEnvs: Option<nat>)

  /** What may be charged at most: the budget's own total, or what an embedder's accountant allows. */
  function Total(b: ChargeSteps.Budget): Option<nat> {
    match b
    case Limited(total) => Some(total)
    case Accounted(limit) => Some(limit)
    case Unlimited => None
  }

  /** Not is_unlimited: the largest 64-bit number stands for no limit, an accountant's too. */
  predicate Metered(b: ChargeSteps.Budget) { Total(b).Some? && Total(b).value != ChargeSteps.U64 - 1 }

  function Min(x: nat, y: nat): nat { if x <= y then x else y }

  function Fixed(req: Request): nat { ISOLATE_OVERHEAD + UNWIND_SLACK + req.maxYoung + req.codeRange }

  function Wanted(req: Request): nat { if req.maxOld > 0 then req.maxOld else INITIAL_ISOLATE_HEAP }

  /** plan_heap_reservation, for a budget with `remaining` bytes left. */
  function PlanHeap(limited: bool, remaining: nat, req: Request): Option<Plan> {
    if !limited then Some(Plan(req.maxYoung, req.maxOld, req.codeRange, 0, false))
    else if remaining <= Fixed(req) then None
    else
      var oldBytes := Min(Wanted(req), remaining - Fixed(req));
      if oldBytes == 0 then None
      else Some(Plan(req.maxYoung, if oldBytes < U32 then oldBytes else U32 - 1, req.codeRange, Fixed(req) + oldBytes,
                     true))
  }

  /** The ceiling pays for everything V8 may be given and never exceeds what remains; what V8 is
      told is what was paid for, no more than it asked for, and as much of that as fits. */
  lemma PlanPaysForItself(remaining: nat, req: Request)
    requires RequestOk(req)
    ensures PlanHeap(true, remaining, req).None? <==> remaining <= Fixed(req)
    ensures PlanHeap(true, remaining, req).Some? ==>
              var p := PlanHeap(true, remaining, req).value;
              && p.ceiling == ISOLATE_OVERHEAD + UNWIND_SLACK + p.maxYoung + p.codeRange + p.maxOld <= remaining
              && p.maxYoung == req.maxYoung && p.codeRange == req.codeRange && p.clamped
              && 0 < p.maxOld <= Wanted(req) && (p.maxOld < Wanted(req) ==> p.ceiling == remaining)
  {
  }

  // --------------------------------------------------------------------------
  // States
  // --------------------------------------------------------------------------

  /** The life of one reservation. `unbooked` is a grant charged but not yet added to `granted`;
      `slack` says that the unwind slack is still there; `limit` is V8's current heap limit. */
  datatype Phase =
    | Acquiring(current: nat)
    | Acquired
    | Planned(plan: Plan)
    | Reserved(plan: Plan)
    | Live(plan: Plan, granted: nat, unbooked: nat, slack: bool, limit: nat)
    | ReleasingGrant(plan: Plan, granted: nat)
    | ReleasingCeiling(plan: Plan)
    | ReleasingSlot
    | Rejecting
    | Rejected
    | Released

  datatype Env = Env(req: Request, phase: Phase)

  /** `heap` is the V8HeapReserved pool, `other` what else is charged: by the other pools, and by
      an embedder to its own accountant; `isolates` counts live isolates; `stopped` says that the
      host has stopped the application. */
  datatype State = State(heap: nat, other: nat, isolates: nat, stopped: bool, envs: seq<Env>)

  datatype Action =
    | Begin(req: Request)
    | Swap(i: nat, spurious: bool)
    | MakePlan(i: nat)
    | ChargeCeiling(i: nat, accept: bool)
    | GiveSlotBack(i: nat)
    | Commit(i: nat)
    | Abort(i: nat)
    | NearLimit(i: nat, accept: bool)
    | BookGrant(i: nat)
    | Release(i: nat, refused: bool)
    | UnchargeGrant(i: nat)
    | UnchargeCeiling(i: nat)
    | ReleaseSlot(i: nat)
    | OtherPools(bytes: nat)

  /** try_charge as one operation; `accept` is an accountant's answer, if there is one. */
  predicate Admits(l: Limits, s: State, bytes: nat, accept: bool) {
    ChargeSteps.Admits(l.budget, s.heap + s.other, s.heap + s.other, bytes, accept)
  }

  /** The budget's limit is not exceeded. */
  predicate Within(l: Limits, bytes: int) { Total(l.budget).Some? ==> bytes <= Total(l.budget).value }

  function Remaining(l: Limits, s: State): nat {
    var total := Total(l.budget);
    if total.Some? && s.heap + s.other <= total.value then total.value - (s.heap + s.other) else 0
  }

  predicate Enabled(l: Limits, s: State, a: Action) {
    match a
    case Begin(req) => RequestOk(req)
    case OtherPools(bytes) => Within(l, s.heap + bytes)
    case Swap(i, _) => i < |s.envs| && s.envs[i].phase.Acquiring?
    case MakePlan(i) => i < |s.envs| && s.envs[i].phase.Acquired?
    case ChargeCeiling(i, _) => i < |s.envs| && s.envs[i].phase.Planned?
    case GiveSlotBack(i) => i < |s.envs| && s.envs[i].phase.Rejecting?
    case Commit(i) => i < |s.envs| && s.envs[i].phase.Reserved?
    case Abort(i) => i < |s.envs| && s.envs[i].phase.Reserved?
    case NearLimit(i, _) => i < |s.envs| && s.envs[i].phase.Live? && s.envs[i].phase.plan.clamped
                         && s.envs[i].phase.unbooked == 0
    case BookGrant(i) => i < |s.envs| && s.envs[i].phase.Live? && s.envs[i].phase.unbooked != 0
    case Release(i, _) => i < |s.envs| && s.envs[i].phase.Live? && s.envs[i].phase.unbooked == 0
    case UnchargeGrant(i) => i < |s.envs| && s.envs[i].phase.ReleasingGrant?
    case UnchargeCeiling(i) => i < |s.envs| && s.envs[i].phase.ReleasingCeiling?
    case ReleaseSlot(i) => i < |s.envs| && s.envs[i].phase.ReleasingSlot?
  }

  /** What one step does to its env and to the shared counters. Unsigned subtraction is written
      as integer subtraction; that nothing goes below zero is proved, not assumed. */
  datatype Move = Move(phase: Phase, heap: int, isolates: int, stopped: bool)

  function MoveOf(l: Limits, s: State, a: Action): Move
    requires Enabled(l, s, a) && !a.Begin? && !a.OtherPools?
  {
    var p := s.envs[a.i].phase;
    match a
    case Swap(i, spurious) =>
      if l.maxEnvs.Some? && p.current >= l.maxEnvs.value then Move(Rejected, s.heap, s.isolates, s.stopped)
      else if spurious || p.current != s.isolates then Move(Acquiring(s.isolates), s.heap, s.isolates, s.stopped)
      else Move(Acquired, s.heap, p.current + 1, s.stopped)
    case MakePlan(i) =>
      (match PlanHeap(Metered(l.budget), Remaining(l, s), s.envs[i].req)
       case None => Move(Rejecting, s.heap, s.isolates, s.stopped)
       case Some(plan) => Move(Planned(plan), s.heap, s.isolates, s.stopped))
    case ChargeCeiling(i, accept) =>
      if Admits(l, s, p.plan.ceiling, accept) then
        Move(Reserved(p.plan), s.heap + p.plan.ceiling, s.isolates, s.stopped)
      else Move(Rejecting, s.heap, s.isolates, s.stopped)
    case GiveSlotBack(i) => Move(Rejected, s.heap, s.isolates - 1, s.stopped)
    case Commit(i) => Move(Live(p.plan, 0, 0, true, p.plan.maxOld), s.heap, s.isolates, s.stopped)
    case Abort(i) => Move(ReleasingCeiling(p.plan), s.heap, s.isolates, s.stopped)
    case NearLimit(i, accept) =>
      if Admits(l, s, GROW_STEP, accept) then Move(p.(unbooked := GROW_STEP), s.heap + GROW_STEP, s.isolates, s.stopped)
      else Move(if p.slack then p.(slack := false, limit := p.limit + UNWIND_SLACK) else p, s.heap, s.isolates, true)
    case BookGrant(i) =>
      Move(p.(granted := p.granted + p.unbooked, unbooked := 0, limit := p.limit + GROW_STEP),
           s.heap, s.isolates, s.stopped)
    case Release(i, refused) =>
      Move(if refused then p else ReleasingGrant(p.plan, p.granted), s.heap, s.isolates, s.stopped)
    case UnchargeGrant(i) => Move(ReleasingCeiling(p.plan), s.heap - p.granted, s.isolates, s.stopped)
    case UnchargeCeiling(i) => Move(ReleasingSlot, s.heap - p.plan.ceiling, s.isolates, s.stopped)
    case ReleaseSlot(i) => Move(Released, s.heap, s.isolates - 1, s.stopped)
  }

  /** `s'` follows `s`. */
  ghost predicate Next(l: Limits, s: State, a: Action, s': State) {
    && Enabled(l, s, a)
    && match a
       case Begin(req) =>
         s' == if l.maxEnvs.None? then s.(isolates := s.isolates + 1, envs := s.envs + [Env(req, Acquired)])
               else s.(envs := s.envs + [Env(req, Acquiring(s.isolates))])
       case OtherPools(bytes) => s' == s.(other := bytes)
       case _ =>
         var m := MoveOf(l, s, a);
         && s'.heap == m.heap && s'.isolates == m.isolates && s'.stopped == m.stopped && s'.other == s.other
         && s'.envs == s.envs[a.i := s.envs[a.i].(phase := m.phase)]
  }

  // --------------------------------------------------------------------------
  // The invariant
  // --------------------------------------------------------------------------

  /** What a reservation holds in the heap pool. */
  function HeapBytes(p: Phase): nat {
    match p
    case Reserved(plan) => plan.ceiling
    case Live(plan, granted, unbooked, _, _) => plan.ceiling + granted + unbooked
    case ReleasingGrant(plan, granted) => plan.ceiling + granted
    case ReleasingCeiling(plan) => plan.ceiling
    case _ => 0
  }

  function Slots(p: Phase): nat { if p.Acquiring? || p.Rejected? || p.Released? then 0 else 1 }

  function TotalHeap(envs: seq<Env>): nat {
    if envs == [] then 0 else TotalHeap(envs[..|envs| - 1]) + HeapBytes(envs[|envs| - 1].phase)
  }

  function TotalSlots(envs: seq<Env>): nat {
    if envs == [] then 0 else TotalSlots(envs[..|envs| - 1]) + Slots(envs[|envs| - 1].phase)
  }

  predicate PlanOk(l: Limits, req: Request, p: Plan) {
    && p.clamped == Metered(l.budget) && p.maxYoung == req.maxYoung && p.codeRange == req.codeRange
    && if p.clamped then p.ceiling == ISOLATE_OVERHEAD + UNWIND_SLACK + p.maxYoung + p.codeRange + p.maxOld
       && 0 < p.maxOld <= Wanted(req)
       else p.ceiling == 0 && p.maxOld == req.maxOld
  }

  /** A live env's limit is its old generation, its grants, and the slack once it is exposed. */
  predicate EnvOk(l: Limits, stopped: bool, e: Env) {
    && RequestOk(e.req)
    && (e.phase.Planned? || e.phase.Reserved? || e.phase.Live? || e.phase.ReleasingGrant?
        || e.phase.ReleasingCeiling? ==>
          PlanOk(l, e.req, e.phase.plan))
    && (e.phase.Live? ==>
          && e.phase.limit == e.phase.plan.maxOld + e.phase.granted + (if e.phase.slack then 0 else UNWIND_SLACK)
          && (e.phase.unbooked == 0 || e.phase.unbooked == GROW_STEP)
          && (!e.phase.plan.clamped ==> e.phase.granted == e.phase.unbooked == 0 && e.phase.slack)
          && (!e.phase.slack ==> stopped))
  }

  ghost predicate Inv(l: Limits, s: State) {
    && ChargeSteps.BudgetOk(l.budget) && s.heap == TotalHeap(s.envs) && s.isolates == TotalSlots(s.envs)
    && (l.maxEnvs.Some? ==> s.isolates <= l.maxEnvs.value)
    && Within(l, s.heap + s.other)
    && forall i | 0 <= i < |s.envs| :: EnvOk(l, s.stopped, s.envs[i])
  }

  lemma {:induction false} TotalsUpdate(envs: seq<Env>, i: nat, e: Env)
    requires i < |envs|
    ensures TotalHeap(envs[i := e]) + HeapBytes(envs[i].phase) == TotalHeap(envs) + HeapBytes(e.phase)
    ensures TotalSlots(envs[i := e]) + Slots(envs[i].phase) == TotalSlots(envs) + Slots(e.phase)
    ensures HeapBytes(envs[i].phase) <= TotalHeap(envs) && Slots(envs[i].phase) <= TotalSlots(envs)
  {
    var n := |envs| - 1;
    if i == n {
      assert envs[i := e][..n] == envs[..n];
    } else {
      assert envs[i := e][..n] == envs[..n][i := e];
      TotalsUpdate(envs[..n], i, e);
    }
  }

  lemma TotalsPush(envs: seq<Env>, e: Env)
    ensures TotalHeap(envs + [e]) == TotalHeap(envs) + HeapBytes(e.phase)
    ensures TotalSlots(envs + [e]) == TotalSlots(envs) + Slots(e.phase)
  {
    assert (envs + [e])[..|envs|] == envs;
  }

  /** What one step on one env keeps, with the totals left out. */
  ghost predicate Balanced(l: Limits, s: State, e: Env, m: Move) {
    && 0 <= m.heap == s.heap - HeapBytes(e.phase) + HeapBytes(m.phase)
    && 0 <= m.isolates == s.isolates - Slots(e.phase) + Slots(m.phase)
    && (l.maxEnvs.Some? ==> m.isolates <= l.maxEnvs.value)
    && Within(l, m.heap + s.other)
    && (s.stopped ==> m.stopped) && EnvOk(l, m.stopped, e.(phase := m.phase))
  }

  ghost predicate Fitting(l: Limits, s: State, e: Env) {
    && EnvOk(l, s.stopped, e) && HeapBytes(e.phase) <= s.heap && Slots(e.phase) <= s.isolates
    && (l.maxEnvs.Some? ==> s.isolates <= l.maxEnvs.value)
    && Within(l, s.heap + s.other)
  }

  lemma ReservingBalances(l: Limits, s: State, a: Action)
    requires Enabled(l, s, a) && (a.Swap? || a.MakePlan? || a.ChargeCeiling? || a.GiveSlotBack?)
             && Fitting(l, s, s.envs[a.i])
    ensures Balanced(l, s, s.envs[a.i], MoveOf(l, s, a))
  {
    if a.MakePlan? && Metered(l.budget) { PlanPaysForItself(Remaining(l, s), s.envs[a.i].req); }
  }

  lemma LivingBalances(l: Limits, s: State, a: Action)
    requires Enabled(l, s, a) && (a.Commit? || a.Abort? || a.NearLimit? || a.BookGrant?) && Fitting(l, s, s.envs[a.i])
    ensures Balanced(l, s, s.envs[a.i], MoveOf(l, s, a))
  {
  }

  lemma LeavingBalances(l: Limits, s: State, a: Action)
    requires Enabled(l, s, a) && (a.Release? || a.UnchargeGrant? || a.UnchargeCeiling? || a.ReleaseSlot?)
             && Fitting(l, s, s.envs[a.i])
    ensures Balanced(l, s, s.envs[a.i], MoveOf(l, s, a))
  {
  }

  lemma MoveBalances(l: Limits, s: State, a: Action)
    requires Inv(l, s) && Enabled(l, s, a) && !a.Begin? && !a.OtherPools?
    ensures Balanced(l, s, s.envs[a.i], MoveOf(l, s, a))
  {
    assert EnvOk(l, s.stopped, s.envs[a.i]);
    TotalsUpdate(s.envs, a.i, s.envs[a.i]);
    if a.Swap? || a.MakePlan? || a.ChargeCeiling? || a.GiveSlotBack? {
      ReservingBalances(l, s, a);
    } else if a.Commit? || a.Abort? || a.NearLimit? || a.BookGrant? {
      LivingBalances(l, s, a);
    } else {
      LeavingBalances(l, s, a);
    }
  }

  lemma MoveKeepsInv(l: Limits, s: State, a: Action, s': State)
    requires Inv(l, s) && Next(l, s, a, s') && !a.Begin? && !a.OtherPools?
    ensures Inv(l, s') && (s.stopped ==> s'.stopped)
  {
    MoveBalances(l, s, a);
    BalancedKeepsInv(l, s, a.i, MoveOf(l, s, a), s');
  }

  lemma BalancedKeepsInv(l: Limits, s: State, i: nat, m: Move, s': State)
    requires Inv(l, s) && i < |s.envs| && Balanced(l, s, s.envs[i], m)
    requires s'.heap == m.heap && s'.isolates == m.isolates && s'.stopped == m.stopped && s'.other == s.other
    requires s'.envs == s.envs[i := s.envs[i].(phase := m.phase)]
    ensures Inv(l, s') && (s.stopped ==> s'.stopped)
  {
    TotalsUpdate(s.envs, i, s'.envs[i]);
    forall k | 0 <= k < |s'.envs| ensures EnvOk(l, s'.stopped, s'.envs[k]) {
      assert EnvOk(l, s.stopped, s.envs[k]);
    }
  }

  lemma NextKeepsInv(l: Limits, s: State, a: Action, s': State)
    requires Inv(l, s) && Next(l, s, a, s')
    ensures Inv(l, s') && (s.stopped ==> s'.stopped)
  {
    if a.Begin? {
      BeginKeepsInv(l, s, a.req, s');
    } else if a.OtherPools? {
      OtherPoolsKeepInv(l, s, a.bytes, s');
    } else {
      MoveKeepsInv(l, s, a, s');
    }
  }

  lemma BeginKeepsInv(l: Limits, s: State, req: Request, s': State)
    requires Inv(l, s) && Next(l, s, Begin(req), s')
    ensures Inv(l, s') && s'.stopped == s.stopped
  {
    hide PlanOk, TotalHeap, TotalSlots;
    var e := s'.envs[|s.envs|];
    assert s'.envs == s.envs + [e];
    TotalsPush(s.envs, e);
    forall k | 0 <= k < |s'.envs| ensures EnvOk(l, s.stopped, s'.envs[k]) {
      if k < |s.envs| {
        assert EnvOk(l, s.stopped, s.envs[k]);
      } else {
        assert EnvOk(l, s.stopped, e);
      }
    }
  }

  lemma OtherPoolsKeepInv(l: Limits, s: State, bytes: nat, s': State)
    requires Inv(l, s) && Next(l, s, OtherPools(bytes), s')
    ensures Inv(l, s') && s'.stopped == s.stopped
  {
  }

  // --------------------------------------------------------------------------
  // Runs
  // --------------------------------------------------------------------------

  ghost predicate NextAt(l: Limits, run: seq<State>, i: nat) {
    i + 1 < |run| && Follows(l, run[i], run[i + 1])
  }

  ghost predicate Follows(l: Limits, s: State, s': State) { exists a: Action :: Next(l, s, a, s') }

  ghost predicate Run(l: Limits, run: seq<State>) {
    && run != [] && run[0].envs == [] && run[0].heap == run[0].isolates == 0 && !run[0].stopped
    && ChargeSteps.BudgetOk(l.budget) && Within(l, run[0].other)
    && forall i: nat | i + 1 < |run| :: NextAt(l, run, i)
  }

  lemma {:induction false} RunKeepsInv(l: Limits, run: seq<State>, i: nat)
    requires Run(l, run) && i < |run|
    ensures Inv(l, run[i])
  {
    if i > 0 {
      RunKeepsInv(l, run, i - 1);
      assert NextAt(l, run, i - 1);
      var a: Action :| Next(l, run[i - 1], a, run[i]);
      NextKeepsInv(l, run[i - 1], a, run[i]);
    }
  }

  /** In every state of every run the heap pool is the ceilings and grants of the reservations
      not yet released, the isolate count counts them, and both are within their limits. */
  lemma PoolIsWhatIsReserved(l: Limits, run: seq<State>, i: nat)
    requires Run(l, run) && i < |run|
    ensures run[i].heap == TotalHeap(run[i].envs) && run[i].isolates == TotalSlots(run[i].envs)
    ensures l.maxEnvs.Some? ==> run[i].isolates <= l.maxEnvs.value
    ensures Total(l.budget).Some? ==> run[i].heap + run[i].other <= Total(l.budget).value
  {
    RunKeepsInv(l, run, i);
  }

  lemma {:induction false} NothingHeld(envs: seq<Env>)
    requires forall k | 0 <= k < |envs| :: HeapBytes(envs[k].phase) == Slots(envs[k].phase) == 0
    ensures TotalHeap(envs) == TotalSlots(envs) == 0
  {
    if envs != [] { NothingHeld(envs[..|envs| - 1]); }
  }

  /** Once every reservation was rejected or released, the budget is where it started. */
  lemma AllReturned(l: Limits, run: seq<State>, i: nat)
    requires Run(l, run) && i < |run|
    requires forall k | 0 <= k < |run[i].envs| :: run[i].envs[k].phase.Rejected? || run[i].envs[k].phase.Released?
    ensures run[i].heap == run[i].isolates == 0
  {
    RunKeepsInv(l, run, i);
    NothingHeld(run[i].envs);
  }

  // --------------------------------------------------------------------------
  // What one env's steps do to the counters
  // --------------------------------------------------------------------------

  /** A run with the actions that made it. */
  ghost predicate RunBy(l: Limits, run: seq<State>, acts: seq<Action>) {
    Run(l, run) && |acts| + 1 == |run| && forall i | 0 <= i < |acts| :: Next(l, run[i], acts[i], run[i + 1])
  }

  /** The action is one of env `k`, the first of them being the one that begins it. */
  predicate ActsOn(a: Action, s: State, k: nat) {
    match a
    case Begin(_) => k == |s.envs|
    case OtherPools(_) => false
    case _ => a.i == k
  }

  /** What the steps of env `k` among the first `j` added to the heap pool, less what they took. */
  function HeapMoved(run: seq<State>, acts: seq<Action>, k: nat, j: nat): int
    requires j <= |acts| < |run|
  {
    if j == 0 then 0
    else HeapMoved(run, acts, k, j - 1) +
         if ActsOn(acts[j - 1], run[j - 1], k) then run[j].heap - run[j - 1].heap else 0
  }

  /** The same for the isolate count. */
  function SlotsMoved(run: seq<State>, acts: seq<Action>, k: nat, j: nat): int
    requires j <= |acts| < |run|
  {
    if j == 0 then 0
    else SlotsMoved(run, acts, k, j - 1) +
         if ActsOn(acts[j - 1], run[j - 1], k) then run[j].isolates - run[j - 1].isolates else 0
  }

  function HeapHeld(s: State, k: nat): nat { if k < |s.envs| then HeapBytes(s.envs[k].phase) else 0 }

  function SlotHeld(s: State, k: nat): nat { if k < |s.envs| then Slots(s.envs[k].phase) else 0 }

  /** A step of env `k` moves the counters by what `k` then holds more; any other step leaves
      what `k` holds. */
  lemma StepMovesHolding(l: Limits, s: State, a: Action, s': State, k: nat)
    requires Inv(l, s) && Next(l, s, a, s')
    ensures HeapHeld(s', k) - HeapHeld(s, k) == if ActsOn(a, s, k) then s'.heap - s.heap else 0
    ensures SlotHeld(s', k) - SlotHeld(s, k) == if ActsOn(a, s, k) then s'.isolates - s.isolates else 0
  {
    if !a.Begin? && !a.OtherPools? {
      MoveBalances(l, s, a);
    }
  }

  /** In any run, whatever the others do meanwhile, all that the steps of an env ever added and
      took comes to exactly what the env holds. */
  lemma {:induction false} MovedIsHeld(l: Limits, run: seq<State>, acts: seq<Action>, k: nat, j: nat)
    requires RunBy(l, run, acts) && j <= |acts|
    ensures HeapMoved(run, acts, k, j) == HeapHeld(run[j], k)
    ensures SlotsMoved(run, acts, k, j) == SlotHeld(run[j], k)
  {
    if j > 0 {
      MovedIsHeld(l, run, acts, k, j - 1);
      RunKeepsInv(l, run, j - 1);
      assert Next(l, run[j - 1], acts[j - 1], run[j - 1 + 1]);
      StepMovesHolding(l, run[j - 1], acts[j - 1], run[j], k);
    }
  }

  /** In any run, from its begin to its rejection, or to the end of its release, the steps of an
      env add to both counters exactly what they take. */
  lemma RejectionRestores(l: Limits, run: seq<State>, acts: seq<Action>, k: nat, j: nat)
    requires RunBy(l, run, acts) && j <= |acts| && k < |run[j].envs|
    requires run[j].envs[k].phase.Rejected? || run[j].envs[k].phase.Released?
    ensures HeapMoved(run, acts, k, j) == 0 && SlotsMoved(run, acts, k, j) == 0
  {
    MovedIsHeld(l, run, acts, k, j);
  }

  /** Under a budget with a limit everything V8 may use in an env, up to its current limit, has been
      charged for that env: the slack comes out of the ceiling, and only once. */
  lemma LimitIsPaidFor(l: Limits, run: seq<State>, i: nat, k: nat)
    requires Run(l, run) && i < |run| && k < |run[i].envs| && run[i].envs[k].phase.Live? && Metered(l.budget)
    ensures var p := run[i].envs[k].phase;
            && p.plan.maxOld + p.granted <= p.limit <= p.plan.maxOld + p.granted + UNWIND_SLACK
            && ISOLATE_OVERHEAD + p.plan.maxYoung + p.plan.codeRange + p.limit <= HeapBytes(p)
            && HeapBytes(p) <= run[i].heap <= Total(l.budget).value
  {
    RunKeepsInv(l, run, i);
    assert EnvOk(l, run[i].stopped, run[i].envs[k]);
    TotalsUpdate(run[i].envs, k, run[i].envs[k]);
  }

  /** A denial stops the application, and it stays stopped. */
  lemma {:induction false} StoppedStays(l: Limits, run: seq<State>, i: nat, j: nat)
    requires Run(l, run) && i <= j < |run| && run[i].stopped
    ensures run[j].stopped
    decreases j - i
  {
    if i < j {
      StoppedStays(l, run, i, j - 1);
      RunKeepsInv(l, run, j - 1);
      assert NextAt(l, run, j - 1);
      var a: Action :| Next(l, run[j - 1], a, run[j]);
      NextKeepsInv(l, run[j - 1], a, run[j]);
    }
  }

  /** The near-heap-limit callback charges the whole step it grants, or stops the application;
      a second denial raises nothing. */
  lemma GrantOrStop(l: Limits, s: State, i: nat, accept: bool, s': State)
    requires Inv(l, s) && Next(l, s, NearLimit(i, accept), s')
    ensures var p, q := s.envs[i].phase, s'.envs[i].phase;
            if !Within(l, s.heap + s.other + GROW_STEP) || (l.budget.Accounted? && !accept) then
              && s'.stopped && s'.heap == s.heap && q.Live? && !q.slack
              && q.limit == p.limit + if p.slack then UNWIND_SLACK else 0
            else
              q.Live? && q.unbooked == GROW_STEP && s'.heap == s.heap + GROW_STEP && s'.stopped == s.stopped
              && q.limit == p.limit
  {
    assert EnvOk(l, s.stopped, s.envs[i]);
  }

  /** A refused release keeps the charge, the slot and what the callback has booked. */
  lemma RefusedReleaseKeeps(l: Limits, s: State, i: nat, s': State)
    requires Inv(l, s) && Next(l, s, Release(i, true), s')
    ensures s' == s
  {
    assert s.envs[i].(phase := s.envs[i].phase) == s.envs[i];
    assert s'.envs == s.envs;
  }
}
