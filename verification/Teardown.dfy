/**
 Releasing an agent while its finalizers run guest code and other threads terminate or
 interrupt it.

 The agent's owner thread is a stack of activations: guest calls the engine makes into the
 bridge, a release, and the control calls the owner makes, from guest code or after its
 release. Any number of foreign threads make control calls. The registry lock has an explicit
 holder. One step is one access to the shared fields or one engine call; every interleaving
 of steps is a run.

 An agent has one environment, as it has in the source today.
 */
module Teardown {
  import opened Basics

  type Request = nat

  datatype Lock = Free | ByOwner | ByForeign(thread: nat)

  /** Guest code bracketed by a GuestCallScope. */
  datatype GuestPc = Count | ReadClosing | WantGate | AtGate | Running | Uncount | WantUncount | AtUncount

  /** DisposeBridgeState. `Draining` and `Releasing` are where the engine can call back. */
  datatype DisposePc =
    | CheckCalls | WantClose | Close | Draining | Releasing
    | WantErase | Erase | DeleteRequests(unserviced: set<Request>)

  /** request_interrupt and terminate_execution. */
  datatype ControlPc =
    | WantRequest | CheckRequest | RequestCall(request: Request) | WantUndo(undo: Request) | Undo(undo: Request)
    | WantTerminate | CheckTerminate | TerminateCall

  /** WasmInterruptCallback before and after it takes its request out of the pending set. */
  datatype InterruptPc = WantTake | Take | Taken

  datatype Frame =
    | Guest(pc: GuestPc, counted: bool, served: set<Request>)
    | Dispose(dpc: DisposePc)
    | Control(cpc: ControlPc)
    | Interrupt(ipc: InterruptPc, request: Request)

  datatype Foreign = Idle | Calling(fpc: ControlPc)

  /** pending_interrupts, the engine's own queue, the requests already freed, and the
      number ever made. */
  datatype Queue = Queue(pending: set<Request>, queued: set<Request>, freed: set<Request>, nextRequest: nat)

  /** What the threads share. */
  datatype Shared = Shared(
    lock: Lock,
    closing: bool,
    stopRequested: bool,
    teardownCalls: nat,
    guestCalls: nat,
    // the env is in g_envs; the isolate exists; the agent is allocated
    registered: bool,
    isolateAlive: bool,
    agentAlive: bool,
    q: Queue,
    // history: guest calls let in, and whether the engine was told to terminate since the last
    admitted: nat,
    terminatedSince: bool)

  datatype State = State(h: Shared, owner: seq<Frame>, foreign: seq<Foreign>)

  ghost predicate Init(s: State) {
    && s.h == Shared(Free, false, false, 0, 0, true, true, true, Queue({}, {}, {}, 0), 0, false)
    && s.owner == [] && forall i | 0 <= i < |s.foreign| :: s.foreign[i] == Idle
  }

  // --------------------------------------------------------------------------
  // Steps: `f` is the activation on top of the owner's stack, `now` what replaces it
  // --------------------------------------------------------------------------

  /** The owner thread may enter a new activation from here. */
  ghost predicate Open(f: Frame) {
    (f.Guest? && f.pc == Running) || (f.Dispose? && (f.dpc == Draining || f.dpc == Releasing))
  }

  /** The engine calls back, and a release starts, only while there is an isolate. The owner may
      make a control call at any time, also after its own release. */
  ghost predicate EnterStep(h: Shared, h': Shared, now: Frame) {
    && (!now.Control? ==> h.agentAlive && h.isolateAlive)
    && match now
       case Guest(pc, counted, served) => h' == h && pc == Count && !counted && served == {}
       case Dispose(pc) => h' == h && pc == CheckCalls
       case Control(pc) => h' == h && (pc == WantRequest || pc == WantTerminate)
       // The engine takes a request from its queue and calls back with it.
       case Interrupt(pc, r) => pc == WantTake && r in h.q.queued && h' == h.(q := h.q.(queued := h.q.queued - {r}))
  }

  ghost predicate GuestStep(h: Shared, h': Shared, f: Frame, now: Option<Frame>)
    requires f.Guest?
  {
    var Guest(pc, counted, served) := f;
    match pc
    case Count => now == Some(Guest(ReadClosing, false, served)) && h' == h.(guestCalls := h.guestCalls + 1)
    case ReadClosing =>
      if !h.closing then now == Some(Guest(Running, false, served)) && h' == h.(admitted := h.admitted + 1)
      else now == Some(Guest(WantGate, false, served)) && h' == h
    case WantGate => h.lock == Free && now == Some(Guest(AtGate, false, served)) && h' == h.(lock := ByOwner)
    case AtGate =>
      if h.stopRequested then now == Some(Guest(Uncount, false, served)) && h' == h.(lock := Free)
      else
        && now == Some(Guest(Running, true, served))
        && h' ==
             h.(lock := Free, teardownCalls := h.teardownCalls + 1, admitted := h.admitted + 1,
                terminatedSince := false)
    case Running => now == Some(Guest(Uncount, counted, {})) && h' == h.(q := h.q.(freed := h.q.freed + served))
    case Uncount =>
      && h.guestCalls > 0
      && now == (if counted then Some(Guest(WantUncount, true, {})) else None)
      && h' == h.(guestCalls := h.guestCalls - 1, q := h.q.(freed := h.q.freed + served))
    case WantUncount => h.lock == Free && now == Some(Guest(AtUncount, true, {})) && h' == h.(lock := ByOwner)
    case AtUncount =>
      h.teardownCalls > 0 && now == None && h' == h.(lock := Free, teardownCalls := h.teardownCalls - 1)
  }

  ghost predicate DisposeStep(h: Shared, h': Shared, f: Frame, now: Option<Frame>)
    requires f.Dispose?
  {
    match f.dpc
    case CheckCalls => h' == h && now == if h.guestCalls != 0 then None else Some(Dispose(WantClose))
    case WantClose => h.lock == Free && now == Some(Dispose(Close)) && h' == h.(lock := ByOwner)
    case Close =>
      if h.closing then now == None && h' == h.(lock := Free)
      else now == Some(Dispose(Draining)) && h' == h.(lock := Free, closing := true)
    case Draining => now == Some(Dispose(Releasing)) && h' == h
    // unofficial_napi_release_env returns: the isolate is gone, and with it its queue.
    case Releasing => now == Some(Dispose(WantErase)) && h' == h.(isolateAlive := false, q := h.q.(queued := {}))
    case WantErase => h.lock == Free && now == Some(Dispose(Erase)) && h' == h.(lock := ByOwner)
    case Erase =>
      && now == Some(Dispose(DeleteRequests(h.q.pending)))
      && h' == h.(lock := Free, registered := false, q := h.q.(pending := {}))
    case DeleteRequests(unserviced) =>
      now == None && h' == h.(agentAlive := false, q := h.q.(freed := h.q.freed + unserviced))
  }

  ghost predicate InterruptStep(h: Shared, h': Shared, f: Frame, now: Option<Frame>)
    requires f.Interrupt?
  {
    var Interrupt(pc, r) := f;
    match pc
    case WantTake => h.lock == Free && now == Some(Interrupt(Take, r)) && h' == h.(lock := ByOwner)
    case Take => now == Some(Interrupt(Taken, r)) && h' == h.(lock := Free, q := h.q.(pending := h.q.pending - {r}))
    // A closing agent runs no interrupt callbacks.
    case Taken =>
      if h.closing then now == None && h' == h.(q := h.q.(freed := h.q.freed + {r}))
      else now == Some(Guest(Count, false, {r})) && h' == h
  }

  /** A control call up to its engine call: `who` takes the lock, checks, and either gives
      up (`next` is None) or goes on. */
  ghost predicate CheckStep(h: Shared, h': Shared, who: Lock, keepLock: bool, pc: ControlPc, next: Option<ControlPc>) {
    match pc
    case WantRequest => h.lock == Free && next == Some(CheckRequest) && h' == h.(lock := who)
    case CheckRequest =>
      if !h.registered || h.closing then next == None && h' == h.(lock := Free)
      else
        && next == Some(RequestCall(h.q.nextRequest))
        && h' == h.(lock := if keepLock then h.lock else Free,
                    q := h.q.(pending := h.q.pending + {h.q.nextRequest}, nextRequest := h.q.nextRequest + 1))
    case WantTerminate => h.lock == Free && next == Some(CheckTerminate) && h' == h.(lock := who)
    case CheckTerminate =>
      if !h.registered || (h.closing && h.teardownCalls == 0) then
        && next == None
        && h' == h.(lock := Free, stopRequested := h.stopRequested || (h.registered && h.closing))
      else next == Some(TerminateCall) && h' == h.(stopRequested := h.stopRequested || h.closing)
    case _ => false
  }

  /** The engine call and what follows. The owner queues an interrupt without the lock, so
      it takes it again to undo; a foreign thread has kept it. */
  ghost predicate EngineStep(h: Shared, h': Shared, who: Lock, keepLock: bool, pc: ControlPc, next: Option<ControlPc>) {
    match pc
    case RequestCall(r) =>
      || (next == None && h' == h.(lock := if keepLock then Free else h.lock, q := h.q.(queued := h.q.queued + {r})))
      || (next == Some(if keepLock then Undo(r) else WantUndo(r)) && h' == h)
    case WantUndo(r) => h.lock == Free && next == Some(Undo(r)) && h' == h.(lock := who)
    case Undo(r) =>
      && next == None
      && h' == h.(lock := Free, q := h.q.(pending := h.q.pending - {r}, freed := h.q.freed + {r}))
    case TerminateCall => next == None && h' == h.(lock := Free, terminatedSince := true)
    case _ => false
  }

  ghost predicate ControlStep(h: Shared, h': Shared, who: Lock, keepLock: bool, pc: ControlPc,
      next: Option<ControlPc>) {
    CheckStep(h, h', who, keepLock, pc, next) || EngineStep(h, h', who, keepLock, pc, next)
  }

  function AsFrame(next: Option<ControlPc>): Option<Frame> {
    if next.None? then None else Some(Control(next.value))
  }

  function AsForeign(next: Option<ControlPc>): Foreign {
    if next.None? then Idle else Calling(next.value)
  }

  ghost predicate TopStep(h: Shared, h': Shared, f: Frame, now: Option<Frame>) {
    match f
    case Guest(_, _, _) => GuestStep(h, h', f, now)
    case Dispose(_) => DisposeStep(h, h', f, now)
    case Interrupt(_, _) => InterruptStep(h, h', f, now)
    case Control(pc) => exists next :: now == AsFrame(next) && ControlStep(h, h', ByOwner, false, pc, next)
  }

  ghost predicate ForeignStep(h: Shared, h': Shared, i: nat, f: Foreign, now: Foreign) {
    match f
    case Idle => h' == h && (now == Calling(WantRequest) || now == Calling(WantTerminate))
    case Calling(pc) => exists next :: now == AsForeign(next) && ControlStep(h, h', ByForeign(i), true, pc, next)
  }

  function Top(stack: seq<Frame>): Frame
    requires stack != []
  { stack[|stack| - 1] }

  function Below(stack: seq<Frame>): seq<Frame>
    requires stack != []
  { stack[..|stack| - 1] }

  function Stack(base: seq<Frame>, f: Option<Frame>): seq<Frame> {
    if f.None? then base else base + [f.value]
  }

  ghost predicate Enters(s: State, s': State, now: Frame) {
    && (s.owner == [] || Open(Top(s.owner))) && EnterStep(s.h, s'.h, now)
    && s'.owner == s.owner + [now] && s'.foreign == s.foreign
  }

  ghost predicate OwnerMoves(s: State, s': State, now: Option<Frame>) {
    && s.owner != [] && TopStep(s.h, s'.h, Top(s.owner), now)
    && s'.owner == Stack(Below(s.owner), now) && s'.foreign == s.foreign
  }

  ghost predicate ForeignMoves(s: State, s': State, i: nat) {
    && i < |s.foreign| == |s'.foreign| && s'.foreign == s.foreign[i := s'.foreign[i]] && s'.owner == s.owner
    && ForeignStep(s.h, s'.h, i, s.foreign[i], s'.foreign[i])
  }

  ghost predicate Next(s: State, s': State) {
    || (exists now :: Enters(s, s', now))
    || (exists now :: OwnerMoves(s, s', now))
    || (exists i :: ForeignMoves(s, s', i))
  }

  // --------------------------------------------------------------------------
  // Invariant
  // --------------------------------------------------------------------------

  ghost predicate ControlHolds(pc: ControlPc) {
    pc.CheckRequest? || pc.Undo? || pc.CheckTerminate? || pc.TerminateCall?
  }

  ghost predicate OwnerHolds(f: Frame) {
    match f
    case Guest(pc, _, _) => pc.AtGate? || pc.AtUncount?
    case Dispose(pc) => pc.Close? || pc.Erase?
    case Interrupt(pc, _) => pc.Take?
    case Control(pc) => ControlHolds(pc)
  }

  ghost predicate ForeignHolds(f: Foreign) { f.Calling? && (ControlHolds(f.fpc) || f.fpc.RequestCall?) }

  ghost predicate LockExact(s: State) {
    && (forall k | 0 <= k < |s.owner| - 1 :: Open(s.owner[k]))
    && (s.h.lock == ByOwner <==> s.owner != [] && OwnerHolds(Top(s.owner)))
    && (forall i | 0 <= i < |s.foreign| :: ForeignHolds(s.foreign[i]) <==> s.h.lock == ByForeign(i))
    && (s.h.lock.ByForeign? ==> s.h.lock.thread < |s.foreign|)
    && (forall i | 0 <= i < |s.foreign| :: s.foreign[i].Calling? ==> !s.foreign[i].fpc.WantUndo?)
  }

  /** Guest code counted in guest_calls, and in teardown_guest_calls. */
  ghost function InCall(f: Frame): nat {
    if f.Guest? && !f.pc.Count? && !f.pc.WantUncount? && !f.pc.AtUncount? then 1 else 0
  }

  ghost function InTeardown(f: Frame): nat { if f.Guest? && f.counted then 1 else 0 }

  ghost function GuestCalls(stack: seq<Frame>): nat {
    if stack == [] then 0 else GuestCalls(Below(stack)) + InCall(Top(stack))
  }

  ghost function TeardownCalls(stack: seq<Frame>): nat {
    if stack == [] then 0 else TeardownCalls(Below(stack)) + InTeardown(Top(stack))
  }

  ghost predicate CountsExact(s: State) {
    s.h.guestCalls == GuestCalls(s.owner) && s.h.teardownCalls == TeardownCalls(s.owner)
  }

  /** The release that set `closing` is under way. */
  ghost predicate Active(f: Frame) { f.Dispose? && !f.dpc.CheckCalls? && !f.dpc.WantClose? && !f.dpc.Close? }

  /** ... and has freed the isolate. */
  ghost predicate FreedIsolate(f: Frame) { f.Dispose? && (f.dpc.WantErase? || f.dpc.Erase? || f.dpc.DeleteRequests?) }

  /** Of an agent that is gone, a control call gets no further than its check. */
  ghost predicate Refused(f: Frame) {
    f.Control? && (f.cpc.WantRequest? || f.cpc.CheckRequest? || f.cpc.WantTerminate? || f.cpc.CheckTerminate?)
  }

  ghost predicate PhaseExact(s: State) {
    && (forall k | 1 <= k < |s.owner| :: !Active(s.owner[k]))
    && (s.h.closing <==> !s.h.agentAlive || (s.owner != [] && Active(s.owner[0])))
    && (s.h.isolateAlive <==> s.h.agentAlive && !(s.owner != [] && FreedIsolate(s.owner[0])))
    && (s.h.registered <==> s.h.agentAlive && !(s.owner != [] && s.owner[0].Dispose? && s.owner[0].dpc.DeleteRequests?))
    && (!s.h.agentAlive ==> forall k | 0 <= k < |s.owner| :: Refused(s.owner[k]))
    && (forall k | 0 <= k < |s.owner| :: GuestOk(s.h.closing, s.owner[k]))
  }

  /** On a closing agent, guest code runs only if it was let in and counted. */
  ghost predicate GuestOk(closing: bool, f: Frame) {
    f.Guest? ==>
      && (f.counted ==> closing && (f.pc.Running? || f.pc.Uncount? || f.pc.WantUncount? || f.pc.AtUncount?))
      && (f.pc.WantUncount? || f.pc.AtUncount? ==> f.counted && f.served == {})
      && (closing && f.pc.Running? ==> f.counted)
      && (f.pc.WantGate? || f.pc.AtGate? ==> closing)
  }

  /** What an activation has checked still holds when it acts on it. */
  ghost predicate TopOk(h: Shared, f: Frame) {
    && (f == Dispose(WantClose) || f == Dispose(Close) ==> h.guestCalls == 0)
    && (f.Control? ==> ControlSafe(h, f.cpc))
  }

  ghost predicate ControlSafe(h: Shared, pc: ControlPc) {
    && (pc.TerminateCall? ==> h.registered && (h.closing ==> h.teardownCalls > 0))
    && (pc.RequestCall? ==> h.registered && !h.closing)
  }

  ghost predicate CallsSafe(s: State) {
    && (s.owner != [] ==> TopOk(s.h, Top(s.owner)))
    && (forall i | 0 <= i < |s.foreign| && s.foreign[i].Calling? :: ControlSafe(s.h, s.foreign[i].fpc))
  }

  /** A thread is about to tell the engine to terminate. */
  ghost predicate Terminating(s: State) {
    || (s.owner != [] && Top(s.owner) == Control(TerminateCall))
    || (s.h.lock.ByForeign? && s.h.lock.thread < |s.foreign| && s.foreign[s.h.lock.thread] == Calling(TerminateCall))
  }

  ghost predicate StopEffective(s: State) {
    && (s.h.stopRequested ==> s.h.closing)
    && (s.h.stopRequested && s.h.teardownCalls > 0 && !Terminating(s) ==> s.h.terminatedSince)
  }

  // Interrupt requests. A claim is held by the one party that may still take a pending
  // request: the engine's queue, an interrupt callback, or the caller that is queueing it.
  // A detached request has left the pending set and is waiting to be freed by its frame.
  // Both are counted per request.

  ghost function ControlClaim(pc: ControlPc, r: Request): nat {
    match pc
    case RequestCall(q) => One(q == r)
    case WantUndo(q) => One(q == r)
    case Undo(q) => One(q == r)
    case _ => 0
  }

  ghost function Claim(f: Frame, r: Request): nat {
    match f
    case Interrupt(pc, q) => One(!pc.Taken? && q == r)
    case Control(pc) => ControlClaim(pc, r)
    case _ => 0
  }

  ghost function Detached(f: Frame, r: Request): nat {
    match f
    case Interrupt(pc, q) => One(pc.Taken? && q == r)
    case Guest(_, _, served) => One(r in served)
    case Dispose(DeleteRequests(unserviced)) => One(r in unserviced)
    case _ => 0
  }

  ghost function Claims(stack: seq<Frame>, r: Request): nat {
    if stack == [] then 0 else Claims(Below(stack), r) + Claim(Top(stack), r)
  }

  ghost function DetachedBy(stack: seq<Frame>, r: Request): nat {
    if stack == [] then 0 else DetachedBy(Below(stack), r) + Detached(Top(stack), r)
  }

  /** Only the lock's holder among the foreign threads has a claim. */
  ghost function ForeignClaim(s: State, r: Request): nat {
    if s.h.lock.ByForeign? && s.h.lock.thread < |s.foreign| && s.foreign[s.h.lock.thread].Calling?
    then ControlClaim(s.foreign[s.h.lock.thread].fpc, r) else 0
  }

  ghost function AllClaims(s: State, r: Request): nat {
    One(r in s.h.q.queued) + Claims(s.owner, r) + ForeignClaim(s, r)
  }

  /** A minted request is pending, or waiting in one frame to be freed, or freed: exactly
      one of the three, once. At most one party may take a pending request. */
  ghost predicate RequestAt(s: State, r: Request) {
    && One(r in s.h.q.pending) + DetachedBy(s.owner, r) + One(r in s.h.q.freed) == One(r < s.h.q.nextRequest)
    && AllClaims(s, r) <= One(r in s.h.q.pending)
  }

  ghost predicate RequestsExact(s: State) {
    forall r: Request :: RequestAt(s, r)
  }

  ghost predicate NoneLeft(h: Shared) {
    (!h.isolateAlive ==> h.q.queued == {}) && (!h.registered ==> h.q.pending == {})
  }

  ghost predicate Inv(s: State) {
    LockExact(s) && CountsExact(s) && PhaseExact(s) && CallsSafe(s) && StopEffective(s) && RequestsExact(s)
    && NoneLeft(s.h)
  }

  // --------------------------------------------------------------------------
  // What a step of the owner does, whatever lies below the top of its stack
  // --------------------------------------------------------------------------

  ghost predicate Holds(f: Option<Frame>) { f.Some? && OwnerHolds(f.value) }

  ghost predicate IsActive(f: Option<Frame>) { f.Some? && Active(f.value) }

  ghost function CallsOf(f: Option<Frame>): nat { if f.None? then 0 else InCall(f.value) }

  ghost function TeardownOf(f: Option<Frame>): nat { if f.None? then 0 else InTeardown(f.value) }

  ghost function ClaimOf(f: Option<Frame>, r: Request): nat { if f.None? then 0 else Claim(f.value, r) }

  ghost function DetachedOf(f: Option<Frame>, r: Request): nat { if f.None? then 0 else Detached(f.value, r) }

  ghost predicate LockEffect(h: Shared, h': Shared, was: Option<Frame>, now: Option<Frame>) {
    if h.lock.ByForeign? then h'.lock == h.lock && !Holds(now)
    else h'.lock == if Holds(now) then ByOwner else Free
  }

  ghost predicate CountEffect(h: Shared, h': Shared, was: Option<Frame>, now: Option<Frame>) {
    && h'.guestCalls + CallsOf(was) == h.guestCalls + CallsOf(now)
    && h'.teardownCalls + TeardownOf(was) == h.teardownCalls + TeardownOf(now)
  }

  /** A step of anything but the active release leaves the phase alone. */
  ghost predicate PhaseEffect(h: Shared, h': Shared, was: Option<Frame>, now: Option<Frame>) {
    && h'.closing == h.closing && h'.isolateAlive == h.isolateAlive
    && h'.registered == h.registered && h'.agentAlive == h.agentAlive
    && (h.agentAlive || now == None || Refused(now.value))
    && !IsActive(was) && !IsActive(now) && (now.Some? ==> GuestOk(h.closing, now.value))
  }

  ghost predicate CallEffect(h: Shared, h': Shared, now: Option<Frame>) {
    && (h'.teardownCalls < h.teardownCalls || h'.closing != h.closing || h'.registered != h.registered ==>
        h.lock == ByOwner)
    && (now.Some? ==> TopOk(h', now.value))
  }

  ghost predicate StopEffect(h: Shared, h': Shared, was: Option<Frame>, now: Option<Frame>) {
    && (h.closing ==> h'.closing)
    && (h'.stopRequested ==>
        h'.closing && (h.stopRequested || now == Some(Control(TerminateCall)) || h'.teardownCalls == 0))
    && (h.stopRequested ==>
          && h'.teardownCalls <= h.teardownCalls
          && h'.terminatedSince == (h.terminatedSince || was == Some(Control(TerminateCall))))
  }

  /** One request changes hands: what is pending, detached or freed grows by what is
      minted, and its claims grow by no more than its place in the pending set. */
  ghost predicate Conserves(q: Queue, q': Queue, claim: nat, claim': nat, out: nat, out': nat, r: Request) {
    && One(r in q'.pending) + out' + One(r in q'.freed) + One(r < q.nextRequest)
         == One(r in q.pending) + out + One(r in q.freed) + One(r < q'.nextRequest)
    && One(r in q'.queued) + claim' + One(r in q.pending) <= One(r in q.queued) + claim + One(r in q'.pending)
  }

  /** What is known of a request before a step by whoever holds `claim` and `out`. */
  ghost predicate RequestFacts(q: Queue, claim: nat, out: nat, r: Request) {
    && One(r in q.pending) + out + One(r in q.freed) <= One(r < q.nextRequest)
    && One(r in q.queued) + claim <= One(r in q.pending)
  }

  ghost predicate LeftEffect(h: Shared, h': Shared) { NoneLeft(h) ==> NoneLeft(h') }

  ghost predicate CallsEffect(h: Shared, h': Shared, was: Option<Frame>, now: Option<Frame>) {
    && LockEffect(h, h', was, now) && CountEffect(h, h', was, now) && CallEffect(h, h', now)
    && StopEffect(h, h', was, now)
    && LeftEffect(h, h')
  }

  ghost predicate RequestEffect(h: Shared, h': Shared, was: Option<Frame>, now: Option<Frame>, r: Request) {
    Conserves(h.q, h'.q, ClaimOf(was, r), ClaimOf(now, r), DetachedOf(was, r), DetachedOf(now, r), r)
  }

  /** What the invariant says of the shared fields and the activation on top. */
  ghost predicate TopFacts(h: Shared, f: Frame) {
    && (OwnerHolds(f) <==> h.lock == ByOwner)
    && GuestOk(h.closing, f) && TopOk(h, f)
    && (Active(f) ==> h.closing)
    && (!Active(f) && h.agentAlive ==> h.isolateAlive && h.registered)
    && (!h.agentAlive ==> Refused(f) && !h.isolateAlive && !h.registered)
    && h.guestCalls >= InCall(f) && h.teardownCalls >= InTeardown(f)
    && (h.stopRequested ==> h.closing)
  }

  ghost predicate CanEnter(h: Shared) {
    h.lock != ByOwner && (h.stopRequested ==> h.closing)
  }

  lemma EnterEffect(h: Shared, h': Shared, now: Frame)
    requires CanEnter(h) && EnterStep(h, h', now)
    ensures CallsEffect(h, h', None, Some(now)) && PhaseEffect(h, h', None, Some(now))
  {
  }

  lemma EnterRequests(h: Shared, h': Shared, now: Frame, r: Request)
    requires EnterStep(h, h', now)
    ensures RequestEffect(h, h', None, Some(now), r)
  {
  }

  lemma GuestEffect(h: Shared, h': Shared, f: Frame, now: Option<Frame>)
    requires f.Guest? && TopFacts(h, f) && GuestStep(h, h', f, now)
    ensures CallsEffect(h, h', Some(f), now) && PhaseEffect(h, h', Some(f), now)
  {
  }

  lemma GuestRequests(h: Shared, h': Shared, f: Frame, now: Option<Frame>, r: Request)
    requires f.Guest? && TopFacts(h, f) && GuestStep(h, h', f, now)
    requires RequestFacts(h.q, Claim(f, r), Detached(f, r), r)
    ensures RequestEffect(h, h', Some(f), now, r)
  {
  }

  lemma InterruptEffect(h: Shared, h': Shared, f: Frame, now: Option<Frame>)
    requires f.Interrupt? && TopFacts(h, f) && InterruptStep(h, h', f, now)
    ensures CallsEffect(h, h', Some(f), now) && PhaseEffect(h, h', Some(f), now)
  {
  }

  lemma InterruptRequests(h: Shared, h': Shared, f: Frame, now: Option<Frame>, r: Request)
    requires f.Interrupt? && InterruptStep(h, h', f, now)
    requires RequestFacts(h.q, Claim(f, r), Detached(f, r), r)
    ensures RequestEffect(h, h', Some(f), now, r)
  {
  }

  lemma ControlEffect(h: Shared, h': Shared, pc: ControlPc, next: Option<ControlPc>)
    requires TopFacts(h, Control(pc)) && ControlStep(h, h', ByOwner, false, pc, next)
    ensures CallsEffect(h, h', Some(Control(pc)), AsFrame(next)) && PhaseEffect(h, h', Some(Control(pc)), AsFrame(next))
  {
  }

  ghost function ClaimAfter(next: Option<ControlPc>, r: Request): nat {
    if next.None? then 0 else ControlClaim(next.value, r)
  }

  lemma CheckRequests(h: Shared, h': Shared, who: Lock, keepLock: bool, pc: ControlPc, next: Option<ControlPc>,
      r: Request)
    requires CheckStep(h, h', who, keepLock, pc, next) && h.q.nextRequest !in h.q.pending
    ensures Conserves(h.q, h'.q, ControlClaim(pc, r), ClaimAfter(next, r), 0, 0, r)
  {
    hide Conserves;
    if h'.q == h.q {
      Unmoved(h.q, ControlClaim(pc, r), ClaimAfter(next, r), r);
    } else {
      Mints(h.q, h'.q, r);
    }
  }

  lemma Unmoved(q: Queue, claim: nat, claim': nat, r: Request)
    requires claim' <= claim
    ensures Conserves(q, q, claim, claim', 0, 0, r)
  {
  }

  lemma Mints(a: Queue, b: Queue, r: Request)
    requires b == a.(pending := a.pending + {a.nextRequest}, nextRequest := a.nextRequest + 1)
    requires a.nextRequest !in a.pending
    ensures Conserves(a, b, 0, One(r == a.nextRequest), 0, 0, r)
  {
  }

  lemma EngineRequests(h: Shared, h': Shared, who: Lock, keepLock: bool, pc: ControlPc, next: Option<ControlPc>,
      r: Request)
    requires EngineStep(h, h', who, keepLock, pc, next) && RequestFacts(h.q, ControlClaim(pc, r), 0, r)
    ensures Conserves(h.q, h'.q, ControlClaim(pc, r), ClaimAfter(next, r), 0, 0, r)
  {
    hide Conserves, RequestFacts;
    match pc {
      case RequestCall(q) =>
        if next.None? { Queues(h.q, h'.q, q, r); } else { Unmoved(h.q, One(q == r), One(q == r), r); }
      case Undo(q) => Undoes(h.q, h'.q, q, r);
      case WantUndo(q) => Unmoved(h.q, One(q == r), One(q == r), r);
      case TerminateCall => Unmoved(h.q, 0, 0, r);
      case _ =>
    }
  }

  lemma Queues(a: Queue, b: Queue, q: Request, r: Request)
    requires b == a.(queued := a.queued + {q}) && RequestFacts(a, One(q == r), 0, r)
    ensures Conserves(a, b, One(q == r), 0, 0, 0, r)
  {
  }

  lemma Undoes(a: Queue, b: Queue, q: Request, r: Request)
    requires b == a.(pending := a.pending - {q}, freed := a.freed + {q}) && RequestFacts(a, One(q == r), 0, r)
    ensures Conserves(a, b, One(q == r), 0, 0, 0, r)
  {
  }

  lemma ControlRequests(h: Shared, h': Shared, who: Lock, keepLock: bool, pc: ControlPc, next: Option<ControlPc>,
      r: Request)
    requires ControlStep(h, h', who, keepLock, pc, next) && RequestFacts(h.q, ControlClaim(pc, r), 0, r)
    requires h.q.nextRequest !in h.q.pending
    ensures Conserves(h.q, h'.q, ControlClaim(pc, r), ClaimAfter(next, r), 0, 0, r)
  {
    if CheckStep(h, h', who, keepLock, pc, next) {
      CheckRequests(h, h', who, keepLock, pc, next, r);
    } else {
      EngineRequests(h, h', who, keepLock, pc, next, r);
    }
  }

  lemma DisposeEffect(h: Shared, h': Shared, f: Frame, now: Option<Frame>)
    requires f.Dispose? && TopFacts(h, f) && DisposeStep(h, h', f, now)
    ensures CallsEffect(h, h', Some(f), now)
    ensures !Active(f) && !(f == Dispose(Close) && !h.closing) ==> PhaseEffect(h, h', Some(f), now)
  {
  }

  /** Erasing takes every pending request at once, so by then none may have a claimant. */
  lemma DisposeRequests(h: Shared, h': Shared, f: Frame, now: Option<Frame>, r: Request)
    requires f.Dispose? && DisposeStep(h, h', f, now)
    requires RequestFacts(h.q, Claim(f, r), Detached(f, r), r)
    ensures f.dpc != Erase ==> RequestEffect(h, h', Some(f), now, r)
    ensures f.dpc == Erase ==>
              && One(r in h'.q.pending) + DetachedOf(now, r) + One(r in h'.q.freed) + One(r < h.q.nextRequest)
                   == One(r in h.q.pending) + Detached(f, r) + One(r in h.q.freed) + One(r < h'.q.nextRequest)
              && h'.q.queued == h.q.queued && h'.q.pending == {}
  {
  }

  // --------------------------------------------------------------------------
  // Every step of the owner keeps the invariant
  // --------------------------------------------------------------------------

  /** The owner replaced `was` by `now` on top of `base`. */
  ghost predicate Moves(s: State, s': State, base: seq<Frame>, was: Option<Frame>, now: Option<Frame>) {
    && s.owner == Stack(base, was) && s'.owner == Stack(base, now) && s'.foreign == s.foreign
    && (base == [] || Open(Top(base)))
  }

  lemma KeepsLock(s: State, s': State, base: seq<Frame>, was: Option<Frame>, now: Option<Frame>)
    requires LockExact(s) && Moves(s, s', base, was, now) && LockEffect(s.h, s'.h, was, now)
    ensures LockExact(s')
  {
    forall k | 0 <= k < |s'.owner| - 1 ensures Open(s'.owner[k]) {
      assert s'.owner[k] == base[k];
      if k < |base| - 1 { assert s.owner[k] == base[k]; }
    }
  }

  lemma CallSums(base: seq<Frame>, f: Option<Frame>)
    ensures GuestCalls(Stack(base, f)) == GuestCalls(base) + CallsOf(f)
    ensures TeardownCalls(Stack(base, f)) == TeardownCalls(base) + TeardownOf(f)
  {
    if f.Some? { assert Below(base + [f.value]) == base; }
  }

  lemma RequestSums(base: seq<Frame>, f: Option<Frame>, r: Request)
    ensures Claims(Stack(base, f), r) == Claims(base, r) + ClaimOf(f, r)
    ensures DetachedBy(Stack(base, f), r) == DetachedBy(base, r) + DetachedOf(f, r)
  {
    if f.Some? { assert Below(base + [f.value]) == base; }
  }

  lemma KeepsCounts(s: State, s': State, base: seq<Frame>, was: Option<Frame>, now: Option<Frame>)
    requires CountsExact(s) && Moves(s, s', base, was, now) && CountEffect(s.h, s'.h, was, now)
    ensures CountsExact(s')
  {
    CallSums(base, was);
    CallSums(base, now);
  }

  lemma KeepsPhase(s: State, s': State, base: seq<Frame>, was: Option<Frame>, now: Option<Frame>)
    requires PhaseExact(s) && Moves(s, s', base, was, now) && PhaseEffect(s.h, s'.h, was, now)
    ensures PhaseExact(s')
  {
    forall k | 0 <= k < |base| ensures s'.owner[k] == base[k] == s.owner[k] {}
  }

  lemma KeepsCalls(s: State, s': State, base: seq<Frame>, was: Option<Frame>, now: Option<Frame>)
    requires LockExact(s) && CallsSafe(s) && Moves(s, s', base, was, now) && CallEffect(s.h, s'.h, now)
    ensures CallsSafe(s')
  {
    forall i | 0 <= i < |s.foreign| && s.foreign[i].Calling? ensures ControlSafe(s'.h, s.foreign[i].fpc) {
      assert ControlSafe(s.h, s.foreign[i].fpc);
      assert ForeignHolds(s.foreign[i]) <==> s.h.lock == ByForeign(i);
    }
  }

  lemma KeepsStop(s: State, s': State, base: seq<Frame>, was: Option<Frame>, now: Option<Frame>)
    requires LockExact(s) && StopEffective(s) && Moves(s, s', base, was, now)
    requires LockEffect(s.h, s'.h, was, now) && StopEffect(s.h, s'.h, was, now)
    ensures StopEffective(s')
  {
  }

  lemma KeepsRequest(s: State, s': State, base: seq<Frame>, was: Option<Frame>, now: Option<Frame>, r: Request)
    requires RequestAt(s, r) && Moves(s, s', base, was, now) && LockEffect(s.h, s'.h, was, now)
    requires RequestEffect(s.h, s'.h, was, now, r)
    ensures RequestAt(s', r)
  {
    RequestSums(base, was, r);
    RequestSums(base, now, r);
    SameForeignClaim(s, s', was, now, r);
  }

  lemma SameForeignClaim(s: State, s': State, was: Option<Frame>, now: Option<Frame>, r: Request)
    requires s'.foreign == s.foreign && LockEffect(s.h, s'.h, was, now)
    ensures ForeignClaim(s', r) == ForeignClaim(s, r)
  {
  }

  lemma OwnerKeeps(s: State, s': State, base: seq<Frame>, was: Option<Frame>, now: Option<Frame>)
    requires Inv(s) && Moves(s, s', base, was, now)
    requires CallsEffect(s.h, s'.h, was, now) && PhaseEffect(s.h, s'.h, was, now)
    requires forall r: Request :: RequestEffect(s.h, s'.h, was, now, r)
    ensures Inv(s')
  {
    KeepsLock(s, s', base, was, now);
    KeepsCounts(s, s', base, was, now);
    KeepsPhase(s, s', base, was, now);
    KeepsCalls(s, s', base, was, now);
    KeepsStop(s, s', base, was, now);
    forall r: Request ensures RequestAt(s', r) {
      assert RequestAt(s, r) && RequestEffect(s.h, s'.h, was, now, r);
      KeepsRequest(s, s', base, was, now, r);
    }
  }

  lemma BelowIsAlive(s: State)
    requires LockExact(s) && PhaseExact(s) && s.owner != [] && !Active(Top(s.owner))
    ensures s.h.agentAlive ==> s.h.isolateAlive && s.h.registered
  {
    if |s.owner| > 1 { assert Open(s.owner[0]); }
  }

  lemma TopMoves(s: State)
    requires LockExact(s) && s.owner != []
    ensures Moves(s, s, Below(s.owner), Some(Top(s.owner)), Some(Top(s.owner)))
  {
    var base := Below(s.owner);
    if base != [] { assert Top(base) == s.owner[|s.owner| - 2]; }
    assert s.owner == base + [Top(s.owner)];
  }

  lemma TopHolds(s: State)
    requires Inv(s) && s.owner != []
    ensures TopFacts(s.h, Top(s.owner))
    ensures Moves(s, s, Below(s.owner), Some(Top(s.owner)), Some(Top(s.owner)))
    ensures Active(Top(s.owner)) ==> Below(s.owner) == []
  {
    hide LockExact, PhaseExact, CountsExact, CallsSafe, RequestsExact, NoneLeft, GuestOk, TopOk, Moves, Refused;
    TopMoves(s);
    TopPhase(s);
    TopCounts(s);
    TopChecks(s);
  }

  lemma TopChecks(s: State)
    requires LockExact(s) && CallsSafe(s) && s.owner != []
    ensures (OwnerHolds(Top(s.owner)) <==> s.h.lock == ByOwner) && TopOk(s.h, Top(s.owner))
  {
  }

  lemma TopCounts(s: State)
    requires CountsExact(s) && s.owner != []
    ensures s.h.guestCalls >= InCall(Top(s.owner)) && s.h.teardownCalls >= InTeardown(Top(s.owner))
  {
  }

  lemma TopPhase(s: State)
    requires LockExact(s) && PhaseExact(s) && s.owner != []
    ensures var f := Top(s.owner);
            && GuestOk(s.h.closing, f) && (Active(f) ==> s.h.closing && Below(s.owner) == [])
            && (!Active(f) && s.h.agentAlive ==> s.h.isolateAlive && s.h.registered)
            && (!s.h.agentAlive ==> Refused(f) && !s.h.isolateAlive && !s.h.registered)
  {
    hide GuestOk, Refused;
    if !Active(Top(s.owner)) { BelowIsAlive(s); }
  }

  lemma TopRequests(s: State, r: Request)
    requires RequestsExact(s) && s.owner != []
    ensures RequestFacts(s.h.q, Claim(Top(s.owner), r), Detached(Top(s.owner), r), r)
    ensures s.h.q.nextRequest !in s.h.q.pending
  {
    assert RequestAt(s, r) && RequestAt(s, s.h.q.nextRequest);
  }

  lemma EnterKeeps(s: State, s': State, now: Frame)
    requires Inv(s) && Enters(s, s', now)
    ensures Inv(s')
  {
    EnterEffect(s.h, s'.h, now);
    forall r: Request ensures RequestEffect(s.h, s'.h, None, Some(now), r) {
      EnterRequests(s.h, s'.h, now, r);
    }
    OwnerKeeps(s, s', s.owner, None, Some(now));
  }

  lemma GuestKeeps(s: State, s': State, now: Option<Frame>)
    requires Inv(s) && OwnerMoves(s, s', now) && Top(s.owner).Guest?
    ensures Inv(s')
  {
    hide LockExact, PhaseExact, CountsExact, CallsSafe, StopEffective, NoneLeft, TopFacts, RequestEffect;
    var f := Top(s.owner);
    TopHolds(s);
    SameBase(s, s', now);
    GuestEffect(s.h, s'.h, f, now);
    forall r: Request ensures RequestEffect(s.h, s'.h, Some(f), now, r) {
      TopRequests(s, r);
      GuestRequests(s.h, s'.h, f, now, r);
    }
    OwnerKeeps(s, s', Below(s.owner), Some(f), now);
  }

  lemma InterruptKeeps(s: State, s': State, now: Option<Frame>)
    requires Inv(s) && OwnerMoves(s, s', now) && Top(s.owner).Interrupt?
    ensures Inv(s')
  {
    hide LockExact, PhaseExact, CountsExact, CallsSafe, StopEffective, NoneLeft, TopFacts, RequestEffect;
    var f := Top(s.owner);
    TopHolds(s);
    SameBase(s, s', now);
    InterruptEffect(s.h, s'.h, f, now);
    forall r: Request ensures RequestEffect(s.h, s'.h, Some(f), now, r) {
      TopRequests(s, r);
      InterruptRequests(s.h, s'.h, f, now, r);
    }
    OwnerKeeps(s, s', Below(s.owner), Some(f), now);
  }

  lemma ControlKeeps(s: State, s': State, now: Option<Frame>)
    requires Inv(s) && OwnerMoves(s, s', now) && Top(s.owner).Control?
    ensures Inv(s')
  {
    var pc := Top(s.owner).cpc;
    var next := ControlNext(s.h, s'.h, pc, now);
    TopHolds(s);
    ControlKeepsAs(s, s', pc, next);
  }

  lemma ControlNext(h: Shared, h': Shared, pc: ControlPc, now: Option<Frame>) returns (next: Option<ControlPc>)
    requires TopStep(h, h', Control(pc), now)
    ensures now == AsFrame(next) && ControlStep(h, h', ByOwner, false, pc, next)
  {
    next :| now == AsFrame(next) && ControlStep(h, h', ByOwner, false, pc, next);
  }

  lemma ControlKeepsAs(s: State, s': State, pc: ControlPc, next: Option<ControlPc>)
    requires Inv(s) && s.owner != [] && Top(s.owner) == Control(pc) && TopFacts(s.h, Control(pc))
    requires Moves(s, s', Below(s.owner), Some(Control(pc)), AsFrame(next))
    requires ControlStep(s.h, s'.h, ByOwner, false, pc, next)
    ensures Inv(s')
  {
    ControlEffect(s.h, s'.h, pc, next);
    ControlRequestsAll(s, s', pc, next);
    OwnerKeeps(s, s', Below(s.owner), Some(Control(pc)), AsFrame(next));
  }

  lemma ControlRequestsAll(s: State, s': State, pc: ControlPc, next: Option<ControlPc>)
    requires RequestsExact(s) && s.owner != [] && Top(s.owner) == Control(pc)
    requires ControlStep(s.h, s'.h, ByOwner, false, pc, next)
    ensures forall r: Request :: RequestEffect(s.h, s'.h, Some(Control(pc)), AsFrame(next), r)
  {
    forall r: Request ensures RequestEffect(s.h, s'.h, Some(Control(pc)), AsFrame(next), r) {
      TopRequests(s, r);
      ControlRequestsOf(s.h, s'.h, pc, next, r);
    }
  }

  lemma ControlRequestsOf(h: Shared, h': Shared, pc: ControlPc, next: Option<ControlPc>, r: Request)
    requires ControlStep(h, h', ByOwner, false, pc, next) && RequestFacts(h.q, Claim(Control(pc), r), 0, r)
    requires h.q.nextRequest !in h.q.pending
    ensures RequestEffect(h, h', Some(Control(pc)), AsFrame(next), r)
  {
    ControlRequests(h, h', ByOwner, false, pc, next, r);
  }

  // The release.

  /** A release that found no guest call is the only activation: whatever could be below
      it is guest code, or another release that has already set `closing`. */
  lemma NothingBelow(s: State)
    requires Inv(s) && s.owner != [] && Top(s.owner) == Dispose(Close) && !s.h.closing
    ensures Below(s.owner) == []
  {
    TopHolds(s);
    CallSums(Below(s.owner), Some(Top(s.owner)));
  }

  lemma ReleasePhase(s: State, s': State, now: Option<Frame>)
    requires Inv(s) && OwnerMoves(s, s', now) && Below(s.owner) == []
    requires Active(Top(s.owner)) || (Top(s.owner) == Dispose(Close) && !s.h.closing)
    ensures PhaseExact(s')
  {
    assert s.owner == [Top(s.owner)];
  }

  lemma DisposeKeepsRequests(s: State, s': State, now: Option<Frame>)
    requires Inv(s) && OwnerMoves(s, s', now) && Top(s.owner).Dispose?
    requires LockEffect(s.h, s'.h, Some(Top(s.owner)), now)
    ensures RequestsExact(s')
  {
    hide LockExact, PhaseExact, CountsExact, CallsSafe, StopEffective, NoneLeft, RequestAt;
    TopHolds(s);
    if Top(s.owner) == Dispose(Erase) { EraseIsAlone(s); }
    SameBase(s, s', now);
    forall r: Request ensures RequestAt(s', r) {
      DisposeKeepsRequest(s, s', now, r);
    }
  }

  lemma EraseIsAlone(s: State)
    requires PhaseExact(s) && NoneLeft(s.h) && s.owner != [] && Top(s.owner) == Dispose(Erase)
    ensures s.owner == [Dispose(Erase)] && s.h.q.queued == {}
  {
    assert Active(s.owner[|s.owner| - 1]);
  }

  lemma SameBase(s: State, s': State, now: Option<Frame>)
    requires s.owner != [] && OwnerMoves(s, s', now)
    requires Moves(s, s, Below(s.owner), Some(Top(s.owner)), Some(Top(s.owner)))
    ensures Moves(s, s', Below(s.owner), Some(Top(s.owner)), now)
  {
  }

  lemma DisposeKeepsRequest(s: State, s': State, now: Option<Frame>, r: Request)
    requires RequestsExact(s) && OwnerMoves(s, s', now) && Top(s.owner).Dispose?
    requires Moves(s, s', Below(s.owner), Some(Top(s.owner)), now)
    requires LockEffect(s.h, s'.h, Some(Top(s.owner)), now) && TopFacts(s.h, Top(s.owner))
    requires Top(s.owner) == Dispose(Erase) ==> s.owner == [Dispose(Erase)] && s.h.q.queued == {}
    ensures RequestAt(s', r)
  {
    var base, f := Below(s.owner), Top(s.owner);
    TopRequests(s, r);
    assert RequestAt(s, r);
    DisposeRequests(s.h, s'.h, f, now, r);
    if f.dpc == Erase {
      EraseKeepsRequest(s, s', now, r);
    } else {
      hide DisposeStep, RequestAt, TopFacts;
      KeepsRequest(s, s', base, Some(f), now, r);
    }
  }

  lemma EraseKeepsRequest(s: State, s': State, now: Option<Frame>, r: Request)
    requires RequestAt(s, r) && s.owner == [Dispose(Erase)] && s.h.lock == ByOwner && s.h.q.queued == {}
    requires Moves(s, s', Below(s.owner), Some(Dispose(Erase)), now) && DisposeStep(s.h, s'.h, Dispose(Erase), now)
    ensures RequestAt(s', r)
  {
    var base, f := Below(s.owner), Top(s.owner);
    RequestSums(base, Some(f), r);
    RequestSums(base, now, r);
  }

  lemma DisposeKeeps(s: State, s': State, now: Option<Frame>)
    requires Inv(s) && OwnerMoves(s, s', now) && Top(s.owner).Dispose?
    ensures Inv(s')
  {
    hide LockExact, PhaseExact, CountsExact, CallsSafe, StopEffective, RequestsExact, TopFacts;
    hide LockEffect, CountEffect, CallEffect, StopEffect, PhaseEffect, DisposeStep;
    var base, f := Below(s.owner), Top(s.owner);
    TopHolds(s);
    SameBase(s, s', now);
    DisposeEffect(s.h, s'.h, f, now);
    KeepsLock(s, s', base, Some(f), now);
    KeepsCounts(s, s', base, Some(f), now);
    KeepsCalls(s, s', base, Some(f), now);
    KeepsStop(s, s', base, Some(f), now);
    DisposeKeepsRequests(s, s', now);
    if Active(f) {
      ReleasePhase(s, s', now);
    } else if f == Dispose(Close) && !s.h.closing {
      NothingBelow(s);
      ReleasePhase(s, s', now);
    } else {
      KeepsPhase(s, s', base, Some(f), now);
    }
  }

  lemma OwnerStepKeeps(s: State, s': State, now: Option<Frame>)
    requires Inv(s) && OwnerMoves(s, s', now)
    ensures Inv(s')
  {
    match Top(s.owner) {
      case Guest(_, _, _) => GuestKeeps(s, s', now);
      case Dispose(_) => DisposeKeeps(s, s', now);
      case Interrupt(_, _) => InterruptKeeps(s, s', now);
      case Control(_) => ControlKeeps(s, s', now);
    }
  }

  // --------------------------------------------------------------------------
  // Every step of a foreign thread keeps the invariant
  // --------------------------------------------------------------------------

  ghost predicate ForeignLock(h: Shared, h': Shared, i: nat, f: Foreign, now: Foreign) {
    if ForeignHolds(f) then h'.lock == if ForeignHolds(now) then ByForeign(i) else Free
    else if ForeignHolds(now) then h.lock == Free && h'.lock == ByForeign(i)
    else h'.lock == h.lock
  }

  ghost predicate ForeignEffect(h: Shared, h': Shared, i: nat, f: Foreign, now: Foreign) {
    && ForeignLock(h, h', i, f, now)
    && h'.guestCalls == h.guestCalls && h'.teardownCalls == h.teardownCalls
    && h'.closing == h.closing && h'.isolateAlive == h.isolateAlive
    && h'.registered == h.registered && h'.agentAlive == h.agentAlive
    && (now.Calling? ==> ControlSafe(h', now.fpc) && !now.fpc.WantUndo?)
    && (h'.stopRequested ==> h.stopRequested || (h.closing && (now == Calling(TerminateCall) || h.teardownCalls == 0)))
    && h'.terminatedSince == (h.terminatedSince || f == Calling(TerminateCall))
    && LeftEffect(h, h')
  }

  lemma ForeignDoes(h: Shared, h': Shared, i: nat, f: Foreign, now: Foreign)
    requires ForeignStep(h, h', i, f, now) && (ForeignHolds(f) <==> h.lock == ByForeign(i))
    requires (f.Calling? ==> ControlSafe(h, f.fpc) && !f.fpc.WantUndo?) && (!h.closing ==> h.isolateAlive)
    ensures ForeignEffect(h, h', i, f, now)
  {
    if f.Calling? {
      var next :| now == AsForeign(next) && ControlStep(h, h', ByForeign(i), true, f.fpc, next);
      if CheckStep(h, h', ByForeign(i), true, f.fpc, next) {
        ForeignChecks(h, h', i, f.fpc, next);
      } else {
        ForeignCallsEngine(h, h', i, f.fpc, next);
      }
    }
  }

  lemma ForeignChecks(h: Shared, h': Shared, i: nat, pc: ControlPc, next: Option<ControlPc>)
    requires CheckStep(h, h', ByForeign(i), true, pc, next) && (ForeignHolds(Calling(pc)) <==> h.lock == ByForeign(i))
    ensures ForeignEffect(h, h', i, Calling(pc), AsForeign(next))
  {
  }

  lemma ForeignCallsEngine(h: Shared, h': Shared, i: nat, pc: ControlPc, next: Option<ControlPc>)
    requires EngineStep(h, h', ByForeign(i), true, pc, next) && (ForeignHolds(Calling(pc)) <==> h.lock == ByForeign(i))
    requires !pc.WantUndo? && (pc.RequestCall? ==> h.isolateAlive)
    ensures ForeignEffect(h, h', i, Calling(pc), AsForeign(next))
  {
    hide ForeignLock, LeftEffect;
    EngineLocks(h, h', i, pc, next);
    assert LeftEffect(h, h') by { EngineLeaves(h, h', i, pc, next); }
  }

  lemma EngineLocks(h: Shared, h': Shared, i: nat, pc: ControlPc, next: Option<ControlPc>)
    requires EngineStep(h, h', ByForeign(i), true, pc, next) && (ForeignHolds(Calling(pc)) <==> h.lock == ByForeign(i))
    requires !pc.WantUndo?
    ensures ForeignLock(h, h', i, Calling(pc), AsForeign(next))
  {
  }

  lemma EngineLeaves(h: Shared, h': Shared, i: nat, pc: ControlPc, next: Option<ControlPc>)
    requires EngineStep(h, h', ByForeign(i), true, pc, next)
    requires !pc.WantUndo? && (pc.RequestCall? ==> h.isolateAlive)
    ensures LeftEffect(h, h')
  {
  }

  lemma ForeignKeepsMost(s: State, s': State, i: nat)
    requires Inv(s) && ForeignMoves(s, s', i) && ForeignEffect(s.h, s'.h, i, s.foreign[i], s'.foreign[i])
    ensures LockExact(s') && CountsExact(s') && PhaseExact(s') && CallsSafe(s')
  {
  }

  lemma ForeignKeepsStop(s: State, s': State, i: nat)
    requires LockExact(s) && StopEffective(s)
    requires ForeignMoves(s, s', i) && ForeignEffect(s.h, s'.h, i, s.foreign[i], s'.foreign[i])
    ensures StopEffective(s')
  {
  }

  lemma ForeignClaimIs(s: State, s': State, i: nat, pc: ControlPc, next: Option<ControlPc>, r: Request)
    requires LockExact(s) && ForeignMoves(s, s', i) && ForeignEffect(s.h, s'.h, i, s.foreign[i], s'.foreign[i])
    requires s.foreign[i] == Calling(pc) && s'.foreign[i] == AsForeign(next)
    requires ControlStep(s.h, s'.h, ByForeign(i), true, pc, next)
    ensures ForeignClaim(s, r) == ControlClaim(pc, r) && ForeignClaim(s', r) == ClaimAfter(next, r)
  {
  }

  lemma ForeignKeepsRequest(s: State, s': State, i: nat, pc: ControlPc, next: Option<ControlPc>, r: Request)
    requires Inv(s) && ForeignMoves(s, s', i) && ForeignEffect(s.h, s'.h, i, s.foreign[i], s'.foreign[i])
    requires s.foreign[i] == Calling(pc) && s'.foreign[i] == AsForeign(next)
    requires ControlStep(s.h, s'.h, ByForeign(i), true, pc, next)
    ensures RequestAt(s', r)
  {
    ForeignClaimIs(s, s', i, pc, next, r);
    assert RequestAt(s, r) && RequestAt(s, s.h.q.nextRequest);
    ControlRequests(s.h, s'.h, ByForeign(i), true, pc, next, r);
  }

  lemma ForeignStepKeeps(s: State, s': State, i: nat)
    requires Inv(s) && ForeignMoves(s, s', i)
    ensures Inv(s')
  {
    var f, now := s.foreign[i], s'.foreign[i];
    ForeignDoes(s.h, s'.h, i, f, now);
    ForeignKeepsMost(s, s', i);
    ForeignKeepsStop(s, s', i);
    if f.Calling? {
      var next :| now == AsForeign(next) && ControlStep(s.h, s'.h, ByForeign(i), true, f.fpc, next);
      forall r: Request ensures RequestAt(s', r) {
        ForeignKeepsRequest(s, s', i, f.fpc, next, r);
      }
    } else {
      ForeignStarts(s, s', i);
    }
  }

  lemma ForeignStarts(s: State, s': State, i: nat)
    requires RequestsExact(s) && ForeignMoves(s, s', i) && s.foreign[i] == Idle && LockExact(s)
    ensures RequestsExact(s')
  {
    forall r: Request ensures RequestAt(s', r) {
      assert RequestAt(s, r) && ForeignClaim(s', r) == ForeignClaim(s, r);
    }
  }

  lemma StepKeeps(s: State, s': State)
    requires Inv(s) && Next(s, s')
    ensures Inv(s')
  {
    if now :| Enters(s, s', now) {
      EnterKeeps(s, s', now);
    } else if now :| OwnerMoves(s, s', now) {
      OwnerStepKeeps(s, s', now);
    } else {
      var i :| ForeignMoves(s, s', i);
      ForeignStepKeeps(s, s', i);
    }
  }

  // --------------------------------------------------------------------------
  // Over every run
  // --------------------------------------------------------------------------

  ghost predicate Run(run: seq<State>) {
    run != [] && Init(run[0]) && forall i: nat | i + 1 < |run| :: StepAt(run, i)
  }

  ghost predicate StepAt(run: seq<State>, i: nat)
    requires i + 1 < |run|
  {
    Next(run[i], run[i + 1])
  }

  lemma {:induction false} RunKeepsInv(run: seq<State>, i: nat)
    requires Run(run) && i < |run|
    ensures Inv(run[i])
  {
    if i == 0 {
      InitHolds(run[0]);
    } else {
      RunKeepsInv(run, i - 1);
      assert StepAt(run, i - 1);
      StepKeeps(run[i - 1], run[i]);
    }
  }

  lemma InitHolds(s: State)
    requires Init(s)
    ensures Inv(s)
  {
    forall r: Request ensures RequestAt(s, r) {}
  }

  /** Some thread is inside an engine terminate or request-interrupt call. */
  ghost predicate InEngineCall(s: State) {
    || (s.owner != [] && Top(s.owner).Control? && (Top(s.owner).cpc.TerminateCall? || Top(s.owner).cpc.RequestCall?))
    || exists i | 0 <= i < |s.foreign| ::
         s.foreign[i].Calling? && (s.foreign[i].fpc.TerminateCall? || s.foreign[i].fpc.RequestCall?)
  }

  /** The engine is asked to terminate or interrupt only while the isolate is alive. */
  lemma EngineCallsReachALiveIsolate(run: seq<State>, i: nat)
    requires Run(run) && i < |run| && InEngineCall(run[i])
    ensures run[i].h.isolateAlive && run[i].h.registered && run[i].h.agentAlive
  {
    RunKeepsInv(run, i);
    var s := run[i];
    if !s.h.isolateAlive {
      OnlyTheRelease(s);
    }
  }

  /** Once the isolate is gone the release is alone, or over and at most a control call is there,
      so no guest call is counted. */
  lemma OnlyTheRelease(s: State)
    requires Inv(s) && !s.h.isolateAlive
    ensures s.h.guestCalls == 0 && s.h.teardownCalls == 0 && |s.owner| <= 1
    ensures !s.h.agentAlive ==> forall r: Request :: DetachedBy(s.owner, r) == 0
  {
    hide LockExact, PhaseExact, CallsSafe, StopEffective, RequestsExact, NoneLeft;
    AloneWhenFreed(s);
    if s.owner != [] {
      CallSums([], Some(s.owner[0]));
      forall r: Request ensures DetachedBy(s.owner, r) == Detached(s.owner[0], r) {
        RequestSums([], Some(s.owner[0]), r);
      }
    }
  }

  lemma AloneWhenFreed(s: State)
    requires LockExact(s) && PhaseExact(s) && !s.h.isolateAlive
    ensures s.owner == [] || s.owner == [s.owner[0]]
    ensures s.owner != [] ==> (s.h.agentAlive && FreedIsolate(s.owner[0])) || Refused(s.owner[0])
  {
    assert |s.owner| > 1 ==> Open(s.owner[0]);
  }

  /** The isolate is freed with no guest call running, and none runs afterwards. */
  lemma IsolateFreedIdle(run: seq<State>, i: nat)
    requires Run(run) && i < |run| && !run[i].h.isolateAlive
    ensures run[i].h.guestCalls == 0 && run[i].h.teardownCalls == 0
    ensures i > 0 && run[i - 1].h.isolateAlive ==> run[i - 1].h.guestCalls == 0 && run[i - 1].h.teardownCalls == 0
  {
    RunKeepsInv(run, i);
    OnlyTheRelease(run[i]);
    if i > 0 && run[i - 1].h.isolateAlive {
      HistoryAt(run, i);
    }
  }

  ghost predicate History(h: Shared, h': Shared) {
    && (h.isolateAlive && !h'.isolateAlive ==> h'.guestCalls == h.guestCalls && h'.teardownCalls == h.teardownCalls)
    && (h.stopRequested && h.closing ==> h'.stopRequested && h'.closing && h'.admitted == h.admitted)
  }

  lemma GuestHistory(h: Shared, h': Shared, f: Frame, now: Option<Frame>)
    requires f.Guest? && GuestStep(h, h', f, now)
    ensures History(h, h')
  {
  }

  lemma DisposeHistory(h: Shared, h': Shared, f: Frame, now: Option<Frame>)
    requires f.Dispose? && DisposeStep(h, h', f, now)
    ensures History(h, h')
  {
  }

  lemma ControlHistory(h: Shared, h': Shared, who: Lock, keepLock: bool, pc: ControlPc, next: Option<ControlPc>)
    requires ControlStep(h, h', who, keepLock, pc, next)
    ensures History(h, h')
  {
  }

  lemma TopHistory(h: Shared, h': Shared, f: Frame, now: Option<Frame>)
    requires TopStep(h, h', f, now)
    ensures History(h, h')
  {
    match f {
      case Guest(_, _, _) => GuestHistory(h, h', f, now);
      case Dispose(_) => DisposeHistory(h, h', f, now);
      case Interrupt(_, _) =>
      case Control(pc) =>
        var next := ControlNext(h, h', pc, now);
        ControlHistory(h, h', ByOwner, false, pc, next);
    }
  }

  lemma ForeignHistory(h: Shared, h': Shared, i: nat, f: Foreign, now: Foreign)
    requires ForeignStep(h, h', i, f, now)
    ensures History(h, h')
  {
    hide ControlStep;
    if f.Calling? {
      var next :| now == AsForeign(next) && ControlStep(h, h', ByForeign(i), true, f.fpc, next);
      ControlHistory(h, h', ByForeign(i), true, f.fpc, next);
    }
  }

  lemma StepHistory(s: State, s': State)
    requires Next(s, s')
    ensures History(s.h, s'.h)
  {
    if now :| Enters(s, s', now) {
    } else if now :| OwnerMoves(s, s', now) {
      TopHistory(s.h, s'.h, Top(s.owner), now);
    } else {
      var i: nat :| ForeignMoves(s, s', i);
      ForeignHistory(s.h, s'.h, i, s.foreign[i], s'.foreign[i]);
    }
  }

  lemma HistoryAt(run: seq<State>, i: nat)
    requires Run(run) && 0 < i < |run|
    ensures History(run[i - 1].h, run[i].h)
  {
    assert StepAt(run, i - 1);
    StepHistory(run[i - 1], run[i]);
  }

  /** Once a terminate has set `stop_requested` on a closing agent, no guest call is let in. */
  lemma {:induction false} NothingIsLetInAfterStop(run: seq<State>, i: nat, j: nat)
    requires Run(run) && i <= j < |run| && run[i].h.stopRequested
    ensures run[j].h.stopRequested && run[j].h.closing && run[j].h.admitted == run[i].h.admitted
    decreases j
  {
    StopMeansClosing(run, i);
    if i < j {
      NothingIsLetInAfterStop(run, i, j - 1);
      HistoryAt(run, j);
    }
  }

  lemma StopMeansClosing(run: seq<State>, i: nat)
    requires Run(run) && i < |run| && run[i].h.stopRequested
    ensures run[i].h.closing
  {
    RunKeepsInv(run, i);
  }

  /** Guest code that was let in before that is not missed: unless a thread is just about
      to, the engine has been told to terminate since the last guest call was let in. */
  lemma StopReachesRunningGuest(run: seq<State>, i: nat, k: nat)
    requires Run(run) && i < |run| && run[i].h.stopRequested && !Terminating(run[i])
    requires k < |run[i].owner| && run[i].owner[k].Guest? && run[i].owner[k].pc == Running
    ensures run[i].h.terminatedSince
  {
    RunKeepsInv(run, i);
    assert GuestOk(run[i].h.closing, run[i].owner[k]);
    CountedAt(run[i].owner, k);
  }

  lemma {:induction false} CountedAt(stack: seq<Frame>, k: nat)
    requires k < |stack| && InTeardown(stack[k]) == 1
    ensures TeardownCalls(stack) > 0
  {
    if k < |stack| - 1 { CountedAt(Below(stack), k); }
  }

  /** A request in anybody's hands has not been freed, and when the agent is gone every
      request ever made has been. */
  lemma RequestsFreedOnce(run: seq<State>, i: nat)
    requires Run(run) && i < |run|
    ensures forall r: Request ::
              AllClaims(run[i], r) + DetachedBy(run[i].owner, r) > 0 ==>
                r !in run[i].h.q.freed && r < run[i].h.q.nextRequest
    ensures !run[i].h.agentAlive ==> forall r: Request :: r < run[i].h.q.nextRequest <==> r in run[i].h.q.freed
  {
    RunKeepsInv(run, i);
    var s := run[i];
    if !s.h.isolateAlive { OnlyTheRelease(s); }
    forall r: Request
      ensures AllClaims(s, r) + DetachedBy(s.owner, r) > 0 ==> r !in s.h.q.freed && r < s.h.q.nextRequest
      ensures !s.h.agentAlive ==> (r < s.h.q.nextRequest <==> r in s.h.q.freed)
    {
      assert RequestAt(s, r);
    }
  }
}
