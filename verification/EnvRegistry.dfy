/**
 The application-wide registry of environments, as an interleaving of any number of
 activities: `terminate_all`, `terminate_app_env`, and the life of each environment
 (`commit_isolate`, release, `finish_unregister_napi_env`).

 One step is one access to shared state. The registry lock is a step of its own; what a
 holder does under it is further steps, so every interleaving around it is covered. A
 thread that owns several environments is several activities here, which only adds
 interleavings.
 */
module EnvRegistry {

  type Id = nat
  type Pointer = nat

  const MAX_ID: nat := 0xFFFF_FFFF

  /** Where the owner of an environment is: creating and committing it, holding it, or
      releasing and unregistering it. `Kept` environments were refused their registration
      or their release and stay for ever. */
  datatype OwnerPc =
    | WantInsert | Insert | Retain
    | WantCheck | Check
    | Live | Kept | KeptRegistered
    | WantRemove | Remove | Unretain

  datatype Activity =
    | Idle
    // NapiRuntimeControl::terminate_all
    | StoreFlag
    | WantAll
    | Terminating(left: set<Id>)
    // NapiEnv::terminate_app_env
    | WantOne(id: Id)
    | LookUp(id: Id)
    // an environment and its owner
    | Owner(pc: OwnerPc, env: Pointer, envId: Id)

  datatype State = State(
    lock: bool,
    hostStopped: bool,
    nextId: nat,
    registry: map<Id, Pointer>,
    // allocated bridge env states and their holder counts
    holders: map<Pointer, nat>,
    activities: seq<Activity>,
    // history: ids sent a terminate, ids whose commit passed its locked check,
    // the activity that registered an id, and whether some terminate_all returned
    sent: set<Id>,
    checked: set<Id>,
    owner: map<Id, nat>,
    stopReturned: bool)

  ghost predicate Init(s: State) {
    && !s.lock && !s.hostStopped && s.nextId == 0 && s.registry == map[] && s.holders == map[]
    && (forall t | 0 <= t < |s.activities| :: s.activities[t] == Idle)
    && s.sent == {} && s.checked == {} && s.owner == map[] && !s.stopReturned
  }

  function Goto(s: State, t: nat, a: Activity): State
    requires t < |s.activities|
  {
    s.(activities := s.activities[t := a])
  }

  /** `DropEnvStateHolder`: the last holder frees the env state. */
  function Drop(holders: map<Pointer, nat>, p: Pointer): map<Pointer, nat>
    requires p in holders && holders[p] > 0
  {
    if holders[p] == 1 then holders - {p} else holders[p := holders[p] - 1]
  }

  ghost predicate Start(s: State, s': State, t: nat)
    requires t < |s.activities|
  {
    || s' == Goto(s, t, StoreFlag)
    || (exists id :: NamesEnv(s, s', t, id))
    || (exists p :: CreatesEnv(s, s', t, p))
  }

  ghost predicate NamesEnv(s: State, s': State, t: nat, id: Id)
    requires t < |s.activities|
  {
    s' == Goto(s, t, WantOne(id))
  }

  /** A bridge env state is allocated with one holder; its address may be reused once
      freed, never before. */
  ghost predicate CreatesEnv(s: State, s': State, t: nat, p: Pointer)
    requires t < |s.activities|
  {
    p !in s.holders && s' == Goto(s, t, Owner(WantInsert, p, 0)).(holders := s.holders[p := 1])
  }

  ghost predicate StopStep(s: State, s': State, t: nat, a: Activity)
    requires t < |s.activities|
  {
    match a
    case StoreFlag => s' == Goto(s, t, WantAll).(hostStopped := true)
    case WantAll => !s.lock && s' == Goto(s, t, Terminating(s.registry.Keys)).(lock := true)
    case Terminating(left) =>
      if left == {} then s' == Goto(s, t, Idle).(lock := false, stopReturned := true)
      else exists id :: id in left && s' == Goto(s, t, Terminating(left - {id})).(sent := s.sent + {id})
    case WantOne(id) => !s.lock && s' == Goto(s, t, LookUp(id)).(lock := true)
    case LookUp(id) =>
      s' == Goto(s, t, Idle).(lock := false, sent := if id in s.registry then s.sent + {id} else s.sent)
    case _ => false
  }

  ghost predicate CommitStep(s: State, s': State, t: nat, pc: OwnerPc, p: Pointer, id: Id)
    requires t < |s.activities|
  {
    match pc
    case WantInsert => !s.lock && s' == Goto(s, t, Owner(Insert, p, id)).(lock := true)
    case Insert =>
      if s.nextId == MAX_ID then s' == Goto(s, t, Owner(Kept, p, id)).(lock := false)
      else
        var newId := s.nextId + 1;
        s' == Goto(s, t, Owner(Retain, p, newId)).(
          nextId := newId, registry := s.registry[newId := p], owner := s.owner[newId := t])
    case Retain =>
      p in s.holders
      && s' == Goto(s, t, Owner(WantCheck, p, id)).(lock := false, holders := s.holders[p := s.holders[p] + 1])
    case WantCheck => !s.lock && s' == Goto(s, t, Owner(Check, p, id)).(lock := true)
    case Check =>
      s' == Goto(s, t, Owner(Live, p, id)).(
        lock := false, sent := if s.hostStopped then s.sent + {id} else s.sent, checked := s.checked + {id})
    case _ => false
  }

  ghost predicate ReleaseStep(s: State, s': State, t: nat, pc: OwnerPc, p: Pointer, id: Id)
    requires t < |s.activities|
  {
    match pc
    case Live =>
      // A denied near-heap-limit growth stops the application and this env.
      || s' == s.(hostStopped := true, sent := s.sent + {id})
      // The bridge refuses the release, or tears the env down and drops its own holder.
      || s' == Goto(s, t, Owner(KeptRegistered, p, id))
      || (p in s.holders && s.holders[p] > 0
          && s' == Goto(s, t, Owner(WantRemove, p, id)).(holders := Drop(s.holders, p)))
    case WantRemove => !s.lock && s' == Goto(s, t, Owner(Remove, p, id)).(lock := true)
    case Remove => s' == Goto(s, t, Owner(Unretain, p, id)).(lock := false, registry := s.registry - {id})
    case Unretain => p in s.holders && s.holders[p] > 0 && s' == Goto(s, t, Idle).(holders := Drop(s.holders, p))
    case _ => false
  }

  /** One step of activity `t`. */
  ghost predicate Step(s: State, s': State, t: nat) {
    && t < |s.activities|
    && match s.activities[t]
       case Idle => Start(s, s', t)
       case Owner(pc, p, id) => CommitStep(s, s', t, pc, p, id) || ReleaseStep(s, s', t, pc, p, id)
       case a => StopStep(s, s', t, a)
  }

  // --------------------------------------------------------------------------
  // Invariant
  // --------------------------------------------------------------------------

  ghost predicate Holds(a: Activity) {
    match a
    case Owner(pc, _, _) => pc.Insert? || pc.Retain? || pc.Check? || pc.Remove?
    case _ => a.Terminating? || a.LookUp?
  }

  ghost predicate Unchecked(a: Activity) {
    a.Owner? && (a.pc.Retain? || a.pc.WantCheck? || a.pc.Check?)
  }

  ghost predicate Registered(a: Activity) {
    Unchecked(a) || (a.Owner? && (a.pc.Live? || a.pc.KeptRegistered? || a.pc.WantRemove? || a.pc.Remove?))
  }

  /** The holders an environment has at each point of its life: the bridge until it is
      released, and the registry from the retain to the unretain. */
  ghost function HolderCount(pc: OwnerPc): nat {
    match pc
    case WantCheck | Check | Live | KeptRegistered => 2
    case _ => 1
  }

  ghost predicate Exclusive(s: State) {
    && (forall t | 0 <= t < |s.activities| :: Holds(s.activities[t]) ==> s.lock)
    && (forall t, u | 0 <= t < u < |s.activities| :: !(Holds(s.activities[t]) && Holds(s.activities[u])))
  }

  /** Each allocated env state has exactly one activity, which knows its holders. */
  ghost predicate HoldersExact(s: State) {
    && (forall t | 0 <= t < |s.activities| && s.activities[t].Owner? ::
          s.activities[t].env in s.holders && s.holders[s.activities[t].env] == HolderCount(s.activities[t].pc))
    && (forall t, u | 0 <= t < u < |s.activities| && s.activities[t].Owner? && s.activities[u].Owner? ::
          s.activities[t].env != s.activities[u].env)
  }

  /** The registry holds exactly the ids of the registered activities. */
  ghost predicate RegistryExact(s: State) {
    && (forall t | 0 <= t < |s.activities| && Registered(s.activities[t]) ::
          var id := s.activities[t].envId;
          id in s.registry && s.registry[id] == s.activities[t].env && id in s.owner && s.owner[id] == t)
    && (forall id <- s.registry ::
          && 0 < id <= s.nextId && id in s.owner && s.owner[id] < |s.activities|
          && Registered(s.activities[s.owner[id]]) && s.activities[s.owner[id]].envId == id)
    && (forall id <- s.owner :: id <= s.nextId)
    && s.nextId <= MAX_ID
  }

  /** A terminate was sent to `id`, or its commit has yet to look at the flag. */
  ghost predicate Reached(s: State, id: Id) {
    id in s.sent || (id in s.owner && s.owner[id] < |s.activities| && Unchecked(s.activities[s.owner[id]]))
  }

  ghost predicate StopsReach(s: State) {
    && (forall t | 0 <= t < |s.activities| && s.activities[t].WantAll? :: s.hostStopped)
    && (forall t | 0 <= t < |s.activities| && s.activities[t].Terminating? ::
          && s.hostStopped && s.activities[t].left <= s.registry.Keys
          && s.registry.Keys <= s.sent + s.activities[t].left)
    && (s.stopReturned ==>
          && s.hostStopped
          && forall id <- s.registry :: Reached(s, id))
    && (forall t | 0 <= t < |s.activities| && Unchecked(s.activities[t]) :: s.activities[t].envId !in s.checked)
    && (forall id <- s.checked :: id <= s.nextId)
  }

  ghost predicate Inv(s: State) {
    Exclusive(s) && HoldersExact(s) && RegistryExact(s) && StopsReach(s)
  }

  // --------------------------------------------------------------------------
  // What one step does
  // --------------------------------------------------------------------------

  ghost predicate LockEffect(s: State, s': State, t: nat, a: Activity, b: Activity) {
    && t < |s.activities| && s'.activities == s.activities[t := b]
    && (Holds(b) ==> s'.lock && (Holds(a) || !s.lock))
    && (Holds(a) && !Holds(b) ==> !s'.lock)
    && (!Holds(a) && !Holds(b) ==> s'.lock == s.lock)
  }

  ghost predicate HolderEffect(s: State, s': State, a: Activity, b: Activity) {
    if !a.Owner? then
      if !b.Owner? then s'.holders == s.holders
      else b.env !in s.holders && s'.holders == s.holders[b.env := HolderCount(b.pc)]
    else if b.Owner? then
      b.env == a.env && s'.holders == s.holders[a.env := HolderCount(b.pc)]
    else s'.holders == s.holders - {a.env}
  }

  ghost predicate RegistryEffect(s: State, s': State, t: nat, a: Activity, b: Activity) {
    if Registered(a) == Registered(b) then
      && s'.registry == s.registry && s'.owner == s.owner && s'.nextId == s.nextId
      && (Registered(a) ==> b.envId == a.envId && b.env == a.env)
    else if Registered(b) then
      && Holds(a) && Unchecked(b) && s.nextId < MAX_ID && s'.nextId == s.nextId + 1 == b.envId
      && s'.registry == s.registry[b.envId := b.env] && s'.owner == s.owner[b.envId := t]
    else
      && Holds(a) && s'.registry == s.registry - {a.envId} && s'.owner == s.owner && s'.nextId == s.nextId
  }

  /** The history only grows; a pending commit leaves through its locked check. */
  ghost predicate HistoryEffect(s: State, s': State, a: Activity, b: Activity) {
    && s.sent <= s'.sent && (s.hostStopped ==> s'.hostStopped)
    && (b.WantAll? ==> s'.hostStopped)
    && (b.Terminating? ==>
          || (a.WantAll? && b.left == s.registry.Keys)
          || (a.Terminating? && b.left <= a.left && a.left <= b.left + s'.sent))
    && (s'.stopReturned == s.stopReturned || (a.Terminating? && a.left == {}))
    && (if Unchecked(a) && !Unchecked(b) then
          s'.checked == s.checked + {a.envId} && (s.hostStopped ==> a.envId in s'.sent)
        else s'.checked == s.checked)
    && (Unchecked(b) ==> if Unchecked(a) then b.envId == a.envId else b.envId == s.nextId + 1)
  }

  ghost predicate Effect(s: State, s': State, t: nat, a: Activity) {
    && |s'.activities| == |s.activities| > t
    && var b := s'.activities[t];
       LockEffect(s, s', t, a, b) && HolderEffect(s, s', a, b) && RegistryEffect(s, s', t, a, b)
       && HistoryEffect(s, s', a, b)
  }

  lemma CreateEffect(s: State, s': State, t: nat, p: Pointer)
    requires t < |s.activities| && s.activities[t] == Idle && CreatesEnv(s, s', t, p)
    ensures Effect(s, s', t, Idle)
  {
  }

  lemma NameEffect(s: State, s': State, t: nat, id: Id)
    requires t < |s.activities| && s.activities[t] == Idle && NamesEnv(s, s', t, id)
    ensures Effect(s, s', t, Idle)
  {
  }

  lemma StartEffect(s: State, s': State, t: nat)
    requires t < |s.activities| && s.activities[t] == Idle && Start(s, s', t)
    ensures Effect(s, s', t, Idle)
  {
    if p :| CreatesEnv(s, s', t, p) {
      CreateEffect(s, s', t, p);
    } else if id :| NamesEnv(s, s', t, id) {
      NameEffect(s, s', t, id);
    }
  }

  lemma StopEffect(s: State, s': State, t: nat, a: Activity)
    requires t < |s.activities| && s.activities[t] == a && !a.Idle? && !a.Owner?
    requires StopStep(s, s', t, a) && (Holds(a) ==> s.lock)
    ensures Effect(s, s', t, a)
  {
  }

  lemma CommitEffect(s: State, s': State, t: nat, pc: OwnerPc, p: Pointer, id: Id)
    requires t < |s.activities| && s.activities[t] == Owner(pc, p, id) && s.nextId <= MAX_ID
    requires p in s.holders && s.holders[p] == HolderCount(pc) && (Holds(Owner(pc, p, id)) ==> s.lock)
    requires CommitStep(s, s', t, pc, p, id)
    ensures Effect(s, s', t, Owner(pc, p, id))
  {
    hide LockEffect, HolderEffect, RegistryEffect, HistoryEffect;
    CommitHolders(s, s', t, pc, p, id);
    CommitHistory(s, s', t, pc, p, id);
  }

  lemma CommitHolders(s: State, s': State, t: nat, pc: OwnerPc, p: Pointer, id: Id)
    requires t < |s.activities| && s.activities[t] == Owner(pc, p, id) && s.nextId <= MAX_ID
    requires p in s.holders && s.holders[p] == HolderCount(pc) && (Holds(Owner(pc, p, id)) ==> s.lock)
    requires CommitStep(s, s', t, pc, p, id)
    ensures |s'.activities| == |s.activities|
    ensures LockEffect(s, s', t, Owner(pc, p, id), s'.activities[t])
    ensures HolderEffect(s, s', Owner(pc, p, id), s'.activities[t])
  {
  }

  lemma CommitHistory(s: State, s': State, t: nat, pc: OwnerPc, p: Pointer, id: Id)
    requires t < |s.activities| && s.activities[t] == Owner(pc, p, id) && s.nextId <= MAX_ID
    requires p in s.holders && s.holders[p] == HolderCount(pc) && (Holds(Owner(pc, p, id)) ==> s.lock)
    requires CommitStep(s, s', t, pc, p, id)
    ensures |s'.activities| == |s.activities|
    ensures RegistryEffect(s, s', t, Owner(pc, p, id), s'.activities[t])
    ensures HistoryEffect(s, s', Owner(pc, p, id), s'.activities[t])
  {
  }

  lemma ReleaseEffect(s: State, s': State, t: nat, pc: OwnerPc, p: Pointer, id: Id)
    requires t < |s.activities| && s.activities[t] == Owner(pc, p, id)
    requires p in s.holders && s.holders[p] == HolderCount(pc) && (Holds(Owner(pc, p, id)) ==> s.lock)
    requires ReleaseStep(s, s', t, pc, p, id)
    ensures Effect(s, s', t, Owner(pc, p, id))
  {
    hide LockEffect, HolderEffect, RegistryEffect, HistoryEffect;
    ReleaseHolders(s, s', t, pc, p, id);
    ReleaseHistory(s, s', t, pc, p, id);
  }

  lemma ReleaseHolders(s: State, s': State, t: nat, pc: OwnerPc, p: Pointer, id: Id)
    requires t < |s.activities| && s.activities[t] == Owner(pc, p, id)
    requires p in s.holders && s.holders[p] == HolderCount(pc) && (Holds(Owner(pc, p, id)) ==> s.lock)
    requires ReleaseStep(s, s', t, pc, p, id)
    ensures |s'.activities| == |s.activities|
    ensures LockEffect(s, s', t, Owner(pc, p, id), s'.activities[t])
    ensures HolderEffect(s, s', Owner(pc, p, id), s'.activities[t])
  {
  }

  lemma ReleaseHistory(s: State, s': State, t: nat, pc: OwnerPc, p: Pointer, id: Id)
    requires t < |s.activities| && s.activities[t] == Owner(pc, p, id)
    requires p in s.holders && s.holders[p] == HolderCount(pc) && (Holds(Owner(pc, p, id)) ==> s.lock)
    requires ReleaseStep(s, s', t, pc, p, id)
    ensures |s'.activities| == |s.activities|
    ensures RegistryEffect(s, s', t, Owner(pc, p, id), s'.activities[t])
    ensures HistoryEffect(s, s', Owner(pc, p, id), s'.activities[t])
  {
  }

  lemma StepEffect(s: State, s': State, t: nat)
    requires Inv(s) && Step(s, s', t)
    ensures Effect(s, s', t, s.activities[t])
  {
    match s.activities[t] {
      case Idle => StartEffect(s, s', t);
      case Owner(pc, p, id) =>
        if CommitStep(s, s', t, pc, p, id) {
          CommitEffect(s, s', t, pc, p, id);
        } else {
          ReleaseEffect(s, s', t, pc, p, id);
        }
      case a => StopEffect(s, s', t, a);
    }
  }

  // --------------------------------------------------------------------------
  // Every step keeps the invariant
  // --------------------------------------------------------------------------

  lemma KeepsExclusive(s: State, s': State, t: nat)
    requires Exclusive(s) && t < |s.activities| && Effect(s, s', t, s.activities[t])
    ensures Exclusive(s')
  {
  }

  lemma KeepsHolders(s: State, s': State, t: nat)
    requires HoldersExact(s) && t < |s.activities| && Effect(s, s', t, s.activities[t])
    ensures HoldersExact(s')
  {
  }

  lemma KeepsRegistry(s: State, s': State, t: nat)
    requires RegistryExact(s) && t < |s.activities| && Effect(s, s', t, s.activities[t])
    ensures RegistryExact(s')
  {
  }

  lemma KeepsStops(s: State, s': State, t: nat)
    requires Inv(s) && t < |s.activities| && Effect(s, s', t, s.activities[t])
    ensures StopsReach(s')
  {
    if s'.stopReturned {
      forall id <- s'.registry ensures Reached(s', id) {
        var b := s'.activities[t];
        if id !in s.registry {
          assert s'.owner[id] == t && Unchecked(b);
        } else if s.stopReturned {
          assert Reached(s, id);
          if s.owner[id] == t && Unchecked(s.activities[t]) { assert s.activities[t].envId == id; }
        } else {
          assert id in s.sent;
        }
      }
    }
  }

  lemma StepKeepsInv(s: State, s': State, t: nat)
    requires Inv(s) && Step(s, s', t)
    ensures Inv(s')
  {
    StepEffect(s, s', t);
    KeepsExclusive(s, s', t);
    KeepsHolders(s, s', t);
    KeepsRegistry(s, s', t);
    KeepsStops(s, s', t);
  }

  // --------------------------------------------------------------------------
  // Over every run
  // --------------------------------------------------------------------------

  ghost predicate Next(s: State, s': State) {
    exists t :: Step(s, s', t)
  }

  ghost predicate Run(run: seq<State>) {
    run != [] && Init(run[0]) && forall i: nat | i + 1 < |run| :: StepAt(run, i)
  }

  ghost predicate StepAt(run: seq<State>, i: nat)
    requires i + 1 < |run|
  {
    Next(run[i], run[i + 1])
  }

  lemma {:induction false} RunKeepsInv(run: seq<State>, i: nat)
    requires Run(run) && i < |run|
    ensures Inv(run[i])
  {
    if i > 0 {
      RunKeepsInv(run, i - 1);
      assert StepAt(run, i - 1);
      var t :| Step(run[i - 1], run[i], t);
      StepKeepsInv(run[i - 1], run[i], t);
    }
  }

  /** Once a `terminate_all` has returned, every environment still registered whose commit
      passed its locked check has been sent a terminate. */
  lemma StopReachesEveryEnv(run: seq<State>, id: Id)
    requires Run(run)
    requires var s := run[|run| - 1]; s.stopReturned && id in s.registry && id in s.checked
    ensures id in run[|run| - 1].sent
  {
    RunKeepsInv(run, |run| - 1);
    var s := run[|run| - 1];
    assert Reached(s, id);
  }

  /** Every pointer in the registry is allocated and belongs to no other id, so whoever
      looks an id up under the lock reaches the environment registered under it. */
  lemma RegisteredStaysAllocated(run: seq<State>, id: Id)
    requires Run(run) && id in run[|run| - 1].registry
    ensures var s := run[|run| - 1];
            && s.registry[id] in s.holders && s.holders[s.registry[id]] > 0
            && forall other <- s.registry :: other != id ==> s.registry[other] != s.registry[id]
  {
    RunKeepsInv(run, |run| - 1);
    var s := run[|run| - 1];
    assert s.activities[s.owner[id]].env == s.registry[id];
    forall other <- s.registry | other != id ensures s.registry[other] != s.registry[id] {
      assert s.activities[s.owner[other]].env == s.registry[other];
    }
  }

  /** `terminate_all` only follows pointers of the registry as it is. */
  lemma TerminatingSeesRegistered(run: seq<State>, t: nat)
    requires Run(run)
    requires var s := run[|run| - 1]; t < |s.activities| && s.activities[t].Terminating?
    ensures var s := run[|run| - 1]; s.activities[t].left <= s.registry.Keys && s.hostStopped
  {
    RunKeepsInv(run, |run| - 1);
  }

  /** An id once registered never names another environment. */
  lemma IdsAreNeverReused(run: seq<State>, i: nat, j: nat, id: Id)
    requires Run(run) && i <= j < |run|
    requires id in run[i].registry && id in run[j].registry
    ensures run[i].registry[id] == run[j].registry[id]
  {
    RunKeepsInv(run, i);
    Issued(run, i, j, id);
  }

  lemma {:induction false} Issued(run: seq<State>, i: nat, j: nat, id: Id)
    requires Run(run) && i <= j < |run| && id in run[i].registry && id <= run[i].nextId
    ensures id <= run[j].nextId
    ensures id in run[j].registry ==> run[j].registry[id] == run[i].registry[id]
    decreases j
  {
    if i < j {
      Issued(run, i, j - 1, id);
      RunKeepsInv(run, j - 1);
      assert StepAt(run, j - 1);
      NoReuse(run[j - 1], run[j], id);
    }
  }

  lemma NoReuse(s: State, s': State, id: Id)
    requires Inv(s) && Next(s, s') && id <= s.nextId
    ensures s.nextId <= s'.nextId
    ensures id in s'.registry ==> id in s.registry && s'.registry[id] == s.registry[id]
  {
    var t :| Step(s, s', t);
    StepEffect(s, s', t);
  }
}
