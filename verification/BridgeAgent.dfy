/**
 Value ids and scope frames of one agent: the slot table with generation-tagged ids, the
 stack of frames that own slots, and the guest calls that push and unwind frames.

 The engine is a contract: opening a scope fails or yields a handle that no open scope has,
 though a closed one may have had it, and escaping yields a value or fails. What the guest
 does is an arbitrary tree of actions, and every engine answer is part of the tree or an
 arbitrary choice.
 */
module BridgeAgent {
  import opened Basics

  /** A napi_value, napi_env or scope handle; 0 is the null pointer. */
  type Handle = nat

  const NULL: Handle := 0
  const GENERATIONS: nat := 0x1000
  const MAX_SLOTS: nat := 0xF_FFFF
  const U32: nat := 0x1_0000_0000
  const SCOPE_IDS: nat := U32 - 1
  const MAX_SPARE_FRAMES: nat := 8
  const MAX_SPARE_CAPACITY: nat := 256

  datatype Slot = Slot(value: Handle, generation: nat, inUse: bool)

  /** A vector of slot indices and its capacity. */
  datatype Buffer = Buffer(items: seq<nat>, capacity: nat) {
    function PushBack(x: nat): Buffer {
      Buffer(items + [x], if |items| < capacity then capacity else if capacity == 0 then 1 else 2 * capacity)
    }
  }

  /** `id` is 0 unless the guest opened the scope; `serial`, a history variable, then counts the
      scopes the guest has opened. */
  datatype Frame = Frame(scope: Handle, escScope: Handle, env: Handle, owned: Buffer, id: nat, serial: nat)

  const ROOT := Frame(NULL, NULL, NULL, Buffer([], 0), 0, 0)

  datatype Invocation = Invocation(id: nat, info: Handle)

  /** What the engine sees. */
  datatype Event = Opened(env: Handle, scope: Handle) | Closed(env: Handle, scope: Handle)

  // --------------------------------------------------------------------------
  // Value ids
  // --------------------------------------------------------------------------

  function EncodeId(index: nat, generation: nat): nat {
    (index + 1) * GENERATIONS + generation
  }

  function SlotOf(id: nat): nat { if id < GENERATIONS then 0 else id / GENERATIONS - 1 }

  /** An id is a nonzero 32-bit number from which slot and generation can be read back. */
  lemma IdDecodes(index: nat, generation: nat)
    requires index < MAX_SLOTS && generation < GENERATIONS
    ensures SlotOf(EncodeId(index, generation)) == index
    ensures 0 < EncodeId(index, generation) < 0x1_0000_0000
    ensures EncodeId(index, generation) / GENERATIONS == index + 1
    ensures EncodeId(index, generation) % GENERATIONS == generation
  {
  }

  // --------------------------------------------------------------------------
  // The table
  // --------------------------------------------------------------------------

  /** The slot table with its history: how often each slot was freed, and the value minted
      into each slot after each number of frees. */
  datatype Table = TableOf(slots: seq<Slot>, free: seq<nat>, live: nat, frees: seq<nat>,
    minted: map<(nat, nat), Handle>)

  ghost function Count(s: seq<nat>, i: nat): nat { multiset(s)[i] }

  /** How often the frames own slot `i`. */
  ghost function Owns(frames: seq<Frame>, i: nat): nat {
    if frames == [] then 0 else Owns(frames[..|frames| - 1], i) + Count(frames[|frames| - 1].owned.items, i)
  }

  ghost function InUse(slots: seq<Slot>): nat {
    if slots == [] then 0 else InUse(slots[..|slots| - 1]) + One(slots[|slots| - 1].inUse)
  }

  /** A slot in use is owned once, by one frame (or by `loose`, the part of a frame being
      closed that is still to be freed); any other slot is once in the free list. */
  ghost predicate SlotAt(t: Table, frames: seq<Frame>, loose: seq<nat>, i: nat) {
    if i < |t.slots| == |t.frees| then
      var s := t.slots[i];
      && Owns(frames, i) + Count(loose, i) == One(s.inUse) && Count(t.free, i) == One(!s.inUse)
      && s.generation == t.frees[i] % GENERATIONS
      && (s.inUse <==> (i, t.frees[i]) in t.minted)
      && (s.inUse ==> s.value != NULL && s.value == t.minted[(i, t.frees[i])])
      && (!s.inUse ==> s.value == NULL)
    else Owns(frames, i) + Count(loose, i) == 0 && Count(t.free, i) == 0
  }

  ghost predicate TableOk(t: Table, frames: seq<Frame>, loose: seq<nat>, limit: nat) {
    && |t.slots| == |t.frees| <= MAX_SLOTS
    && (forall i: nat :: SlotAt(t, frames, loose, i))
    && t.live == InUse(t.slots) && (limit != 0 ==> t.live <= limit)
    && (forall m <- t.minted :: m.0 < |t.slots| && m.1 <= t.frees[m.0])
  }

  /** LoadValue */
  function Load(slots: seq<Slot>, id: nat): Handle {
    var indexPlusOne := id / GENERATIONS;
    if id == 0 || indexPlusOne == 0 || indexPlusOne > |slots| then NULL
    else
      var s := slots[indexPlusOne - 1];
      if !s.inUse || s.generation != id % GENERATIONS then NULL else s.value
  }

  /** An id minted into a slot resolves exactly when the slot is in use and has been freed a
      multiple of 4096 times since; if it was never freed, to the very value minted. */
  lemma IdResolves(t: Table, frames: seq<Frame>, limit: nat, index: nat, f: nat)
    requires TableOk(t, frames, [], limit) && (index, f) in t.minted
    ensures index < |t.slots| == |t.frees| && f <= t.frees[index]
    ensures Load(t.slots, EncodeId(index, f % GENERATIONS)) ==
            if t.slots[index].inUse && (t.frees[index] - f) % GENERATIONS == 0 then t.slots[index].value else NULL
    ensures f == t.frees[index] ==> Load(t.slots, EncodeId(index, f % GENERATIONS)) == t.minted[(index, f)] != NULL
  {
    assert SlotAt(t, frames, [], index);
    IdDecodes(index, f % GENERATIONS);
    SameGeneration(f, t.frees[index]);
  }

  /** The id minted for a slot in use loads the slot's value. */
  lemma IdLoads(t: Table, frames: seq<Frame>, limit: nat, index: nat)
    requires TableOk(t, frames, [], limit) && index < |t.slots| && t.slots[index].inUse
    ensures Load(t.slots, EncodeId(index, t.slots[index].generation)) == t.slots[index].value
  {
    assert SlotAt(t, frames, [], index);
    IdDecodes(index, t.slots[index].generation);
  }

  lemma SameGeneration(f: nat, g: nat)
    requires f <= g
    ensures f % GENERATIONS == g % GENERATIONS <==> (g - f) % GENERATIONS == 0
  {
    var a, b := f / GENERATIONS, g / GENERATIONS;
    assert f == a * GENERATIONS + f % GENERATIONS && g == b * GENERATIONS + g % GENERATIONS;
    if f % GENERATIONS == g % GENERATIONS { assert g - f == (b - a) * GENERATIONS; }
  }

  /** An id that was never minted for the slot's present occupant resolves to nothing: what
      resolves is the value last minted into that slot. */
  lemma ResolvedIsMinted(t: Table, frames: seq<Frame>, limit: nat, id: nat)
    requires TableOk(t, frames, [], limit) && Load(t.slots, id) != NULL
    ensures var index := id / GENERATIONS - 1;
            && 0 <= index < |t.slots| == |t.frees| && id == EncodeId(index, t.slots[index].generation)
            && (index, t.frees[index]) in t.minted && Load(t.slots, id) == t.minted[(index, t.frees[index])]
  {
    assert SlotAt(t, frames, [], id / GENERATIONS - 1);
  }

  lemma {:induction false} InUseUpdate(slots: seq<Slot>, i: nat, s: Slot)
    requires i < |slots|
    ensures InUse(slots[i := s]) + One(slots[i].inUse) == InUse(slots) + One(s.inUse)
  {
    var n := |slots| - 1;
    if i == n {
      assert slots[i := s][..n] == slots[..n];
    } else {
      assert slots[i := s][..n] == slots[..n][i := s];
      InUseUpdate(slots[..n], i, s);
    }
  }

  lemma {:induction false} InUsePositive(slots: seq<Slot>, i: nat)
    requires i < |slots| && slots[i].inUse
    ensures InUse(slots) > 0
  {
    if i < |slots| - 1 { InUsePositive(slots[..|slots| - 1], i); }
  }

  lemma {:induction false} OwnsUpdate(frames: seq<Frame>, k: nat, f: Frame, i: nat)
    requires k < |frames|
    ensures Owns(frames[k := f], i) + Count(frames[k].owned.items, i) == Owns(frames, i) + Count(f.owned.items, i)
  {
    var n := |frames| - 1;
    if k == n {
      assert frames[k := f][..n] == frames[..n];
    } else {
      assert frames[k := f][..n] == frames[..n][k := f];
      OwnsUpdate(frames[..n], k, f, i);
    }
  }

  lemma OwnsPush(frames: seq<Frame>, f: Frame, i: nat)
    ensures Owns(frames + [f], i) == Owns(frames, i) + Count(f.owned.items, i)
  {
    assert (frames + [f])[..|frames|] == frames;
  }

  /** FreeValueSlot: a slot not in use stays as it is. */
  ghost function Freed(t: Table, index: nat): Table {
    if !(index < |t.slots| == |t.frees| && t.slots[index].inUse && t.live > 0) then t
    else
      TableOf(
        t.slots[index := Slot(NULL, (t.slots[index].generation + 1) % GENERATIONS, false)],
        t.free + [index], t.live - 1, t.frees[index := t.frees[index] + 1], t.minted)
  }

  ghost function FreedAll(t: Table, items: seq<nat>): Table
    decreases |items|
  {
    if items == [] then t else FreedAll(Freed(t, items[0]), items[1..])
  }

  lemma FreeKeeps(t: Table, frames: seq<Frame>, loose: seq<nat>, limit: nat)
    requires loose != [] && TableOk(t, frames, loose, limit)
    ensures loose[0] < |t.slots| && t.slots[loose[0]].inUse && t.live > 0
    ensures TableOk(Freed(t, loose[0]), frames, loose[1..], limit)
  {
    var x := loose[0];
    assert loose == [x] + loose[1..];
    assert SlotAt(t, frames, loose, x);
    InUsePositive(t.slots, x);
    var t' := Freed(t, x);
    InUseUpdate(t.slots, x, t'.slots[x]);
    assert (x, t'.frees[x]) !in t.minted;
    forall i: nat ensures SlotAt(t', frames, loose[1..], i) {
      FreeKeepsAt(t, frames, loose, i);
    }
  }

  lemma FreeKeepsAt(t: Table, frames: seq<Frame>, loose: seq<nat>, i: nat)
    requires loose != [] && SlotAt(t, frames, loose, i) && loose[0] < |t.slots| == |t.frees| && t.slots[loose[0]].inUse
             && t.live > 0
    requires forall m <- t.minted :: m.0 < |t.slots| && m.1 <= t.frees[m.0]
    ensures SlotAt(Freed(t, loose[0]), frames, loose[1..], i)
  {
    assert loose == [loose[0]] + loose[1..];
    assert Count(loose, i) == One(i == loose[0]) + Count(loose[1..], i);
    assert Count(t.free + [loose[0]], i) == Count(t.free, i) + One(i == loose[0]);
  }

  /** Storing `val` into slot `index`: the last of the free list, or a new one. */
  ghost function Stored(t: Table, index: nat, val: Handle): Table
    requires |t.slots| == |t.frees| && (index == |t.slots| || (index < |t.slots| && t.free != []))
  {
    if index == |t.slots| then
      TableOf(t.slots + [Slot(val, 0, true)], t.free, t.live + 1, t.frees + [0], t.minted[(index, 0) := val])
    else
      TableOf(t.slots[index := Slot(val, t.slots[index].generation, true)], t.free[..|t.free| - 1], t.live + 1,
            t.frees, t.minted[(index, t.frees[index]) := val])
  }

  /** The slot the next value goes into. */
  ghost function NextSlot(t: Table): nat { if t.free != [] then t.free[|t.free| - 1] else |t.slots| }

  function Owning(frames: seq<Frame>, k: nat, index: nat): seq<Frame>
    requires k < |frames|
  {
    frames[k := frames[k].(owned := frames[k].owned.PushBack(index))]
  }

  lemma StoreKeeps(t: Table, frames: seq<Frame>, k: nat, limit: nat, val: Handle, index: nat)
    requires TableOk(t, frames, [], limit) && k < |frames| && val != NULL && (limit == 0 || t.live < limit)
    requires if t.free != [] then index == t.free[|t.free| - 1] else index == |t.slots| < MAX_SLOTS
    ensures index <= |t.slots| && (index == |t.slots| || !t.slots[index].inUse) && (t.free != [] ==> index < |t.slots|)
    ensures TableOk(Stored(t, index, val), Owning(frames, k, index), [], limit)
  {
    assert SlotAt(t, frames, [], index);
    if t.free != [] { assert t.free == t.free[..|t.free| - 1] + [index]; }
    var t', frames' := Stored(t, index, val), Owning(frames, k, index);
    if index == |t.slots| {
      assert t'.slots[..index] == t.slots;
    } else {
      InUseUpdate(t.slots, index, t'.slots[index]);
    }
    forall i: nat ensures SlotAt(t', frames', [], i) {
      StoreKeepsAt(t, frames, k, val, index, i);
    }
  }

  lemma StoreKeepsAt(t: Table, frames: seq<Frame>, k: nat, val: Handle, index: nat, i: nat)
    requires SlotAt(t, frames, [], i) && SlotAt(t, frames, [], index) && k < |frames| && val != NULL
    requires |t.slots| == |t.frees| && forall m <- t.minted :: m.0 < |t.slots|
    requires if t.free != [] then index == t.free[|t.free| - 1] && index < |t.slots| && !t.slots[index].inUse
             else index == |t.slots|
    ensures SlotAt(Stored(t, index, val), Owning(frames, k, index), [], i)
  {
    var f := Owning(frames, k, index)[k];
    OwnsUpdate(frames, k, f, i);
    assert Count(f.owned.items, i) == Count(frames[k].owned.items, i) + One(i == index);
    if t.free != [] {
      LastFree(t, i);
    }
  }

  lemma LastFree(t: Table, i: nat)
    requires t.free != []
    ensures Count(t.free, i) == Count(t.free[..|t.free| - 1], i) + One(i == t.free[|t.free| - 1])
  {
    assert t.free == t.free[..|t.free| - 1] + [t.free[|t.free| - 1]];
  }

  /** The slots in use, the free list and the frames partition the table: a slot is either free,
      once, or in use and owned by exactly one frame. */
  lemma SlotsPartition(t: Table, frames: seq<Frame>, limit: nat, i: nat)
    requires TableOk(t, frames, [], limit) && i < |t.slots|
    ensures t.slots[i].inUse <==> i !in t.free
    ensures t.slots[i].inUse <==> exists k | 0 <= k < |frames| :: i in frames[k].owned.items
    ensures forall j, k | 0 <= j < k < |frames| && i in frames[j].owned.items :: i !in frames[k].owned.items
    ensures Count(t.free, i) <= 1 && forall k | 0 <= k < |frames| :: Count(frames[k].owned.items, i) <= 1
    ensures t.live == InUse(t.slots) && (limit != 0 ==> t.live <= limit)
  {
    assert SlotAt(t, frames, [], i);
    OwnsNone(frames, i);
    forall j, k | 0 <= j < k < |frames| && i in frames[j].owned.items ensures i !in frames[k].owned.items {
      OwnsTwo(frames, i, j, k);
    }
    forall k | 0 <= k < |frames| ensures Count(frames[k].owned.items, i) <= 1 { OwnsOne(frames, i, k); }
  }

  lemma {:induction false} OwnsNone(frames: seq<Frame>, i: nat)
    ensures Owns(frames, i) > 0 <==> exists k | 0 <= k < |frames| :: i in frames[k].owned.items
  {
    if frames != [] { OwnsNone(frames[..|frames| - 1], i); }
  }

  lemma {:induction false} OwnsOne(frames: seq<Frame>, i: nat, k: nat)
    requires k < |frames|
    ensures Count(frames[k].owned.items, i) <= Owns(frames, i)
  {
    if k < |frames| - 1 { OwnsOne(frames[..|frames| - 1], i, k); }
  }

  lemma {:induction false} OwnsTwo(frames: seq<Frame>, i: nat, j: nat, k: nat)
    requires j < k < |frames|
    ensures Count(frames[j].owned.items, i) + Count(frames[k].owned.items, i) <= Owns(frames, i)
  {
    if k < |frames| - 1 {
      OwnsTwo(frames[..|frames| - 1], i, j, k);
    } else {
      OwnsOne(frames[..|frames| - 1], i, j);
    }
  }

  // --------------------------------------------------------------------------
  // Frames and the engine's scopes
  // --------------------------------------------------------------------------

  /** The id of the guest's scope number `serial`: a 32-bit counter that skips 0. */
  function ScopeId(serial: nat): nat { if serial == 0 then 0 else (serial - 1) % SCOPE_IDS + 1 }

  /** `next_scope_id` before scope number `serial` is opened; it is 0 just after a wrap. */
  function ScopeCounter(serial: nat): nat {
    if serial > 1 && ScopeId(serial) == 1 then 0 else ScopeId(serial)
  }

  lemma ScopeCounterSteps(serial: nat)
    requires serial > 0
    ensures var counter := ScopeCounter(serial);
            && ScopeId(serial) == (if counter == 0 then 1 else counter)
            && ScopeCounter(serial + 1) == (ScopeId(serial) + 1) % U32
            && 0 < ScopeId(serial) < U32
  {
    var q, r := (serial - 1) / SCOPE_IDS, (serial - 1) % SCOPE_IDS;
    assert serial == q * SCOPE_IDS + r + 1;
    if r + 1 < SCOPE_IDS {
      assert serial % SCOPE_IDS == r + 1;
    } else {
      assert serial == (q + 1) * SCOPE_IDS;
      assert serial % SCOPE_IDS == 0;
    }
  }

  /** Two scopes of the guest have the same id exactly if a multiple of 2^32 - 1 openings lie
      between them. */
  lemma ScopeIdsClash(early: nat, late: nat)
    requires 0 < early <= late
    ensures ScopeId(early) == ScopeId(late) <==> (late - early) % SCOPE_IDS == 0
  {
    SameRemainder(early - 1, late - 1);
  }

  lemma SameRemainder(e: nat, l: nat)
    requires e <= l
    ensures e % SCOPE_IDS == l % SCOPE_IDS <==> (l - e) % SCOPE_IDS == 0
  {
    var a, b, c := e / SCOPE_IDS, l / SCOPE_IDS, (l - e) / SCOPE_IDS;
    assert e == a * SCOPE_IDS + e % SCOPE_IDS && l == b * SCOPE_IDS + l % SCOPE_IDS;
    assert l - e == c * SCOPE_IDS + (l - e) % SCOPE_IDS;
    RemaindersAgree(a + c - b, e % SCOPE_IDS, l % SCOPE_IDS, (l - e) % SCOPE_IDS);
  }

  lemma RemaindersAgree(q: int, re: nat, rl: nat, rd: nat)
    requires re < SCOPE_IDS && rl < SCOPE_IDS && rd < SCOPE_IDS && rl - re == q * SCOPE_IDS + rd
    ensures re == rl <==> rd == 0
  {
  }

  /** The root frame has no scope; every other has exactly one, opened through its env and
      known to the engine by a handle no other open scope has. */
  ghost predicate FramesOk(frames: seq<Frame>, nextSerial: nat) {
    && (frames != [] ==>
          frames[0].scope == NULL == frames[0].escScope && frames[0].env == NULL
          && frames[0].id == frames[0].serial == 0)
    && (forall k | 1 <= k < |frames| ::
          && (frames[k].scope == NULL) != (frames[k].escScope == NULL)
          && ScopeOf(frames[k]) != NULL && frames[k].env != NULL
          && frames[k].serial < nextSerial && frames[k].id == ScopeId(frames[k].serial))
    && (forall j, k | 1 <= j < k < |frames| ::
          && ScopeOf(frames[j]) != ScopeOf(frames[k])
          && (frames[j].serial != 0 ==> frames[j].serial != frames[k].serial))
    && nextSerial > 0
  }

  /** Frame `k` is the innermost one of that id. */
  predicate Innermost(frames: seq<Frame>, id: nat, k: int) {
    && 0 <= k < |frames| && frames[k].id == id
    && forall j | k < j < |frames| :: frames[j].id != id
  }

  /** Which open frames have the id that the next scope will get. */
  lemma OlderIds(frames: seq<Frame>, nextSerial: nat)
    requires FramesOk(frames, nextSerial)
    ensures 0 < ScopeId(nextSerial) < U32
    ensures forall f <- frames ::
              && f.serial < nextSerial
              && (f.id == ScopeId(nextSerial) <==> f.serial > 0 && (nextSerial - f.serial) % SCOPE_IDS == 0)
  {
    forall k | 0 <= k < |frames|
      ensures var f := frames[k];
              && f.serial < nextSerial
              && (f.id == ScopeId(nextSerial) <==> f.serial > 0 && (nextSerial - f.serial) % SCOPE_IDS == 0)
    {
      if frames[k].serial > 0 { ScopeIdsClash(frames[k].serial, nextSerial); }
    }
  }

  function ScopeOf(f: Frame): Handle { if f.escScope != NULL then f.escScope else f.scope }

  /** A handle that no open scope has; a closed one may have had it. */
  predicate NoneOpen(frames: seq<Frame>, scope: Handle) {
    scope != NULL && forall f <- frames :: ScopeOf(f) != scope
  }

  lemma {:induction false} AnUnusedHandle(frames: seq<Frame>) returns (scope: Handle)
    ensures NoneOpen(frames, scope) && forall f <- frames :: ScopeOf(f) < scope
  {
    if frames == [] {
      scope := 1;
    } else {
      var n := |frames| - 1;
      scope := AnUnusedHandle(frames[..n]);
      scope := scope + ScopeOf(frames[n]) + 1;
      assert frames == frames[..n] + [frames[n]];
    }
  }

  /** The scopes of the frames from `d` on, bottom first; the root has none. */
  ghost function OpenScopes(frames: seq<Frame>, d: nat): Scopes {
    if |frames| <= d || |frames| <= 1 then []
    else
      var f := frames[|frames| - 1];
      OpenScopes(frames[..|frames| - 1], d) + [(f.env, ScopeOf(f))]
  }

  /** The scopes open after a word of engine events, starting from `open`; None if some
      event closes anything but the innermost open scope through the env that opened it. */
  ghost function Replay(open: Scopes, word: seq<Event>): Option<Scopes> {
    if word == [] then Some(open)
    else
      var before := Replay(open, word[..|word| - 1]);
      if before.None? then None else Apply(before.value, word[|word| - 1])
  }

  ghost function Apply(open: Scopes, e: Event): Option<Scopes> {
    if e.Opened? then Some(open + [(e.env, e.scope)])
    else if open != [] && open[|open| - 1] == (e.env, e.scope) then Some(open[..|open| - 1])
    else None
  }

  type Scopes = seq<(Handle, Handle)>

  lemma {:induction false} ReplayConcat(open: Scopes, a: seq<Event>, b: seq<Event>)
    requires Replay(open, a).Some?
    ensures Replay(open, a + b) == Replay(Replay(open, a).value, b)
  {
    if b == [] {
      assert a + b == a;
    } else {
      var n := |b| - 1;
      assert (a + b)[..|a + b| - 1] == a + b[..n];
      ReplayConcat(open, a, b[..n]);
    }
  }

  /** Words of properly nested scopes. */
  ghost predicate Balanced(word: seq<Event>)
    decreases |word|
  {
    || word == []
    || exists k | 0 < k < |word| ::
         && word[0].Opened? && word[k] == Closed(word[0].env, word[0].scope)
         && Balanced(word[1..k]) && Balanced(word[k + 1..])
  }

  /** A word that closes all it opens, from nothing, is balanced, and the converse. */
  lemma {:induction false} BalancedIsReplay(word: seq<Event>)
    ensures Balanced(word) <==> Replay([], word) == Some([])
    decreases |word|
  {
    if word == [] { return; }
    if Balanced(word) {
      var k :| 0 < k < |word| && word[0].Opened? && word[k] == Closed(word[0].env, word[0].scope)
        && Balanced(word[1..k]) && Balanced(word[k + 1..]);
      BalancedIsReplay(word[1..k]);
      BalancedIsReplay(word[k + 1..]);
      Bracket(word, k);
    }
    if Replay([], word) == Some([]) {
      var k := Closing(word);
      BalancedIsReplay(word[1..k]);
      BalancedIsReplay(word[k + 1..]);
    }
  }

  /** Scopes already open below do not matter to a word that stays above them. */
  lemma {:induction false} Lift(below: Scopes, open: Scopes, word: seq<Event>)
    requires Replay(open, word).Some?
    ensures Replay(below + open, word) == Some(below + Replay(open, word).value)
  {
    if word != [] {
      var n := |word| - 1;
      Lift(below, open, word[..n]);
      var before := Replay(open, word[..n]).value;
      ApplyLifts(below, before, word[n]);
    }
  }

  lemma ReplayOne(open: Scopes, e: Event)
    ensures Replay(open, [e]) == Apply(open, e)
  {
    assert [e][..0] == [];
  }

  lemma ApplyLifts(below: Scopes, open: Scopes, e: Event)
    requires Apply(open, e).Some?
    ensures Apply(below + open, e) == Some(below + Apply(open, e).value)
  {
    if e.Opened? {
      assert below + open + [(e.env, e.scope)] == below + (open + [(e.env, e.scope)]);
    } else {
      assert (below + open)[..|below + open| - 1] == below + open[..|open| - 1];
    }
  }

  lemma Chain(open: Scopes, a: seq<Event>, mid: Scopes, b: seq<Event>, end: Scopes)
    requires Replay(open, a) == Some(mid) && Replay(mid, b) == Some(end)
    ensures Replay(open, a + b) == Some(end)
  {
    ReplayConcat(open, a, b);
  }

  lemma Bracket(word: seq<Event>, k: nat)
    requires 0 < k < |word| && word[0].Opened? && word[k] == Closed(word[0].env, word[0].scope)
    requires Replay([], word[1..k]) == Some([]) && Replay([], word[k + 1..]) == Some([])
    ensures Replay([], word) == Some([])
  {
    assert word[..k] == [word[0]] + word[1..k] && word == word[..k] + ([word[k]] + word[k + 1..]);
    FirstOpens(word[0], word[1..k]);
    ClosesThen(word[0], word[k + 1..]);
    Chain([], word[..k], [(word[0].env, word[0].scope)], [word[k]] + word[k + 1..], []);
  }

  lemma FirstOpens(e: Event, inner: seq<Event>)
    requires e.Opened? && Replay([], inner) == Some([])
    ensures Replay([], [e] + inner) == Some([(e.env, e.scope)])
  {
    var x := (e.env, e.scope);
    ReplayOne([], e);
    assert [] + [x] == [x] && [x] + [] == [x];
    Lift([x], [], inner);
    Chain([], [e], [x], inner, [x]);
  }

  lemma ClosesThen(e: Event, rest: seq<Event>)
    requires e.Opened? && Replay([], rest) == Some([])
    ensures Replay([(e.env, e.scope)], [Closed(e.env, e.scope)] + rest) == Some([])
  {
    ReplayOne([(e.env, e.scope)], Closed(e.env, e.scope));
    Chain([(e.env, e.scope)], [Closed(e.env, e.scope)], [], rest, []);
  }

  /** Where the first scope of a word is closed. */
  lemma Closing(word: seq<Event>) returns (k: nat)
    requires word != [] && Replay([], word) == Some([])
    ensures 0 < k < |word| && word[0].Opened? && word[k] == Closed(word[0].env, word[0].scope)
    ensures Replay([], word[1..k]) == Some([]) && Replay([], word[k + 1..]) == Some([])
  {
    var x := FirstScope(word);
    k := 1;
    while k < |word| && Replay([], word[..k + 1]) != Some([])
      invariant 1 <= k <= |word| && Replay([], word[1..k]).Some?
      invariant Replay([], word[..k]) == Some([x] + Replay([], word[1..k]).value)
    {
      FirstPart([], word, k + 1);
      StepAbove(x, word, k);
      k := k + 1;
    }
    assert word[..|word|] == word;
    LastAbove(x, word, k);
  }

  lemma FirstScope(word: seq<Event>) returns (x: (Handle, Handle))
    requires word != [] && Replay([], word).Some?
    ensures word[0].Opened? && x == (word[0].env, word[0].scope)
    ensures Replay([], word[1..1]) == Some([]) && Replay([], word[..1]) == Some([x] + [])
  {
    x := (word[0].env, word[0].scope);
    FirstPart([], word, 1);
    assert word[..1] == [word[0]] && word[1..1] == [];
    ReplayOne([], word[0]);
    assert [] + [x] == [x] && [x] + [] == [x];
  }

  /** The event that leaves nothing open closes the first scope, and the rest stands alone. */
  lemma LastAbove(x: (Handle, Handle), word: seq<Event>, k: nat)
    requires 1 <= k < |word| && Replay([], word[1..k]).Some? && Replay([], word) == Some([])
    requires Replay([], word[..k]) == Some([x] + Replay([], word[1..k]).value) && Replay([], word[..k + 1]) == Some([])
    ensures word[k] == Closed(x.0, x.1) && Replay([], word[1..k]) == Some([]) && Replay([], word[k + 1..]) == Some([])
  {
    assert word[..k + 1][..k] == word[..k];
    ClosesLast(x, Replay([], word[1..k]).value, word[k]);
    assert word[..k + 1] + word[k + 1..] == word;
    ReplayConcat([], word[..k + 1], word[k + 1..]);
  }

  lemma ClosesLast(x: (Handle, Handle), above: Scopes, e: Event)
    requires Apply([x] + above, e) == Some([])
    ensures above == [] && e == Closed(x.0, x.1)
  {
    assert |[x] + above| == 1 + |above|;
  }

  lemma FirstPart(open: Scopes, word: seq<Event>, k: nat)
    requires k <= |word| && Replay(open, word).Some?
    ensures Replay(open, word[..k]).Some?
    decreases |word| - k
  {
    if k < |word| {
      FirstPart(open, word, k + 1);
      assert word[..k + 1][..k] == word[..k];
    } else {
      assert word[..k] == word;
    }
  }

  /** While the first scope stays open, the events above it replay on their own. */
  lemma StepAbove(x: (Handle, Handle), word: seq<Event>, k: nat)
    requires 1 <= k < |word| && Replay([], word[1..k]).Some? && Replay([], word[..k + 1]).Some?
    requires Replay([], word[..k]) == Some([x] + Replay([], word[1..k]).value)
    requires Replay([], word[..k + 1]) != Some([])
    ensures Replay([], word[1..k + 1]).Some?
    ensures Replay([], word[..k + 1]) == Some([x] + Replay([], word[1..k + 1]).value)
  {
    var above := Replay([], word[1..k]).value;
    assert word[..k + 1] == word[..k] + [word[k]] && word[1..k + 1] == word[1..k] + [word[k]];
    ReplayConcat([], word[..k], [word[k]]);
    ReplayConcat([], word[1..k], [word[k]]);
    ReplayOne([x] + above, word[k]);
    ReplayOne(above, word[k]);
    if word[k].Opened? || above != [] { ApplyLifts([x], above, word[k]); }
  }

  // --------------------------------------------------------------------------
  // What a guest call may leave behind
  // --------------------------------------------------------------------------

  ghost predicate SameFrame(f: Frame, g: Frame) {
    && f.scope == g.scope && f.escScope == g.escScope && f.env == g.env && f.id == g.id && f.serial == g.serial
    && f.owned.items <= g.owned.items
  }

  /** The lowest `d` frames are the same frames; they may own more slots. */
  ghost predicate Kept(f: seq<Frame>, g: seq<Frame>, d: nat) {
    d <= |f| && d <= |g| && forall k | 0 <= k < d :: SameFrame(f[k], g[k])
  }

  /** What the engine saw between two traces opens and closes scopes only above frame `d`. */
  ghost predicate Nested(t: seq<Event>, f: seq<Frame>, t': seq<Event>, f': seq<Frame>, d: nat) {
    t <= t' && Replay(OpenScopes(f, d), t'[|t|..]) == Some(OpenScopes(f', d))
  }

  /** The history only grows. */
  ghost predicate Grows(t: Table, t': Table) {
    && |t.frees| <= |t'.frees| && (forall i | 0 <= i < |t.frees| :: t.frees[i] <= t'.frees[i])
    && (forall m <- t.minted :: m in t'.minted && t'.minted[m] == t.minted[m])
  }

  function Rooted(frames: seq<Frame>): seq<Frame> { if frames == [] then [ROOT] else frames }

  lemma NestedTrans(t: seq<Event>, f: seq<Frame>, t': seq<Event>, f': seq<Frame>, t'': seq<Event>, f'': seq<Frame>,
      d: nat)
    requires Nested(t, f, t', f', d) && Nested(t', f', t'', f'', d)
    ensures Nested(t, f, t'', f'', d)
  {
    ReplayConcat(OpenScopes(f, d), t'[|t|..], t''[|t'|..]);
    assert t''[|t|..] == t'[|t|..] + t''[|t'|..];
  }

  lemma NestedStep(t: seq<Event>, f: seq<Frame>, e: Event, f': seq<Frame>, d: nat)
    requires Apply(OpenScopes(f, d), e) == Some(OpenScopes(f', d))
    ensures Nested(t, f, t + [e], f', d)
  {
    assert (t + [e])[|t|..] == [e];
    ReplayOne(OpenScopes(f, d), e);
  }

  lemma {:induction false} SameScopes(f: seq<Frame>, g: seq<Frame>, d: nat)
    requires |f| == |g| && forall k | 0 <= k < |f| :: SameFrame(f[k], g[k])
    ensures OpenScopes(f, d) == OpenScopes(g, d)
  {
    if |f| > d && |f| > 1 { SameScopes(f[..|f| - 1], g[..|g| - 1], d); }
  }

  /** A callback that opened one scope and closed it again showed the engine a balanced word. */
  lemma NestedAtTop(t: seq<Event>, f: seq<Frame>, t': seq<Event>, f': seq<Frame>)
    requires Nested(t, f, t', f', |f|) && (|f'| <= |f| || |f'| <= 1)
    ensures Balanced(t'[|t|..])
  {
    BalancedIsReplay(t'[|t|..]);
  }

  // --------------------------------------------------------------------------
  // The agent's state as one value, and what an operation may do to it
  // --------------------------------------------------------------------------

  datatype State = StateOf(table: Table, frames: seq<Frame>, spare: seq<Buffer>, nextId: nat,
    nextSerial: nat, trace: seq<Event>, invocations: seq<Invocation>, nextInvocation: nat,
    limit: nat)

  ghost predicate SpareOk(spare: seq<Buffer>) {
    |spare| <= MAX_SPARE_FRAMES && forall b <- spare :: b.items == [] && 0 < b.capacity <= MAX_SPARE_CAPACITY
  }

  ghost predicate InvocationsOk(invocations: seq<Invocation>, next: nat) {
    next < U32 && forall i <- invocations :: 0 < i.id < U32
  }

  /** The invariant: the table partitions its slots, the frames are well formed, and the
      engine has open exactly the scopes the frames hold, in their order. */
  ghost predicate StateOk(s: State) {
    && TableOk(s.table, s.frames, [], s.limit)
    && FramesOk(s.frames, s.nextSerial) && s.nextId == ScopeCounter(s.nextSerial) && SpareOk(s.spare)
    && InvocationsOk(s.invocations, s.nextInvocation)
    && Replay([], s.trace) == Some(OpenScopes(s.frames, 1))
  }

  /** The guest cannot close frame `d - 1`: it is an implicit frame or the root. */
  ghost predicate Barrier(frames: seq<Frame>, d: nat) {
    d <= |frames| && (d > 0 ==> frames[d - 1].id == 0)
  }

  /** All that may change above a barrier at `d`; `quiet` says that nothing was escaped. */
  ghost predicate Effect(s: State, s': State, d: nat, quiet: bool) {
    && Kept(s.frames, s'.frames, d) && Nested(s.trace, s.frames, s'.trace, s'.frames, d)
    && Grows(s.table, s'.table)
    && s'.invocations == s.invocations
    && (quiet && d > 0 ==> s'.frames[..d - 1] == s.frames[..d - 1])
  }

  lemma NothingDone(s: State, d: nat)
    requires d <= |s.frames|
    ensures Effect(s, s, d, true)
  {
    assert s.trace[|s.trace|..] == [];
  }

  lemma EffectTrans(s: State, m: State, s': State, d: nat, q: bool, q': bool)
    requires Effect(s, m, d, q) && Effect(m, s', d, q')
    ensures Effect(s, s', d, q && q')
  {
    NestedTrans(s.trace, s.frames, m.trace, m.frames, s'.trace, s'.frames, d);
    forall k | 0 <= k < d ensures SameFrame(s.frames[k], s'.frames[k]) {
      assert SameFrame(s.frames[k], m.frames[k]) && SameFrame(m.frames[k], s'.frames[k]);
    }
    GrowsTrans(s.table, m.table, s'.table);
  }

  lemma GrowsTrans(t: Table, m: Table, t': Table)
    requires Grows(t, m) && Grows(m, t')
    ensures Grows(t, t')
  {
  }

  /** What stays above a barrier stays above any lower one. */
  lemma EffectBelow(s: State, s': State, d: nat, e: nat, quiet: bool)
    requires Effect(s, s', d, quiet) && e <= d
    ensures Effect(s, s', e, quiet)
  {
    ScopesBelow(s.frames, s'.frames, e, d);
    SplitScopes(s.frames, e, d);
    SplitScopes(s'.frames, e, d);
    Lift(OpenScopes(s.frames[..d], e), OpenScopes(s.frames, d), s'.trace[|s.trace|..]);
    if quiet && e > 0 {
      assert s'.frames[..e - 1] == s'.frames[..d - 1][..e - 1];
      assert s.frames[..e - 1] == s.frames[..d - 1][..e - 1];
    }
  }

  lemma {:induction false} SplitScopes(f: seq<Frame>, e: nat, d: nat)
    requires e <= d <= |f|
    ensures OpenScopes(f, e) == OpenScopes(f[..d], e) + OpenScopes(f, d)
  {
    if |f| == d {
      assert f[..d] == f;
    } else if |f| > 1 {
      var n := |f| - 1;
      assert f[..n][..d] == f[..d];
      SplitScopes(f[..n], e, d);
    }
  }

  lemma ScopesBelow(f: seq<Frame>, g: seq<Frame>, e: nat, d: nat)
    requires Kept(f, g, d)
    ensures OpenScopes(f[..d], e) == OpenScopes(g[..d], e)
  {
    forall k | 0 <= k < d ensures SameFrame(f[..d][k], g[..d][k]) {}
    SameScopes(f[..d], g[..d], e);
  }

  /** An effect above some barrier keeps the frames and the engine in agreement. */
  lemma AgreementKept(s: State, s': State)
    requires Replay([], s.trace) == Some(OpenScopes(s.frames, 1))
    requires Nested(s.trace, s.frames, s'.trace, s'.frames, 0)
    ensures Replay([], s'.trace) == Some(OpenScopes(s'.frames, 1))
  {
    FromTheBottom(s.frames);
    FromTheBottom(s'.frames);
    ReplayConcat([], s.trace, s'.trace[|s.trace|..]);
    assert s'.trace == s.trace + s'.trace[|s.trace|..];
  }

  lemma {:induction false} FromTheBottom(f: seq<Frame>)
    ensures OpenScopes(f, 0) == OpenScopes(f, 1)
  {
    if |f| > 1 { FromTheBottom(f[..|f| - 1]); }
  }

  // ---- creating the root frame --------------------------------------------

  lemma RootKeeps(s: State, s': State, d: nat)
    requires StateOk(s) && d <= |s.frames| && s' == s.(frames := Rooted(s.frames))
    ensures StateOk(s') && Effect(s, s', d, true)
  {
    hide SlotAt, Owns, InUse, TableOk, Grows;
    NothingDone(s, d);
    if s.frames == [] { RootKeepsTable(s.table, s.limit); }
  }

  lemma RootKeepsTable(t: Table, limit: nat)
    requires TableOk(t, [], [], limit)
    ensures TableOk(t, [ROOT], [], limit)
  {
    forall i: nat ensures SlotAt(t, [ROOT], [], i) {
      assert SlotAt(t, [], [], i);
      OwnsPush([], ROOT, i);
      assert [] + [ROOT] == [ROOT];
    }
  }

  // ---- pushing the frame of a scope just opened ---------------------------

  lemma PushKeepsTable(t: Table, before: seq<Frame>, f: Frame, limit: nat)
    requires TableOk(t, before, [], limit) && f.owned.items == []
    ensures TableOk(t, Rooted(before) + [f], [], limit)
  {
    forall i: nat ensures SlotAt(t, Rooted(before) + [f], [], i) {
      assert SlotAt(t, before, [], i);
      OwnsPush(Rooted(before), f, i);
      if before == [] {
        OwnsPush([], ROOT, i);
        assert [] + [ROOT] == [ROOT];
      }
    }
  }

  lemma PushKeepsFrames(before: seq<Frame>, f: Frame, serial: nat, serial': nat)
    requires FramesOk(before, serial)
    requires f.env != NULL && NoneOpen(before, ScopeOf(f)) && (f.scope == NULL) != (f.escScope == NULL)
    requires f.id == ScopeId(f.serial)
    requires (f.serial == 0 && serial' == serial) || (f.serial == serial && serial' == serial + 1)
    ensures FramesOk(Rooted(before) + [f], serial')
  {
    var frames := Rooted(before) + [f];
    forall k | 1 <= k < |frames| ensures (k < |before| && frames[k] == before[k]) || frames[k] == f {}
  }

  lemma ScopesOfPush(before: seq<Frame>, f: Frame, d: nat)
    requires d <= |Rooted(before)|
    ensures OpenScopes(Rooted(before) + [f], d) == OpenScopes(before, d) + [(f.env, ScopeOf(f))]
  {
    assert (Rooted(before) + [f])[..|Rooted(before)|] == Rooted(before);
  }

  function TopBuffer(spare: seq<Buffer>): Buffer { if spare == [] then Buffer([], 0) else spare[|spare| - 1] }

  /** A scope was opened and its frame pushed. */
  ghost predicate Entered(s: State, s': State) {
    var n := |Rooted(s.frames)|;
    && |s'.frames| == n + 1 && s'.frames[..n] == Rooted(s.frames)
    && SpareOk(s'.spare)
    && s'.table == s.table && s'.invocations == s.invocations && s'.nextInvocation == s.nextInvocation
    && s'.limit == s.limit
    && var f := s'.frames[n];
       && f.env != NULL && NoneOpen(s.frames, ScopeOf(f)) && (f.scope == NULL) != (f.escScope == NULL)
       && f.owned.items == []
       && f.id == ScopeId(f.serial) && s'.nextId == ScopeCounter(s'.nextSerial)
       && ((f.serial == 0 && s'.nextSerial == s.nextSerial) ||
           (f.serial == s.nextSerial && s'.nextSerial == s.nextSerial + 1))
       && s'.trace == s.trace + [Opened(f.env, ScopeOf(f))]
  }

  lemma EnterKeeps(s: State, s': State, d: nat)
    requires StateOk(s) && d <= |s.frames| && Entered(s, s')
    ensures StateOk(s') && Effect(s, s', d, true)
  {
    hide TableOk, FramesOk, SpareOk, InvocationsOk, Entered, Kept, Nested, Grows;
    EnterNests(s, s', d);
    EnterNests(s, s', 0);
    EnterKeepsParts(s, s', d);
    AgreementKept(s, s');
  }

  lemma EnterKeepsParts(s: State, s': State, d: nat)
    requires StateOk(s) && d <= |s.frames| && Entered(s, s')
    ensures TableOk(s'.table, s'.frames, [], s'.limit) && FramesOk(s'.frames, s'.nextSerial)
    ensures s'.nextId == ScopeCounter(s'.nextSerial) && SpareOk(s'.spare)
    ensures s'.invocations == s.invocations && s'.nextInvocation == s.nextInvocation
    ensures Kept(s.frames, s'.frames, d) && Grows(s.table, s'.table)
    ensures d > 0 ==> s'.frames[..d - 1] == s.frames[..d - 1]
  {
    hide TableOk, FramesOk, Replay, OpenScopes;
    var f := s'.frames[|Rooted(s.frames)|];
    assert s'.frames == Rooted(s.frames) + [f];
    PushKeepsTable(s.table, s.frames, f, s.limit);
    PushKeepsFrames(s.frames, f, s.nextSerial, s'.nextSerial);
  }

  lemma EnterNests(s: State, s': State, d: nat)
    requires d <= |s.frames| && Entered(s, s')
    ensures Nested(s.trace, s.frames, s'.trace, s'.frames, d)
  {
    var f := s'.frames[|Rooted(s.frames)|];
    assert s'.frames == Rooted(s.frames) + [f];
    ScopesOfPush(s.frames, f, d);
    NestedStep(s.trace, s.frames, Opened(f.env, ScopeOf(f)), s'.frames, d);
  }

  // ---- popping the innermost frame ----------------------------------------

  ghost function TraceAfterPop(trace: seq<Event>, f: Frame): seq<Event> {
    if f.env != NULL then trace + [Closed(f.env, ScopeOf(f))] else trace
  }

  function Recycled(spare: seq<Buffer>, owned: Buffer): seq<Buffer> {
    if |spare| < MAX_SPARE_FRAMES && owned.capacity != 0 && owned.capacity <= MAX_SPARE_CAPACITY
    then spare + [Buffer([], owned.capacity)] else spare
  }

  lemma PopKeepsTable(t: Table, frames: seq<Frame>, limit: nat)
    requires frames != [] && TableOk(t, frames, [], limit)
    ensures TableOk(t, frames[..|frames| - 1], frames[|frames| - 1].owned.items, limit)
  {
    var below, loose := frames[..|frames| - 1], frames[|frames| - 1].owned.items;
    forall i: nat ensures SlotAt(t, below, loose, i) {
      assert SlotAt(t, frames, [], i);
    }
  }

  lemma PopKeeps(s: State, s': State, d: nat)
    requires StateOk(s) && d < |s.frames|
    requires var n := |s.frames| - 1;
             && s'.frames == s.frames[..n] && s'.spare == Recycled(s.spare, s.frames[n].owned)
             && s'.trace == TraceAfterPop(s.trace, s.frames[n])
    requires s'.nextId == s.nextId && s'.nextSerial == s.nextSerial
             && s'.limit == s.limit
    requires s'.invocations == s.invocations && s'.nextInvocation == s.nextInvocation
    requires TableOk(s'.table, s'.frames, [], s.limit) && Grows(s.table, s'.table)
    ensures StateOk(s') && Effect(s, s', d, true)
  {
    PopNests(s, s', d);
    PopNests(s, s', 0);
    AgreementKept(s, s');
    if d > 0 { assert s'.frames[..d - 1] == s.frames[..d - 1]; }
  }

  lemma PopNests(s: State, s': State, d: nat)
    requires StateOk(s) && d < |s.frames| && s'.frames == s.frames[..|s.frames| - 1]
    requires s'.trace == TraceAfterPop(s.trace, s.frames[|s.frames| - 1])
    ensures Nested(s.trace, s.frames, s'.trace, s'.frames, d)
  {
    var f := s.frames[|s.frames| - 1];
    if f.env == NULL {
      assert s.trace[|s.trace|..] == [];
    } else {
      NestedStep(s.trace, s.frames, Closed(f.env, ScopeOf(f)), s'.frames, d);
    }
  }

  lemma FreedGrows(t: Table, index: nat)
    ensures Grows(t, Freed(t, index))
  {
  }

  // ---- storing a value ----------------------------------------------------

  ghost function AfterStore(s: State, k: nat, val: Handle): State
    requires k < |s.frames| && |s.table.slots| == |s.table.frees|
             && (s.table.free != [] ==> NextSlot(s.table) < |s.table.slots|)
  {
    s.(table := Stored(s.table, NextSlot(s.table), val), frames := Owning(s.frames, k, NextSlot(s.table)))
  }

  lemma NextSlotFits(t: Table, frames: seq<Frame>, limit: nat)
    requires TableOk(t, frames, [], limit)
    ensures |t.slots| == |t.frees| && (t.free != [] ==> NextSlot(t) < |t.slots|)
    ensures t.free != [] ==> !t.slots[NextSlot(t)].inUse
    ensures forall x <- t.slots :: x.generation < GENERATIONS
  {
    forall i | 0 <= i < |t.slots| ensures t.slots[i].generation < GENERATIONS {
      assert SlotAt(t, frames, [], i);
    }
    if t.free != [] { assert SlotAt(t, frames, [], NextSlot(t)); }
  }

  lemma StoreKeepsState(s: State, k: nat, val: Handle, d: nat)
    requires StateOk(s) && k < |s.frames| && d <= |s.frames| && val != NULL && (s.limit == 0 || s.table.live < s.limit)
    requires s.table.free != [] || |s.table.slots| < MAX_SLOTS
    ensures |s.table.slots| == |s.table.frees| && (s.table.free != [] ==> NextSlot(s.table) < |s.table.slots|)
    ensures forall x <- s.table.slots :: x.generation < GENERATIONS
    ensures var s' := AfterStore(s, k, val); StateOk(s') && Effect(s, s', d, k + 1 >= d)
  {
    hide SlotAt, Owns, InUse, TableOk, FramesOk, SpareOk, InvocationsOk, Grows, Kept, Stored;
    var index := NextSlot(s.table);
    NextSlotFits(s.table, s.frames, s.limit);
    StoreKeeps(s.table, s.frames, k, s.limit, val, index);
    OwningKeeps(s.frames, k, index, s.nextSerial, d);
    OwningKeeps(s.frames, k, index, s.nextSerial, 1);
    assert s.trace[|s.trace|..] == [];
    StoreGrows(s.table, s.frames, s.limit, index, val);
    if k + 1 >= d > 0 { assert Owning(s.frames, k, index)[..d - 1] == s.frames[..d - 1]; }
  }

  lemma OwningKeeps(frames: seq<Frame>, k: nat, index: nat, serial: nat, d: nat)
    requires FramesOk(frames, serial) && k < |frames|
    ensures FramesOk(Owning(frames, k, index), serial)
    ensures OpenScopes(Owning(frames, k, index), d) == OpenScopes(frames, d)
    ensures d <= |frames| ==> Kept(frames, Owning(frames, k, index), d)
  {
    var frames' := Owning(frames, k, index);
    forall j | 0 <= j < |frames| ensures SameFrame(frames[j], frames'[j]) {}
    SameScopes(frames, frames', d);
  }

  lemma StoreGrows(t: Table, frames: seq<Frame>, limit: nat, index: nat, val: Handle)
    requires TableOk(t, frames, [], limit)
    requires if t.free != [] then index == t.free[|t.free| - 1] else index == |t.slots| < MAX_SLOTS
    requires index <= |t.slots|
    ensures Grows(t, Stored(t, index, val))
  {
    assert SlotAt(t, frames, [], index);
    if t.free != [] { assert t.free == t.free[..|t.free| - 1] + [index]; }
  }

  // ---- a whole guest call -------------------------------------------------

  /** The frame stack is as the guest call found it (an empty one has its root now): the same
      frames, which own more only if something was escaped, and the scopes the engine saw
      open and close in between are balanced. */
  ghost predicate CleanReturn(s: State, s': State, quiet: bool) {
    && |s'.frames| == |Rooted(s.frames)| && Kept(Rooted(s.frames), s'.frames, |s'.frames|)
    && (quiet ==> s'.frames == Rooted(s.frames))
    && s.trace <= s'.trace && Balanced(s'.trace[|s.trace|..])
  }

  /** The implicit scope of a guest call has been opened, giving `s1`, and the guest has run. */
  ghost predicate InCall(s0: State, s1: State, s2: State, escapable: bool, scope: Handle, quiet: bool) {
    var n := |Rooted(s0.frames)|;
    && Effect(s0, s1, |s0.frames|, true) && |s1.frames| == n + 1 && s1.frames[..n] == Rooted(s0.frames)
    && Effect(s1, s2, n + 1, quiet) && n < |s2.frames|
    && (if escapable then s2.frames[n].escScope else s2.frames[n].scope) == scope
  }

  lemma EnteredThenRan(s0: State, s1: State, s2: State, escapable: bool, scope: Handle, quiet: bool)
    requires var n := |Rooted(s0.frames)|;
             && Effect(s0, s1, |s0.frames|, true) && |s1.frames| == n + 1 && s1.frames[..n] == Rooted(s0.frames)
             && (if escapable then s1.frames[n].escScope else s1.frames[n].scope) == scope
             && Effect(s1, s2, n + 1, quiet)
    ensures InCall(s0, s1, s2, escapable, scope, quiet)
  {
    assert SameFrame(s1.frames[|Rooted(s0.frames)|], s2.frames[|Rooted(s0.frames)|]);
  }

  /** Entering, running behind the implicit frame, and unwinding to it is clean. */
  lemma GuestCallReturns(s0: State, s1: State, s2: State, s3: State, escapable: bool, scope: Handle, d: nat,
      quiet: bool)
    requires d <= |s0.frames| && InCall(s0, s1, s2, escapable, scope, quiet)
    requires Effect(s2, s3, |Rooted(s0.frames)|, true) && s3.frames == s2.frames[..|Rooted(s0.frames)|]
    ensures CleanReturn(s0, s3, quiet) && Effect(s0, s3, d, quiet)
  {
    var f, n := |s0.frames|, |Rooted(s0.frames)|;
    EffectBelow(s1, s2, n + 1, f, quiet);
    EffectBelow(s2, s3, n, f, true);
    EffectTrans(s0, s1, s2, f, true, quiet);
    EffectTrans(s0, s2, s3, f, quiet, true);
    EffectBelow(s0, s3, f, d, quiet);
    NestedAtTop(s0.trace, s0.frames, s3.trace, s3.frames);
    forall k | 0 <= k < n ensures SameFrame(Rooted(s0.frames)[k], s3.frames[k]) {
      assert SameFrame(s1.frames[k], s2.frames[k]) && s1.frames[k] == s1.frames[..n][k];
    }
  }

  /** Some frames above `n` were popped; frame `n` and what is below it are as they were. */
  ghost predicate UnwoundTo(s: State, m: State, n: nat) {
    n < |s.frames| && n < |m.frames| && Effect(s, m, n + 1, true) && m.frames[..n + 1] == s.frames[..n + 1]
  }

  lemma PoppedAbove(s: State, m: State, m': State, n: nat)
    requires UnwoundTo(s, m, n) && n + 1 < |m.frames| && m'.frames == m.frames[..|m.frames| - 1]
    requires Effect(m, m', n + 1, true)
    ensures UnwoundTo(s, m', n)
  {
    assert m'.frames[..n + 1] == m.frames[..n + 1];
    EffectTrans(s, m, m', n + 1, true, true);
  }

  /** No frame above `n` has its scope, so the first one found going down is `n`. */
  lemma UnwoundFrame(s: State, m: State, n: nat)
    requires 1 <= n && StateOk(m) && UnwoundTo(s, m, n)
    ensures m.frames[n] == s.frames[n]
    ensures m.frames[|m.frames| - 1].escScope == s.frames[n].escScope != NULL ==> |m.frames| == n + 1
    ensures m.frames[|m.frames| - 1].scope == s.frames[n].scope != NULL ==> |m.frames| == n + 1
  {
    assert m.frames[n] == m.frames[..n + 1][n];
  }

  /** Which guest calls are in progress does not matter to the effect on frames and table. */
  lemma Forget(s: State, s': State, i: seq<Invocation>, d: nat, quiet: bool)
    requires Effect(s, s', d, quiet)
    ensures Effect(s.(invocations := i), s'.(invocations := i), d, quiet)
  {
  }

  ghost predicate Registered(s0: State, r: State) {
    && r.invocations != [] && r.invocations[..|r.invocations| - 1] == s0.invocations
    && r == s0.(invocations := r.invocations, nextInvocation := r.nextInvocation)
  }

  /** A callback whose implicit scope opened: registered, entered, run, erased, unwound. */
  lemma CallbackReturns(s0: State, r: State, s1: State, s2: State, e: State, s3: State, cbScope: Handle, d: nat,
      quiet: bool)
    requires d <= |s0.frames| && Registered(s0, r) && InCall(r, s1, s2, true, cbScope, quiet)
    requires e == s2.(invocations := s0.invocations)
    requires Effect(e, s3, |Rooted(s0.frames)|, true) && s3.frames == e.frames[..|Rooted(s0.frames)|]
    ensures CleanReturn(s0, s3, quiet) && Effect(s0, s3, d, quiet)
  {
    var i := s0.invocations;
    Forget(r, s1, i, |r.frames|, true);
    Forget(s1, s2, i, |Rooted(s0.frames)| + 1, quiet);
    GuestCallReturns(r.(invocations := i), s1.(invocations := i), e, s3, true, cbScope, d, quiet);
  }

  /** A callback whose implicit scope did not open runs in the frames around it. */
  lemma CallbackInline(s0: State, r: State, s2: State, e: State, d: nat, quiet: bool)
    requires d <= |s0.frames| && Registered(s0, r) && Effect(r, s2, d, quiet)
    requires e == s2.(invocations := s0.invocations)
    ensures Effect(s0, e, d, quiet)
  {
  }

  // --------------------------------------------------------------------------
  // The agent
  // --------------------------------------------------------------------------

  /** What a call into the guest checks first: the host data is there, its env is known, the call
      is admitted, a callback context is set, and the function is still registered. */
  datatype Entry = Entry(bound: bool, known: bool, admitted: bool, context: bool, registered: bool) {
    predicate Enters() { bound && known && admitted && context }
    predicate Calls() { Enters() && registered }
  }

  /** Everything a guest can make happen, with the engine's answers. */
  datatype Action =
    | Mint(env: Handle, value: Handle)
    | Open(env: Handle, escapable: bool, ok: bool)
    | Close(env: Handle, escapable: bool, scopeId: nat)
    | Escape(env: Handle, scopeId: nat, escapeeId: nat, escaped: Handle)
    | Callback(entry: Entry, env: Handle, info: Handle, ok: bool, body: seq<Action>, resultId: nat, escaped: Handle)
    | FinalizerOrInterrupt(entry: Entry, env: Handle, ok: bool, body: seq<Action>)

  ghost predicate Quiet(a: Action) {
    !a.Escape? && (a.Callback? || a.FinalizerOrInterrupt? ==> forall b <- a.body :: Quiet(b))
  }

  ghost predicate NoEscape(body: seq<Action>) {
    forall a <- body :: Quiet(a)
  }

  datatype Status = Ok | InvalidArg | ScopeMismatch | EngineFailed

  class Agent {
    const valueLimit: nat
    var valueSlots: seq<Slot>
    var valueFreeSlots: seq<nat>
    var liveValueCount: nat
    var scopeFrames: seq<Frame>
    var nextScopeId: nat
    var nextSerial: nat
    var spareOwnedSlots: seq<Buffer>
    var callbackInvocations: seq<Invocation>
    var nextInvocationId: nat
    // what the engine has seen
    ghost var trace: seq<Event>
    ghost var frees: seq<nat>
    ghost var minted: map<(nat, nat), Handle>

    ghost function View(): Table
      reads this
    {
      TableOf(valueSlots, valueFreeSlots, liveValueCount, frees, minted)
    }

    ghost function Snap(): State
      reads this
    {
      StateOf(View(), scopeFrames, spareOwnedSlots, nextScopeId, nextSerial, trace, callbackInvocations,
              nextInvocationId, valueLimit)
    }

    ghost predicate Valid()
      reads this
    {
      StateOk(Snap())
    }

    constructor (limit: nat)
      ensures Valid() && valueLimit == limit && scopeFrames == [] && trace == []
      ensures valueSlots == [] && valueFreeSlots == [] && liveValueCount == 0 && callbackInvocations == []
    {
      valueLimit := limit;
      valueSlots, valueFreeSlots, liveValueCount, scopeFrames := [], [], 0, [];
      nextScopeId, nextSerial, spareOwnedSlots, callbackInvocations, nextInvocationId := 1, 1, [], [], 1;
      trace, frees, minted := [], [], map[];
      new;
      forall i: nat ensures SlotAt(View(), [], [], i) {}
    }

    /** CurrentFrame: the innermost frame, creating the root frame on first use. */
    method EnsureRoot(ghost d: nat)
      requires Valid() && d <= |scopeFrames|
      modifies this`scopeFrames
      ensures Valid() && Effect(old(Snap()), Snap(), d, true)
      ensures Snap() == old(Snap()).(frames := Rooted(old(scopeFrames)))
    {
      if scopeFrames == [] { scopeFrames := [ROOT]; }
      RootKeeps(old(Snap()), Snap(), d);
    }

    /** A scope opens in the engine, or fails to. Its handle is any that no open scope has. */
    method EngineOpens(env: Handle, ok: bool) returns (scope: Handle)
      modifies this`trace
      ensures if ok && env != NULL then
                NoneOpen(scopeFrames, scope) && trace == old(trace) + [Opened(env, scope)]
              else scope == NULL && trace == old(trace)
    {
      if !ok || env == NULL { return NULL; }
      ghost var unused := AnUnusedHandle(scopeFrames);
      scope :| NoneOpen(scopeFrames, scope);
      trace := trace + [Opened(env, scope)];
    }

    /** PushScopeFrame: on top of the root at least, reusing a popped frame's buffer. A scope the
        guest asked for then gets the next guest-visible id. */
    method PushScopeFrame(env: Handle, scope: Handle, escScope: Handle, byGuest: bool)
      requires SpareOk(spareOwnedSlots) && nextSerial > 0 && nextScopeId == ScopeCounter(nextSerial)
      modifies this`scopeFrames, this`spareOwnedSlots, this`nextScopeId, this`nextSerial
      ensures SpareOk(spareOwnedSlots)
      ensures var root := Rooted(old(scopeFrames));
              && |scopeFrames| == |root| + 1 && scopeFrames[..|root|] == root
              && var serial := if byGuest then old(nextSerial) else 0;
              scopeFrames[|root|] ==
              Frame(scope, escScope, env, TopBuffer(old(spareOwnedSlots)), ScopeId(serial), serial)
      ensures spareOwnedSlots ==
                (if old(spareOwnedSlots) == [] then [] else old(spareOwnedSlots)[..old(|spareOwnedSlots|) - 1])
      ensures nextSerial == old(nextSerial) + (if byGuest then 1 else 0) && nextScopeId == ScopeCounter(nextSerial)
    {
      if scopeFrames == [] { scopeFrames := [ROOT]; }
      ghost var root := scopeFrames;
      var owned := Buffer([], 0);
      if spareOwnedSlots != [] {
        owned := spareOwnedSlots[|spareOwnedSlots| - 1];
        spareOwnedSlots := spareOwnedSlots[..|spareOwnedSlots| - 1];
      }
      var frame := Frame(scope, escScope, env, owned, 0, 0);
      if byGuest {
        ScopeCounterSteps(nextSerial);
        frame := frame.(id := nextScopeId, serial := nextSerial);
        nextScopeId := (nextScopeId + 1) % U32;
        if frame.id == 0 {
          frame := frame.(id := nextScopeId);
          nextScopeId := (nextScopeId + 1) % U32;
        }
        nextSerial := nextSerial + 1;
      }
      scopeFrames := scopeFrames + [frame];
      assert scopeFrames[..|root|] == root;
    }

    /** Opens a scope in the engine and pushes its frame. A scope the guest asked for gets the
        next guest-visible id; an implicit one has id 0. */
    method Enter(env: Handle, escapable: bool, ok: bool, byGuest: bool, ghost d: nat) returns (scope: Handle)
      requires Valid() && d <= |scopeFrames|
      modifies this
      ensures Valid() && Effect(old(Snap()), Snap(), d, true)
      ensures View() == old(View()) && (scope != NULL <==> ok && env != NULL)
      ensures scope == NULL ==> Snap() == old(Snap())
      ensures scope != NULL ==>
                var root, n := Rooted(old(scopeFrames)), |Rooted(old(scopeFrames))|;
                && |scopeFrames| == n + 1 && scopeFrames[..n] == root
                && var f := scopeFrames[n];
                   && f.serial == (if byGuest then old(nextSerial) else 0) && f.id == ScopeId(f.serial)
                   && f.env == env && f.owned.items == []
                   && f.escScope == (if escapable then scope else NULL)
                   && f.scope == (if escapable then NULL else scope)
      ensures scope != NULL ==> NoneOpen(old(scopeFrames), scope) && trace == old(trace) + [Opened(env, scope)]
    {
      hide SlotAt, Owns, InUse, Kept, Nested, Grows, Replay, OpenScopes, InvocationsOk;
      ghost var s := Snap();
      scope := EngineOpens(env, ok);
      if scope == NULL {
        NothingDone(s, d);
        return;
      }
      PushScopeFrame(env, if escapable then NULL else scope, if escapable then scope else NULL, byGuest);
      EnterKeeps(s, Snap(), d);
    }

    /** The end of StoreValueInFrame: takes a free slot, the last freed first, or a new one. */
    method MintSlot(val: Handle, k: nat) returns (id: nat)
      requires k < |scopeFrames| && |valueSlots| == |frees|
               && (valueFreeSlots != [] ==> NextSlot(View()) < |valueSlots|)
      requires forall s <- valueSlots :: s.generation < GENERATIONS
      modifies this`valueSlots, this`valueFreeSlots, this`liveValueCount, this`scopeFrames, this`frees, this`minted
      ensures var index := NextSlot(old(View()));
              && View() == Stored(old(View()), index, val) && scopeFrames == Owning(old(scopeFrames), k, index)
              && index < |valueSlots| && id == EncodeId(index, valueSlots[index].generation) && SlotOf(id) == index
    {
      ghost var t, f := View(), scopeFrames;
      var index: nat;
      if valueFreeSlots != [] {
        index := valueFreeSlots[|valueFreeSlots| - 1];
        valueFreeSlots := valueFreeSlots[..|valueFreeSlots| - 1];
      } else {
        index := |valueSlots|;
        valueSlots := valueSlots + [Slot(NULL, 0, false)];
        frees := frees + [0];
      }
      valueSlots := valueSlots[index := Slot(val, valueSlots[index].generation, true)];
      minted := minted[(index, frees[index]) := val];
      liveValueCount := liveValueCount + 1;
      scopeFrames := scopeFrames[k := scopeFrames[k].(owned := scopeFrames[k].owned.PushBack(index))];
      assert valueSlots == Stored(t, index, val).slots && scopeFrames == Owning(f, k, index);
      id := EncodeId(index, valueSlots[index].generation);
    }

    /** StoreValueInFrame: mints an id for `val`, owned by frame `k`; 0 if it cannot. */
    method StoreValueInFrame(env: Handle, val: Handle, k: nat, ghost d: nat) returns (id: nat)
      requires Valid() && k < |scopeFrames| && d <= |scopeFrames|
      modifies this
      ensures Valid() && Effect(old(Snap()), Snap(), d, k + 1 >= d)
      ensures id == 0 ==> Snap() == old(Snap())
      ensures id == 0 <==> val == NULL || env == NULL || (valueLimit != 0 && old(liveValueCount) >= valueLimit)
                           || (old(valueFreeSlots) == [] && old(|valueSlots|) >= MAX_SLOTS)
      ensures id != 0 ==>
                var index := SlotOf(id);
                && index == NextSlot(old(View())) <= |old(valueSlots)| == |old(frees)|
                && index < |valueSlots| && id == EncodeId(index, valueSlots[index].generation)
                && Snap() ==
                     old(Snap()).(table := Stored(old(View()), index, val),
                                  frames := Owning(old(scopeFrames), k, index))
    {
      hide SlotAt, Owns, InUse, Kept, Nested, Grows, Replay, OpenScopes, SpareOk, InvocationsOk;
      ghost var s := Snap();
      NothingDone(s, d);
      if val == NULL { return 0; }
      if env == NULL { return 0; }
      if valueLimit != 0 && liveValueCount >= valueLimit { return 0; }
      if valueFreeSlots == [] && |valueSlots| >= MAX_SLOTS { return 0; }
      StoreKeepsState(s, k, val, d);
      id := MintSlot(val, k);
    }

    /** StoreValue: into the innermost frame. */
    method StoreValue(env: Handle, val: Handle, ghost d: nat) returns (id: nat)
      requires Valid() && d <= |scopeFrames|
      modifies this
      ensures Valid() && Effect(old(Snap()), Snap(), d, true)
      ensures id != 0 ==> LoadValue(env, id) == val && |Rooted(old(scopeFrames))| > 0
                          && scopeFrames == Owning(Rooted(old(scopeFrames)), |Rooted(old(scopeFrames))| - 1, SlotOf(id))
      ensures id == 0 ==> Snap() == old(Snap()).(frames := Rooted(old(scopeFrames)))
      ensures id == 0 <==> val == NULL || env == NULL || (valueLimit != 0 && old(liveValueCount) >= valueLimit)
                           || (old(valueFreeSlots) == [] && old(|valueSlots|) >= MAX_SLOTS)
    {
      hide TableOk, FramesOk, SlotAt, Owns, InUse, Kept, Nested, Grows, Replay, OpenScopes, SpareOk, InvocationsOk;
      ghost var s := Snap();
      EnsureRoot(d);
      ghost var m := Snap();
      id := StoreValueInFrame(env, val, |scopeFrames| - 1, d);
      EffectTrans(s, m, Snap(), d, true, true);
      if id != 0 {
        IdLoads(View(), scopeFrames, valueLimit, SlotOf(id));
      }
    }

    /** LoadValue */
    function LoadValue(env: Handle, id: nat): Handle
      reads this
    {
      if env == NULL then NULL else Load(valueSlots, id)
    }

    /** FreeValueSlot: retires every id of the slot's occupant. */
    method FreeValueSlot(index: nat)
      requires index < |valueSlots| == |frees| && (valueSlots[index].inUse ==> liveValueCount > 0)
      modifies this`valueSlots, this`valueFreeSlots, this`liveValueCount, this`frees
      ensures View() == Freed(old(View()), index)
    {
      var slot := valueSlots[index];
      if !slot.inUse { return; }
      valueSlots := valueSlots[index := Slot(NULL, (slot.generation + 1) % GENERATIONS, false)];
      valueFreeSlots := valueFreeSlots + [index];
      liveValueCount := liveValueCount - 1;
      frees := frees[index := frees[index] + 1];
    }

    /** The loop of PopCurrentFrame over the slots a frame owned. */
    method FreeOwned(items: seq<nat>)
      requires TableOk(View(), scopeFrames, items, valueLimit)
      modifies this`valueSlots, this`valueFreeSlots, this`liveValueCount, this`frees
      ensures TableOk(View(), scopeFrames, [], valueLimit)
      ensures View() == FreedAll(old(View()), items) && Grows(old(View()), View())
    {
      ghost var was := View();
      var i := 0;
      assert items[0..] == items;
      while i < |items|
        invariant 0 <= i <= |items| && TableOk(View(), scopeFrames, items[i..], valueLimit)
        invariant FreedAll(View(), items[i..]) == FreedAll(was, items) && Grows(was, View())
      {
        ghost var t, loose := View(), items[i..];
        FreeKeeps(t, scopeFrames, loose, valueLimit);
        assert loose[1..] == items[i + 1..];
        FreeValueSlot(items[i]);
        FreedGrows(t, items[i]);
        GrowsTrans(was, t, View());
        i := i + 1;
      }
      assert items[i..] == [];
    }

    /** PopCurrentFrame: frees what the innermost frame owns, closes its scope through the env
        that opened it, and keeps a small buffer for the next frame. */
    method PopCurrentFrame(ghost d: nat)
      requires Valid() && (d < |scopeFrames| || d == 0)
      modifies this
      ensures Valid() && Effect(old(Snap()), Snap(), d, true)
      ensures if old(scopeFrames) == [] then Snap() == old(Snap())
              else
                var n := old(|scopeFrames|) - 1;
                && scopeFrames == old(scopeFrames)[..n]
                && View() == FreedAll(old(View()), old(scopeFrames)[n].owned.items)
                && spareOwnedSlots == Recycled(old(spareOwnedSlots), old(scopeFrames)[n].owned)
                && trace == TraceAfterPop(old(trace), old(scopeFrames)[n])
                && nextScopeId == old(nextScopeId) && nextSerial == old(nextSerial)
    {
      hide SlotAt, Owns, InUse, Kept, Nested, Grows, Replay, OpenScopes, SpareOk, InvocationsOk;
      ghost var s := Snap();
      if scopeFrames == [] {
        NothingDone(s, d);
        return;
      }
      var frame := scopeFrames[|scopeFrames| - 1];
      PopKeepsTable(View(), scopeFrames, valueLimit);
      scopeFrames := scopeFrames[..|scopeFrames| - 1];
      FreeOwned(frame.owned.items);
      if |spareOwnedSlots| < MAX_SPARE_FRAMES && frame.owned.capacity != 0
         && frame.owned.capacity <= MAX_SPARE_CAPACITY {
        spareOwnedSlots := spareOwnedSlots + [Buffer([], frame.owned.capacity)];
      }
      if frame.env != NULL {
        if frame.escScope != NULL {
          trace := trace + [Closed(frame.env, frame.escScope)];
        } else if frame.scope != NULL {
          trace := trace + [Closed(frame.env, frame.scope)];
        }
      }
      PopKeeps(s, Snap(), d);
    }

    /** FindFrameById: the innermost frame the guest knows by this id; -1 if there is none. */
    method FindFrameById(scopeId: nat) returns (idx: int)
      ensures -1 <= idx < |scopeFrames|
      ensures idx >= 0 ==> scopeId != 0 && scopeFrames[idx].id == scopeId
      ensures forall k | idx < k < |scopeFrames| && k >= 0 && scopeId != 0 :: scopeFrames[k].id != scopeId
    {
      if scopeId == 0 { return -1; }
      idx := |scopeFrames| - 1;
      while idx >= 0
        invariant -1 <= idx < |scopeFrames|
        invariant forall k | idx < k < |scopeFrames| :: scopeFrames[k].id != scopeId
      {
        if scopeFrames[idx].id == scopeId { return; }
        idx := idx - 1;
      }
    }

    /** Opens a scope, plain or escapable. Its id is not 0, and no open scope has it, unless one
        was opened a multiple of 2^32 - 1 openings before. */
    method OpenHandleScope(env: Handle, escapable: bool, ok: bool, ghost d: nat) returns (status: Status, scopeId: nat)
      requires Valid() && d <= |scopeFrames|
      modifies this
      ensures Valid() && Effect(old(Snap()), Snap(), d, true)
      ensures status == (if env == NULL then InvalidArg else if ok then Ok else EngineFailed)
      ensures status != Ok ==> Snap() == old(Snap())
      ensures status == Ok ==>
                && View() == old(View())
                && var n := |Rooted(old(scopeFrames))|;
                && |scopeFrames| == n + 1 && scopeFrames[..n] == Rooted(old(scopeFrames))
                && scopeFrames[n].id == scopeId && scopeFrames[n].env == env && scopeFrames[n].owned.items == []
                && (escapable <==> scopeFrames[n].escScope != NULL) && 0 < scopeId < U32
                && NoneOpen(old(scopeFrames), ScopeOf(scopeFrames[n]))
                && trace == old(trace) + [Opened(env, ScopeOf(scopeFrames[n]))]
                && scopeFrames[n].serial == old(nextSerial)
                && forall f <- old(scopeFrames) ::
                     f.serial < old(nextSerial)
                     && (f.id == scopeId <==> f.serial > 0 && (old(nextSerial) - f.serial) % SCOPE_IDS == 0)
    {
      NothingDone(Snap(), d);
      if env == NULL { return InvalidArg, 0; }
      var scope := Enter(env, escapable, ok, true, d);
      if scope == NULL { return EngineFailed, 0; }
      status, scopeId := Ok, scopeFrames[|scopeFrames| - 1].id;
      OlderIds(old(scopeFrames), old(nextSerial));
    }

    /** Closes a scope; only the innermost one, and only one of the right kind. */
    method CloseHandleScope(env: Handle, escapable: bool, scopeId: nat, ghost d: nat) returns (status: Status)
      requires Valid() && Barrier(scopeFrames, d)
      modifies this
      ensures Valid() && Effect(old(Snap()), Snap(), d, true)
      ensures status != Ok ==> Snap() == old(Snap())
      ensures status == Ok <==>
                && env != NULL && scopeId != 0 && old(scopeFrames) != []
                && var f := old(scopeFrames)[old(|scopeFrames|) - 1];
                f.id == scopeId && (if escapable then f.escScope else f.scope) != NULL
      ensures status == Ok ==>
                var n := old(|scopeFrames|) - 1;
                && scopeFrames == old(scopeFrames)[..n]
                && View() == FreedAll(old(View()), old(scopeFrames)[n].owned.items)
                && trace == TraceAfterPop(old(trace), old(scopeFrames)[n])
    {
      hide SlotAt, Owns, InUse, Kept, Nested, Grows, Replay, OpenScopes, SpareOk, InvocationsOk;
      NothingDone(Snap(), d);
      if env == NULL { return InvalidArg; }
      var idx := FindFrameById(scopeId);
      if idx < 0
         || (if escapable then scopeFrames[idx].escScope else scopeFrames[idx].scope) == NULL { return InvalidArg; }
      if idx != |scopeFrames| - 1 { return ScopeMismatch; }
      PopCurrentFrame(d);
      status := Ok;
    }

    /** Escapes a value out of an escapable scope: the engine's new value is owned by the
        frame around that scope, whichever frame is innermost. */
    method EscapeHandle(env: Handle, scopeId: nat, escapeeId: nat, escaped: Handle, ghost d: nat)
      returns (status: Status, id: nat)
      requires Valid() && Barrier(scopeFrames, d)
      modifies this
      ensures Valid() && Effect(old(Snap()), Snap(), d, false)
      ensures |scopeFrames| == old(|scopeFrames|) && trace == old(trace)
      ensures status == Ok <==>
                && escaped != NULL && old(LoadValue(env, escapeeId)) != NULL && scopeId != 0
                && exists k :: Innermost(old(scopeFrames), scopeId, k) && old(scopeFrames)[k].escScope != NULL
      ensures id != 0 ==>
                && status == Ok && LoadValue(env, id) == escaped
                && exists k :: Innermost(old(scopeFrames), scopeId, k) && k >= 1
                               && scopeFrames == Owning(old(scopeFrames), k - 1, SlotOf(id))
      ensures id == 0 ==> Snap() == old(Snap())
    {
      hide SlotAt, Owns, InUse, Kept, Nested, Grows, Replay, OpenScopes, SpareOk, InvocationsOk;
      NothingDone(Snap(), d);
      if env == NULL { return InvalidArg, 0; }
      var idx := FindFrameById(scopeId);
      assert idx >= 0 ==> Innermost(scopeFrames, scopeId, idx);
      if idx <= 0 || scopeFrames[idx].escScope == NULL { return InvalidArg, 0; }
      var escapee := LoadValue(env, escapeeId);
      if escapee == NULL { return InvalidArg, 0; }
      if escaped == NULL { return EngineFailed, 0; }
      id := StoreValueInFrame(env, escaped, idx - 1, d);
      status := Ok;
      if id != 0 {
        IdLoads(View(), scopeFrames, valueLimit, SlotOf(id));
      }
    }

    /** RegisterCallbackInvocation */
    method RegisterInvocation(info: Handle, ghost d: nat) returns (id: nat)
      requires Valid() && d <= |scopeFrames|
      modifies this`callbackInvocations, this`nextInvocationId
      ensures Valid()
      ensures id == 0 <==> info == NULL
      ensures if id == 0 then Snap() == old(Snap())
              else
                && 0 < id == (if old(nextInvocationId) == 0 then 1 else old(nextInvocationId)) < U32
                && Snap() == old(Snap()).(
                     invocations := old(callbackInvocations) + [Invocation(id, info)], nextInvocation := (id + 1) % U32)
    {
      hide SlotAt, Owns, InUse, Kept, Nested, Grows, Replay, OpenScopes, SpareOk;
      if info == NULL { return 0; }
      id := nextInvocationId;
      nextInvocationId := (nextInvocationId + 1) % U32;
      if id == 0 {
        id := nextInvocationId;
        nextInvocationId := (nextInvocationId + 1) % U32;
      }
      callbackInvocations := callbackInvocations + [Invocation(id, info)];
    }

    /** Takes the last invocation of an id out again, at index `at`, if there is one. */
    method EraseInvocation(id: nat) returns (ghost at: int)
      requires Valid()
      modifies this`callbackInvocations
      ensures Valid()
      ensures Snap() == old(Snap()).(invocations := callbackInvocations)
      ensures -1 <= at < |old(callbackInvocations)| && (at >= 0 ==> old(callbackInvocations)[at].id == id)
      ensures forall k | at < k < |old(callbackInvocations)| :: old(callbackInvocations)[k].id != id
      ensures callbackInvocations == if at < 0 then old(callbackInvocations)
                                     else old(callbackInvocations)[..at] + old(callbackInvocations)[at + 1..]
    {
      var i := |callbackInvocations| - 1;
      while i >= 0 && callbackInvocations[i].id != id
        invariant -1 <= i < |callbackInvocations|
        invariant forall k | i < k < |callbackInvocations| :: callbackInvocations[k].id != id
      {
        i := i - 1;
      }
      at := i;
      if i >= 0 {
        callbackInvocations := callbackInvocations[..i] + callbackInvocations[i + 1..];
      }
    }

    /** One round of an unwinding loop. */
    method PopAbove(ghost s: State, ghost n: nat)
      requires Valid() && UnwoundTo(s, Snap(), n) && n + 1 < |scopeFrames|
      modifies this
      ensures Valid() && UnwoundTo(s, Snap(), n) && |scopeFrames| < old(|scopeFrames|)
    {
      hide SlotAt, Owns, InUse, Kept, Nested, Grows, Replay, OpenScopes, SpareOk, InvocationsOk;
      ghost var m := Snap();
      PopCurrentFrame(n + 1);
      PoppedAbove(s, m, Snap(), n);
    }

    /** The last pop of an unwinding: the implicit frame itself. */
    method PopImplicit(ghost s: State, ghost n: nat)
      requires Valid() && UnwoundTo(s, Snap(), n) && n + 1 == |scopeFrames|
      modifies this
      ensures Valid() && Effect(s, Snap(), n, true) && scopeFrames == s.frames[..n]
    {
      hide SlotAt, Owns, InUse, Kept, Nested, Grows, Replay, OpenScopes, SpareOk, InvocationsOk;
      ghost var m := Snap();
      PopCurrentFrame(n);
      EffectBelow(s, m, n + 1, n, true);
      EffectTrans(s, m, Snap(), n, true, true);
      assert m.frames[..n] == m.frames[..n + 1][..n] && s.frames[..n + 1][..n] == s.frames[..n];
    }

    /** The unwinding of a callback: closes the scopes the guest left open, then the implicit one. */
    method UnwindCallback(cbScope: Handle, ghost n: nat)
      requires Valid() && 1 <= n < |scopeFrames| && cbScope != NULL && scopeFrames[n].escScope == cbScope
      modifies this
      ensures Valid() && Effect(old(Snap()), Snap(), n, true) && scopeFrames == old(scopeFrames)[..n]
    {
      hide SlotAt, Owns, InUse, Kept, Nested, Grows, Replay, OpenScopes, SpareOk, InvocationsOk;
      ghost var s := Snap();
      NothingDone(s, n + 1);
      while scopeFrames[|scopeFrames| - 1].escScope != cbScope
        invariant Valid() && UnwoundTo(s, Snap(), n)
        decreases |scopeFrames|
      {
        UnwoundFrame(s, Snap(), n);
        PopAbove(s, n);
      }
      UnwoundFrame(s, Snap(), n);
      PopImplicit(s, n);
    }

    /** The unwinding of a finalizer or interrupt, which never takes the root frame. */
    method UnwindPlain(scope: Handle, ghost n: nat)
      requires Valid() && 1 <= n < |scopeFrames| && scope != NULL && scopeFrames[n].scope == scope
      modifies this
      ensures Valid() && Effect(old(Snap()), Snap(), n, true) && scopeFrames == old(scopeFrames)[..n]
    {
      hide SlotAt, Owns, InUse, Kept, Nested, Grows, Replay, OpenScopes, SpareOk, InvocationsOk;
      ghost var s := Snap();
      NothingDone(s, n + 1);
      while |scopeFrames| > 1 && scopeFrames[|scopeFrames| - 1].scope != scope
        invariant Valid() && UnwoundTo(s, Snap(), n)
        decreases |scopeFrames|
      {
        UnwoundFrame(s, Snap(), n);
        PopAbove(s, n);
      }
      UnwoundFrame(s, Snap(), n);
      assert |scopeFrames| == n + 1;
      if scopeFrames != [] && scopeFrames[|scopeFrames| - 1].scope == scope {
        PopImplicit(s, n);
      }
    }

    /** Whether the frame of the implicit scope is still open. */
    method HasEscapable(cbScope: Handle) returns (found: bool)
      ensures found <==> exists k | 0 <= k < |scopeFrames| :: scopeFrames[k].escScope == cbScope
    {
      var i := |scopeFrames| - 1;
      while i >= 0
        invariant -1 <= i < |scopeFrames|
        invariant forall k | i < k < |scopeFrames| :: scopeFrames[k].escScope != cbScope
      {
        if scopeFrames[i].escScope == cbScope { return true; }
        i := i - 1;
      }
      found := false;
    }

    /** One thing the guest makes happen. */
    method Do(a: Action, ghost d: nat)
      requires Valid() && Barrier(scopeFrames, d)
      modifies this
      ensures Valid() && Effect(old(Snap()), Snap(), d, Quiet(a))
      decreases a
    {
      match a
      case Mint(env, value) => var _ := StoreValue(env, value, d);
      case Open(env, escapable, ok) => var _, _ := OpenHandleScope(env, escapable, ok, d);
      case Close(env, escapable, scopeId) => var _ := CloseHandleScope(env, escapable, scopeId, d);
      case Escape(env, scopeId, escapeeId, escaped) => var _, _ := EscapeHandle(env, scopeId, escapeeId, escaped, d);
      case Callback(entry, env, info, ok, body, resultId, escaped) =>
        var _, _ := GuestCallback(entry, env, info, ok, body, resultId, escaped, d);
      case FinalizerOrInterrupt(entry, env, ok, body) => GuestFinalizer(entry, env, ok, body, d);
    }

    method Run(body: seq<Action>, ghost d: nat)
      requires Valid() && Barrier(scopeFrames, d)
      modifies this
      ensures Valid() && Effect(old(Snap()), Snap(), d, NoEscape(body))
      decreases body, 0
    {
      ghost var s := Snap();
      NothingDone(s, d);
      for i := 0 to |body|
        invariant Valid() && Barrier(scopeFrames, d) && Effect(s, Snap(), d, NoEscape(body))
      {
        ghost var m := Snap();
        Do(body[i], d);
        EffectTrans(s, m, Snap(), d, NoEscape(body), Quiet(body[i]));
      }
    }

    /** Opens the implicit scope of a guest call and runs the guest, behind its frame if it opened. */
    method RunInside(env: Handle, escapable: bool, ok: bool, body: seq<Action>, ghost d: nat)
      returns (scope: Handle, ghost s1: State)
      requires Valid() && Barrier(scopeFrames, d)
      modifies this
      ensures Valid() && (scope != NULL <==> ok && env != NULL)
      ensures if scope == NULL then Effect(old(Snap()), Snap(), d, NoEscape(body))
              else InCall(old(Snap()), s1, Snap(), escapable, scope, NoEscape(body))
      decreases body, 1
    {
      hide SlotAt, Owns, InUse, Kept, Nested, Grows, Replay, OpenScopes, SpareOk, InvocationsOk;
      ghost var s0, n := Snap(), |Rooted(scopeFrames)|;
      scope := Enter(env, escapable, ok, false, |scopeFrames|);
      s1 := Snap();
      ghost var b := if scope == NULL then d else n + 1;
      assert Barrier(scopeFrames, b);
      Run(body, b);
      if scope != NULL {
        EnteredThenRan(s0, s1, Snap(), escapable, scope, NoEscape(body));
      }
    }

    /** generic_wasm_callback: runs the guest inside an implicit escapable scope, hands the result
        to the scope around it, and closes whatever the guest left open. */
    method GuestCallback(entry: Entry, env: Handle, info: Handle, ok: bool, body: seq<Action>, resultId: nat,
        escaped: Handle, ghost d: nat)
      returns (result: Handle, ghost ran: State)
      requires Valid() && Barrier(scopeFrames, d)
      modifies this
      ensures Valid() && Effect(old(Snap()), Snap(), d, NoEscape(body))
      ensures !entry.Calls() || info == NULL ==> Snap() == old(Snap()) && result == NULL
      ensures entry.Calls() && info != NULL && ok && env != NULL ==>
                CleanReturn(old(Snap()), Snap(), NoEscape(body))
      // `ran` is the state in which the guest came back
      ensures entry.Calls() && info != NULL && ok && env != NULL ==>
                && StateOk(ran) && |scopeFrames| < |ran.frames| && scopeFrames == ran.frames[..|scopeFrames|]
                && result == if Load(ran.table.slots, resultId) == NULL then NULL else escaped
      ensures entry.Calls() && info != NULL && !(ok && env != NULL) ==>
                && scopeFrames == ran.frames && View() == ran.table
                && result == if env == NULL then NULL else Load(ran.table.slots, resultId)
      decreases body, 3
    {
      ran := Snap();
      NothingDone(ran, d);
      if !entry.bound || !entry.known { return NULL, ran; }
      var context := entry.admitted && entry.context;
      if !context || !entry.registered { return NULL, ran; }
      result, ran := InvokeCallback(env, info, ok, body, resultId, escaped, d);
    }

    /** The rest of it, for a registered callback whose call was admitted. */
    method InvokeCallback(env: Handle, info: Handle, ok: bool, body: seq<Action>, resultId: nat, escaped: Handle,
        ghost d: nat)
      returns (result: Handle, ghost ran: State)
      requires Valid() && Barrier(scopeFrames, d)
      modifies this
      ensures Valid() && Effect(old(Snap()), Snap(), d, NoEscape(body))
      ensures info == NULL ==> Snap() == old(Snap()) && result == NULL
      ensures info != NULL && ok && env != NULL ==> CleanReturn(old(Snap()), Snap(), NoEscape(body))
      ensures info != NULL && ok && env != NULL ==>
                && StateOk(ran) && |scopeFrames| < |ran.frames| && scopeFrames == ran.frames[..|scopeFrames|]
                && result == if Load(ran.table.slots, resultId) == NULL then NULL else escaped
      ensures info != NULL && !(ok && env != NULL) ==>
                && scopeFrames == ran.frames && View() == ran.table
                && result == if env == NULL then NULL else Load(ran.table.slots, resultId)
      decreases body, 2
    {
      hide SlotAt, Owns, InUse, Kept, Nested, Grows, Replay, OpenScopes, SpareOk, InvocationsOk;
      ghost var s0 := Snap();
      NothingDone(s0, d);
      ran := s0;
      var id := RegisterInvocation(info, d);
      if id == 0 { return NULL, s0; }
      ghost var r := Snap();
      var cbScope, s1 := RunInside(env, true, ok, body, d);
      ghost var s2 := Snap();
      ran := s2;
      ghost var _ := EraseInvocation(id);
      assert s2.invocations == r.invocations == s0.invocations + [Invocation(id, info)];
      assert s2.invocations[|s0.invocations|].id == id;
      assert callbackInvocations == s0.invocations;
      ghost var e := Snap();
      result := LoadValue(env, resultId);
      if cbScope == NULL {
        CallbackInline(s0, r, s2, e, d, NoEscape(body));
      } else {
        result := HandOver(cbScope, result, escaped, |Rooted(s0.frames)|);
        CallbackReturns(s0, r, s1, s2, e, Snap(), cbScope, d, NoEscape(body));
      }
    }

    /** The end of a callback: hands the result to the scope around the implicit one and unwinds. */
    method HandOver(cbScope: Handle, loaded: Handle, escaped: Handle, ghost n: nat) returns (result: Handle)
      requires Valid() && 1 <= n < |scopeFrames| && cbScope != NULL && scopeFrames[n].escScope == cbScope
      modifies this
      ensures Valid() && Effect(old(Snap()), Snap(), n, true) && scopeFrames == old(scopeFrames)[..n]
      ensures result == if loaded == NULL then NULL else escaped
    {
      hide SlotAt, Owns, InUse, Kept, Nested, Grows, Replay, OpenScopes, SpareOk, InvocationsOk;
      result := loaded;
      var found := HasEscapable(cbScope);
      if found {
        if result != NULL { result := escaped; }
        UnwindCallback(cbScope, n);
      }
    }

    /** GuestFinalizerTrampoline and WasmInterruptCallback: runs the guest inside an implicit
        plain scope. */
    method GuestFinalizer(entry: Entry, env: Handle, ok: bool, body: seq<Action>, ghost d: nat)
      requires Valid() && Barrier(scopeFrames, d)
      modifies this
      ensures Valid() && Effect(old(Snap()), Snap(), d, NoEscape(body))
      ensures !entry.Enters() ==> Snap() == old(Snap())
      ensures entry.Enters() && ok && env != NULL ==> CleanReturn(old(Snap()), Snap(), NoEscape(body))
      decreases body, 2
    {
      ghost var s0 := Snap();
      NothingDone(s0, d);
      if !entry.bound || !(entry.known && entry.admitted && entry.context) { return; }
      var scope, s1 := RunInside(env, false, ok, body, d);
      ghost var s2 := Snap();
      if scope != NULL {
        UnwindPlain(scope, |Rooted(s0.frames)|);
        GuestCallReturns(s0, s1, s2, Snap(), false, scope, d, NoEscape(body));
      }
    }

    method PopAll()
      requires Valid()
      modifies this
      ensures Valid() && scopeFrames == [] && old(trace) <= trace
    {
      while scopeFrames != []
        invariant Valid() && old(trace) <= trace
        decreases |scopeFrames|
      {
        PopCurrentFrame(0);
      }
    }

    /** The drain of DisposeBridgeState: frees every value and closes every scope, so that over
        the agent's whole life the engine saw a balanced word. */
    method Drain()
      requires Valid()
      modifies this
      ensures Valid() && scopeFrames == [] && valueSlots == [] && valueFreeSlots == [] && liveValueCount == 0
      ensures old(trace) <= trace && Balanced(trace)
    {
      PopAll();
      ghost var s := Snap();
      Drained(s);
      valueSlots, valueFreeSlots, liveValueCount, nextScopeId, nextSerial := [], [], 0, 1, 1;
      callbackInvocations, nextInvocationId := [], 1;
      frees, minted := [], map[];
      assert Snap() == Reset(s);
    }
  }

  ghost function Reset(s: State): State {
    s.(table := TableOf([], [], 0, [], map[]), nextId := 1, nextSerial := 1, invocations := [], nextInvocation := 1)
  }

  /** With no frame left no value is live, no scope is open, and clearing the table is harmless. */
  lemma Drained(s: State)
    requires StateOk(s) && s.frames == []
    ensures StateOk(Reset(s)) && Balanced(s.trace) && s.table.live == 0
  {
    NothingInUse(s.table, s.limit);
    BalancedIsReplay(s.trace);
    forall i: nat ensures SlotAt(Reset(s).table, [], [], i) {}
  }

  lemma NothingInUse(t: Table, limit: nat)
    requires TableOk(t, [], [], limit)
    ensures t.live == 0
  {
    forall i | 0 <= i < |t.slots| ensures !t.slots[i].inUse {
      assert SlotAt(t, [], [], i);
    }
    NoneInUse(t.slots);
  }

  lemma {:induction false} NoneInUse(slots: seq<Slot>)
    requires forall i | 0 <= i < |slots| :: !slots[i].inUse
    ensures InUse(slots) == 0
  {
    if slots != [] { NoneInUse(slots[..|slots| - 1]); }
  }
}
