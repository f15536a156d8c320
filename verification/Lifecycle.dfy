/**
 * The process-wide handle lifecycle: call leases, the logical-retirement gate,
 * reserve/publish/release, reopen, and the generation-guarded terminal close.
 *
 * The model is a transition system over an unbounded set of threads. One step is
 * one critical section of the process mutex, or one access a thread makes to the
 * handle it pinned; a condition wait is a step that changes nothing and can be
 * taken again.
 */
module Lifecycle {
  import opened Prelude

  type Thread = nat

  /** A C pointer value. Zero is NULL; an address may be allocated again after it was freed. */
  type Address = nat

  const NULL: Address := 0
  const UINT64_MAX: nat := 0xFFFF_FFFF_FFFF_FFFF

  datatype GlobalState = Unused | Active | Spent

  /** The fields of a resident handle that take part in the lifecycle. */
  datatype Handle = Handle(
    generation: nat,
    logicalActive: bool,
    streaming: bool,
    poisoned: bool,
    started: bool,
    lock: Option<Thread>)

  /** Where a thread stands between two critical sections. */
  datatype Phase =
    | Idle
    | Reserving                                // acquire returned 0, nothing allocated yet
    | Building(h: Address)                     // handle allocated, not published
    | Releasing(spent: bool)                   // handle freed, slot not released yet
    | Reopening(h: Address)                    // acquire returned 1 with the handle mutex held
    | Draining(h: Address)                     // gate installed, waiting for open calls
    | Retiring(h: Address)                     // begin_handle_retirement returned 0
    | Closing(h: Address, promoted: bool)      // claim succeeded
    | Drained(h: Address, promoted: bool)      // wait_for_active_handle_calls returned
    | Finishing                                // promoted detach after the free

  /** `leases` and `phase` record which thread holds what; `activeCalls` is the C counter. */
  datatype State = State(
    state: GlobalState,
    instance: Option<Address>,
    activeCalls: nat,
    retirement: bool,
    owned: map<Thread, Address>,
    heap: map<Address, Handle>,
    leases: multiset<(Thread, Address)>,
    phase: map<Thread, Phase>)

  function PhaseOf(s: State, t: Thread): Phase {
    if t in s.phase then s.phase[t] else Idle
  }

  predicate Current(s: State, h: Address) {
    s.state == Active && s.instance == Some(h) && h != NULL
  }

  predicate Owns(s: State, t: Thread, h: Address) {
    t in s.owned && s.owned[t] == h
  }

  predicate Unlocked(s: State, h: Address) {
    h in s.heap ==> s.heap[h].lock == None
  }

  predicate HoldsLock(s: State, t: Thread, h: Address) {
    h in s.heap && s.heap[h].lock == Some(t)
  }

  predicate Streaming(s: State, h: Address) {
    h in s.heap && s.heap[h].streaming
  }

  // ---------------------------------------------------------------------------
  // Steps
  // ---------------------------------------------------------------------------

  datatype RetireResult = RetireNull | RetireStale | RetireNested | RetireWait | RetireBusy | RetireInstalled
  datatype AcquireResult = AcquireWait | AcquireReserved | AcquireReopen(h: Address) | AcquireRefused
  datatype ClaimBy = ByGeneration(g: nat) | ByHandle(h: Address)
  datatype ClaimResult = ClaimWait | ClaimSpent | ClaimStale | ClaimBusy | Claimed(h: Address)

  datatype Action =
    | BeginCall(h: Address, ok: bool)
    | TryBeginCall(h: Address, ok: bool)
    | EndCall(h: Address)
    | Retire(h: Address, r: RetireResult)
    | RetireReady
    | RetireEnd
    | Acquire(a: AcquireResult)
    | Allocate(h: Address)
    | StartBackend
    | Activate(g: nat)
    | Publish
    | AbandonBuild
    | Release
    | ReopenCommit(g: nat)
    | ReopenReject
    | Claim(who: ClaimBy, c: ClaimResult)
    | CloseDrained
    | FreeHandle
    | ReadGeneration(h: Address, g: nat)
    | LockHandle(h: Address)
    | UnlockHandle(h: Address)
    | SetStreaming(h: Address, on: bool)
    | Poison(h: Address)
    | Detach

  predicate CallAdmitted(s: State, t: Thread, h: Address) {
    Current(s, h) && (s.retirement ==> Owns(s, t, h))
  }

  predicate BeginCallStep(s: State, t: Thread, h: Address, ok: bool, s': State) {
    && ok == CallAdmitted(s, t, h)
    && s' == if ok then s.(activeCalls := s.activeCalls + 1, leases := s.leases + multiset{(t, h)}) else s
  }

  predicate TryBeginCallStep(s: State, t: Thread, h: Address, ok: bool, s': State) {
    && ok == (Current(s, h) && !s.retirement)
    && s' == if ok then s.(activeCalls := s.activeCalls + 1, leases := s.leases + multiset{(t, h)}) else s
  }

  predicate EndCallStep(s: State, t: Thread, h: Address, s': State) {
    && (t, h) in s.leases
    && !HoldsLock(s, t, h)
    && s' == s.(activeCalls := if s.activeCalls > 0 then s.activeCalls - 1 else 0,
                leases := s.leases - multiset{(t, h)})
  }

  function RetireOutcome(s: State, t: Thread, h: Address): RetireResult {
    if h == NULL then RetireNull
    else if !Current(s, h) then RetireStale
    else if s.retirement then (if Owns(s, t, h) then RetireNested else RetireWait)
    else if !Unlocked(s, h) then RetireWait
    else if Streaming(s, h) then RetireBusy
    else RetireInstalled
  }

  predicate RetireStep(s: State, t: Thread, h: Address, r: RetireResult, s': State) {
    && PhaseOf(s, t) == Idle
    && r == RetireOutcome(s, t, h)
    && s' == if r == RetireInstalled
             then s.(retirement := true, owned := s.owned[t := h], phase := s.phase[t := Draining(h)])
             else s
  }

  predicate RetireReadyStep(s: State, t: Thread, s': State) {
    && PhaseOf(s, t).Draining?
    && s.activeCalls == 0
    && s' == s.(phase := s.phase[t := Retiring(PhaseOf(s, t).h)])
  }

  /** end_handle_retirement clears the flag without asking who owns it. */
  ghost predicate RetireEndStep(s: State, t: Thread, s': State) {
    && ((PhaseOf(s, t).Retiring? && !HoldsLock(s, t, PhaseOf(s, t).h)) || PhaseOf(s, t).Finishing?)
    && (forall h :: (t, h) !in s.leases)
    && s' == s.(retirement := false, owned := s.owned - {t}, phase := s.phase[t := Idle])
  }

  function AcquireOutcome(s: State): AcquireResult {
    if s.retirement then AcquireWait
    else if s.state == Active then
      match s.instance
      case None => AcquireRefused
      case Some(h) => if Unlocked(s, h) then AcquireReopen(h) else AcquireWait
    else if s.state == Spent then AcquireRefused
    else AcquireReserved
  }

  predicate AcquireStep(s: State, t: Thread, a: AcquireResult, s': State) {
    && PhaseOf(s, t) == Idle
    && a == AcquireOutcome(s)
    && match a
       case AcquireReserved => s' == s.(state := Active, phase := s.phase[t := Reserving])
       case AcquireReopen(h) =>
         h in s.heap && s' == s.(heap := s.heap[h := s.heap[h].(lock := Some(t))], phase := s.phase[t := Reopening(h)])
       case _ => s' == s
  }

  predicate AllocateStep(s: State, t: Thread, h: Address, s': State) {
    && PhaseOf(s, t) == Reserving
    && h != NULL && h !in s.heap
    && s' == s.(heap := s.heap[h := Handle(0, false, false, false, false, None)], phase := s.phase[t := Building(h)])
  }

  predicate StartBackendStep(s: State, t: Thread, s': State) {
    && PhaseOf(s, t).Building? && PhaseOf(s, t).h in s.heap
    && !s.heap[PhaseOf(s, t).h].started
    && var h := PhaseOf(s, t).h;
       s' == s.(heap := s.heap[h := s.heap[h].(started := true)])
  }

  /** Init advances the generation of its own handle before the registry can see it. */
  predicate ActivateStep(s: State, t: Thread, g: nat, s': State) {
    && PhaseOf(s, t).Building? && PhaseOf(s, t).h in s.heap
    && var h := PhaseOf(s, t).h;
       && s.heap[h].started && !s.heap[h].logicalActive
       && s.heap[h].generation < UINT64_MAX
       && g == s.heap[h].generation + 1
       && s' == s.(heap := s.heap[h := s.heap[h].(generation := g, logicalActive := true)])
  }

  predicate PublishStep(s: State, t: Thread, s': State) {
    && PhaseOf(s, t).Building? && PhaseOf(s, t).h in s.heap
    && s.heap[PhaseOf(s, t).h].logicalActive && !HoldsLock(s, t, PhaseOf(s, t).h)
    && s' == s.(instance := if s.state == Active then Some(PhaseOf(s, t).h) else s.instance,
                phase := s.phase[t := Idle])
  }

  /** A failed init frees its unpublished handle, or never allocated one. */
  predicate AbandonBuildStep(s: State, t: Thread, s': State) {
    || (PhaseOf(s, t) == Reserving && s' == s.(phase := s.phase[t := Releasing(false)]))
    || (&& PhaseOf(s, t).Building? && PhaseOf(s, t).h in s.heap
        && !s.heap[PhaseOf(s, t).h].logicalActive
        && s.activeCalls == 0
        && s' == s.(heap := s.heap - {PhaseOf(s, t).h},
                    phase := s.phase[t := Releasing(s.heap[PhaseOf(s, t).h].started)]))
  }

  predicate ReleaseStep(s: State, t: Thread, s': State) {
    && PhaseOf(s, t).Releasing?
    && s' == s.(state := if PhaseOf(s, t).spent then Spent else Unused,
                instance := None, retirement := false, phase := s.phase[t := Idle])
  }

  predicate ReopenCommitStep(s: State, t: Thread, g: nat, s': State) {
    && PhaseOf(s, t).Reopening? && PhaseOf(s, t).h in s.heap
    && var h := PhaseOf(s, t).h;
       && !s.heap[h].logicalActive
       && s.heap[h].generation < UINT64_MAX
       && g == s.heap[h].generation + 1
       && s' == s.(heap := s.heap[h := s.heap[h].(generation := g, logicalActive := true, lock := None)],
                   phase := s.phase[t := Idle])
  }

  predicate ReopenRejectStep(s: State, t: Thread, s': State) {
    && PhaseOf(s, t).Reopening? && PhaseOf(s, t).h in s.heap
    && var h := PhaseOf(s, t).h;
       s' == s.(heap := s.heap[h := s.heap[h].(lock := None)], phase := s.phase[t := Idle])
  }

  predicate OwnsClose(s: State, who: ClaimBy, h: Address) {
    match who
    case ByGeneration(g) => h in s.heap && g == s.heap[h].generation
    case ByHandle(x) => x == NULL || x == h
  }

  function ClaimOutcome(s: State, t: Thread, who: ClaimBy): ClaimResult {
    if s.retirement && !(s.instance.Some? && Owns(s, t, s.instance.value)) then ClaimWait
    else if s.state == Spent then ClaimSpent
    else if s.state != Active || s.instance == None then ClaimStale
    else if !Unlocked(s, s.instance.value) then ClaimWait
    else if !OwnsClose(s, who, s.instance.value) then ClaimStale
    else if Streaming(s, s.instance.value) then ClaimBusy
    else Claimed(s.instance.value)
  }

  predicate ClaimStep(s: State, t: Thread, who: ClaimBy, c: ClaimResult, s': State) {
    && (PhaseOf(s, t) == Idle ||
        (PhaseOf(s, t).Retiring? && PhaseOf(s, t).h in s.heap && s.heap[PhaseOf(s, t).h].poisoned &&
         who == ByHandle(PhaseOf(s, t).h) && !HoldsLock(s, t, PhaseOf(s, t).h)))
    && c == ClaimOutcome(s, t, who)
    && s' == match c
             case Claimed(h) =>
               s.(instance := None, state := Spent, retirement := false,
                  owned := if s.retirement then s.owned - {t} else s.owned,
                  phase := s.phase[t := Closing(h, PhaseOf(s, t).Retiring?)])
             case _ => s
  }

  predicate CloseDrainedStep(s: State, t: Thread, s': State) {
    && PhaseOf(s, t).Closing?
    && !HoldsLock(s, t, PhaseOf(s, t).h)
    && s.activeCalls == 0
    && s' == s.(phase := s.phase[t := Drained(PhaseOf(s, t).h, PhaseOf(s, t).promoted)])
  }

  predicate FreeHandleStep(s: State, t: Thread, s': State) {
    && PhaseOf(s, t).Drained?
    && s' == s.(heap := s.heap - {PhaseOf(s, t).h},
                phase := s.phase[t := if PhaseOf(s, t).promoted then Finishing else Idle])
  }

  predicate ReadGenerationStep(s: State, h: Address, g: nat, s': State) {
    && s' == s
    && Unlocked(s, h)
    && g == if Current(s, h) && h in s.heap then s.heap[h].generation else 0
  }

  /** The right to use a handle: an open call on it, or being its reopener, builder, retirer or closer. */
  predicate MayTouch(s: State, t: Thread, h: Address) {
    || (t, h) in s.leases
    || PhaseOf(s, t) == Building(h)
    || PhaseOf(s, t) == Reopening(h)
    || PhaseOf(s, t) == Retiring(h)
    || PhaseOf(s, t) == Closing(h, true) || PhaseOf(s, t) == Closing(h, false)
  }

  predicate LockHandleStep(s: State, t: Thread, h: Address, s': State) {
    && MayTouch(s, t, h) && h in s.heap && s.heap[h].lock == None
    && s' == s.(heap := s.heap[h := s.heap[h].(lock := Some(t))])
  }

  predicate UnlockHandleStep(s: State, t: Thread, h: Address, s': State) {
    && HoldsLock(s, t, h) && !PhaseOf(s, t).Reopening?
    && s' == s.(heap := s.heap[h := s.heap[h].(lock := None)])
  }

  predicate SetStreamingStep(s: State, t: Thread, h: Address, on: bool, s': State) {
    && HoldsLock(s, t, h) && (t, h) in s.leases
    && s' == s.(heap := s.heap[h := s.heap[h].(streaming := on)])
  }

  predicate PoisonStep(s: State, t: Thread, h: Address, s': State) {
    && (t, h) in s.leases && h in s.heap
    && s' == s.(heap := s.heap[h := s.heap[h].(poisoned := true)])
  }

  predicate DetachStep(s: State, t: Thread, s': State) {
    && PhaseOf(s, t).Retiring? && HoldsLock(s, t, PhaseOf(s, t).h)
    && var h := PhaseOf(s, t).h;
       && !s.heap[h].poisoned && !s.heap[h].streaming
       && s' == s.(heap := s.heap[h := s.heap[h].(logicalActive := false)])
  }

  ghost predicate Step(s: State, t: Thread, a: Action, s': State) {
    match a
    case BeginCall(h, ok) => BeginCallStep(s, t, h, ok, s')
    case TryBeginCall(h, ok) => TryBeginCallStep(s, t, h, ok, s')
    case EndCall(h) => EndCallStep(s, t, h, s')
    case Retire(h, r) => RetireStep(s, t, h, r, s')
    case RetireReady => RetireReadyStep(s, t, s')
    case RetireEnd => RetireEndStep(s, t, s')
    case Acquire(r) => AcquireStep(s, t, r, s')
    case Allocate(h) => AllocateStep(s, t, h, s')
    case StartBackend => StartBackendStep(s, t, s')
    case Activate(g) => ActivateStep(s, t, g, s')
    case Publish => PublishStep(s, t, s')
    case AbandonBuild => AbandonBuildStep(s, t, s')
    case Release => ReleaseStep(s, t, s')
    case ReopenCommit(g) => ReopenCommitStep(s, t, g, s')
    case ReopenReject => ReopenRejectStep(s, t, s')
    case Claim(who, c) => ClaimStep(s, t, who, c, s')
    case CloseDrained => CloseDrainedStep(s, t, s')
    case FreeHandle => FreeHandleStep(s, t, s')
    case ReadGeneration(h, g) => ReadGenerationStep(s, h, g, s')
    case LockHandle(h) => LockHandleStep(s, t, h, s')
    case UnlockHandle(h) => UnlockHandleStep(s, t, h, s')
    case SetStreaming(h, on) => SetStreamingStep(s, t, h, on, s')
    case Poison(h) => PoisonStep(s, t, h, s')
    case Detach => DetachStep(s, t, s')
  }

  const INITIAL: State := State(Unused, None, 0, false, map[], map[], multiset{}, map[])

  // ---------------------------------------------------------------------------
  // The inductive invariant
  // ---------------------------------------------------------------------------

  predicate InInit(p: Phase) { p.Reserving? || p.Building? || p.Releasing? }
  predicate InRetirement(p: Phase) { p.Draining? || p.Retiring? }
  predicate HasClaimed(p: Phase) { p.Closing? || p.Drained? || p.Finishing? }

  /** The C globals agree with one another and with the leases. */
  predicate RegistryOk(s: State) {
    && s.activeCalls == |s.leases|
    && NULL !in s.heap
    && (s.state == Unused ==> s.leases == multiset{})
    && (s.instance.Some? ==> s.state == Active && s.instance.value in s.heap &&
                             s.heap[s.instance.value].generation >= 1)
    && (s.retirement ==> s.instance.Some? && s.owned != map[])
  }

  /** What the phase of a thread says about the registry, the heap and the leases. */
  ghost predicate ThreadOk(s: State, t: Thread) {
    match PhaseOf(s, t)
    case Idle => true
    case Reserving => InitAlone(s)
    case Building(h) =>
      InitAlone(s) && h in s.heap && s.heap[h].generation == if s.heap[h].logicalActive then 1 else 0
    case Releasing(_) => InitAlone(s)
    case Reopening(h) => s.instance == Some(h) && HoldsLock(s, t, h) && !s.retirement
    case Draining(h) => s.retirement && s.instance == Some(h) && Owns(s, t, h)
    case Retiring(h) => s.retirement && s.instance == Some(h) && Owns(s, t, h) && OnlyLeases(s, t)
    case Closing(h, _) => s.state == Spent && h in s.heap
    case Drained(h, _) => s.state == Spent && h in s.heap && s.leases == multiset{} && s.heap[h].lock == None
    case Finishing => s.state == Spent
  }

  /** A thread inside init has the reserved slot to itself. */
  predicate InitAlone(s: State) {
    s.state == Active && s.instance == None && s.leases == multiset{}
  }

  ghost predicate OnlyLeases(s: State, t: Thread) {
    forall l :: l in s.leases ==> l.0 == t
  }

  /** At most one thread is inside init, at most one owns a retirement, at most one claimed. */
  ghost predicate RolesUnique(s: State) {
    && (forall t, u :: InInit(PhaseOf(s, t)) && InInit(PhaseOf(s, u)) ==> t == u)
    && (forall t, u :: HasClaimed(PhaseOf(s, t)) && HasClaimed(PhaseOf(s, u)) ==> t == u)
    && (forall t :: t in s.owned ==> InRetirement(PhaseOf(s, t)))
    && (forall t, u :: t in s.owned && u in s.owned ==> t == u)
  }

  /** Every lease pins an allocated handle that was published. */
  ghost predicate LeasesOk(s: State) {
    forall l :: l in s.leases ==> l.1 in s.heap && (s.instance == Some(l.1) || s.state == Spent)
  }

  ghost predicate LocksOk(s: State) {
    forall h :: h in s.heap && s.heap[h].lock.Some? ==> MayTouch(s, s.heap[h].lock.value, h)
  }

  ghost predicate Inv(s: State) {
    && RegistryOk(s) && (forall t :: ThreadOk(s, t)) && RolesUnique(s) && LeasesOk(s) && LocksOk(s)
  }

  lemma InstanceLives(s: State)
    requires Inv(s) && s.instance.Some?
    ensures s.instance.value in s.heap && s.instance.value != NULL && s.state == Active
  {
  }

  /** Quantified phase facts carry over: a step moves at most the stepping thread. */
  lemma PhaseFrame(s: State, t: Thread, s': State)
    requires s'.phase == s.phase || (t in s'.phase && s'.phase == s.phase[t := s'.phase[t]])
    ensures forall u :: PhaseOf(s', u) == if u == t then PhaseOf(s', t) else PhaseOf(s, u)
  {
  }

  lemma BeginCallKeeps(s: State, t: Thread, h: Address, ok: bool, s': State)
    requires Inv(s) && BeginCallStep(s, t, h, ok, s')
    ensures Inv(s')
  {
    PhaseFrame(s, t, s');
    assert ThreadOk(s, t);
    forall u ensures ThreadOk(s', u) { assert ThreadOk(s, u); }
  }

  lemma TryBeginCallKeeps(s: State, t: Thread, h: Address, ok: bool, s': State)
    requires Inv(s) && TryBeginCallStep(s, t, h, ok, s')
    ensures Inv(s')
  {
    PhaseFrame(s, t, s');
    assert ThreadOk(s, t);
    forall u ensures ThreadOk(s', u) { assert ThreadOk(s, u); }
  }

  lemma EndCallKeeps(s: State, t: Thread, h: Address, s': State)
    requires Inv(s) && EndCallStep(s, t, h, s')
    ensures Inv(s')
  {
    PhaseFrame(s, t, s');
    assert ThreadOk(s, t);
    forall u ensures ThreadOk(s', u) { assert ThreadOk(s, u); }
  }

  lemma InstallKeeps(s: State, t: Thread, h: Address, s': State)
    requires Inv(s) && RetireStep(s, t, h, RetireInstalled, s')
    ensures Inv(s')
  {
    PhaseFrame(s, t, s');
    forall u ensures u in s.owned ==> s.retirement { assert ThreadOk(s, u); }
    assert t in s'.owned;
    assert ThreadOk(s, t);
    forall u ensures ThreadOk(s', u) { assert ThreadOk(s, u); }
  }

  lemma RetireKeeps(s: State, t: Thread, h: Address, r: RetireResult, s': State)
    requires Inv(s) && RetireStep(s, t, h, r, s')
    ensures Inv(s')
  {
    hide Inv;
    if r == RetireInstalled { InstallKeeps(s, t, h, s'); }
  }

  lemma RetireReadyKeeps(s: State, t: Thread, s': State)
    requires Inv(s) && RetireReadyStep(s, t, s')
    ensures Inv(s')
  {
    PhaseFrame(s, t, s');
    assert ThreadOk(s, t);
    forall u ensures ThreadOk(s', u) { assert ThreadOk(s, u); }
  }

  lemma RetireEndKeeps(s: State, t: Thread, s': State)
    requires Inv(s) && RetireEndStep(s, t, s')
    ensures Inv(s')
  {
    PhaseFrame(s, t, s');
    assert ThreadOk(s, t);
    forall u ensures ThreadOk(s', u) { assert ThreadOk(s, u); }
  }

  lemma ReopenKeeps(s: State, t: Thread, h: Address, s': State)
    requires Inv(s) && AcquireStep(s, t, AcquireReopen(h), s')
    ensures Inv(s')
  {
    PhaseFrame(s, t, s');
    assert ThreadOk(s, t);
    forall u ensures ThreadOk(s', u) { assert ThreadOk(s, u); }
  }

  lemma AcquireKeeps(s: State, t: Thread, a: AcquireResult, s': State)
    requires Inv(s) && AcquireStep(s, t, a, s')
    ensures Inv(s')
  {
    hide Inv;
    match a
    case AcquireReserved => ReserveKeeps(s, t, s');
    case AcquireReopen(h) => ReopenKeeps(s, t, h, s');
    case _ =>
  }

  lemma ReserveKeeps(s: State, t: Thread, s': State)
    requires Inv(s) && AcquireStep(s, t, AcquireReserved, s')
    ensures Inv(s')
  {
    PhaseFrame(s, t, s');
    forall u ensures !InInit(PhaseOf(s, u)) { assert ThreadOk(s, u); }
    forall u ensures ThreadOk(s', u) { assert ThreadOk(s, u); }
  }

  lemma AllocateKeeps(s: State, t: Thread, h: Address, s': State)
    requires Inv(s) && AllocateStep(s, t, h, s')
    ensures Inv(s')
  {
    PhaseFrame(s, t, s');
    assert ThreadOk(s, t);
    forall u ensures ThreadOk(s', u) { assert ThreadOk(s, u); }
  }

  lemma StartBackendKeeps(s: State, t: Thread, s': State)
    requires Inv(s) && StartBackendStep(s, t, s')
    ensures Inv(s')
  {
    PhaseFrame(s, t, s');
    assert ThreadOk(s, t);
    forall u ensures ThreadOk(s', u) { assert ThreadOk(s, u); }
  }

  lemma ActivateKeeps(s: State, t: Thread, g: nat, s': State)
    requires Inv(s) && ActivateStep(s, t, g, s')
    ensures Inv(s')
  {
    PhaseFrame(s, t, s');
    assert ThreadOk(s, t);
    forall u ensures ThreadOk(s', u) { assert ThreadOk(s, u); }
  }

  lemma PublishKeeps(s: State, t: Thread, s': State)
    requires Inv(s) && PublishStep(s, t, s')
    ensures Inv(s')
  {
    PhaseFrame(s, t, s');
    assert ThreadOk(s, t);
    forall u ensures ThreadOk(s', u) { assert ThreadOk(s, u); }
  }

  lemma AbandonBuildKeeps(s: State, t: Thread, s': State)
    requires Inv(s) && AbandonBuildStep(s, t, s')
    ensures Inv(s')
  {
    PhaseFrame(s, t, s');
    assert ThreadOk(s, t);
    forall u ensures ThreadOk(s', u) { assert ThreadOk(s, u); }
  }

  lemma ReleaseKeeps(s: State, t: Thread, s': State)
    requires Inv(s) && ReleaseStep(s, t, s')
    ensures Inv(s')
  {
    PhaseFrame(s, t, s');
    assert ThreadOk(s, t);
    forall u ensures ThreadOk(s', u) { assert ThreadOk(s, u); }
  }

  lemma ReopenCommitKeeps(s: State, t: Thread, g: nat, s': State)
    requires Inv(s) && ReopenCommitStep(s, t, g, s')
    ensures Inv(s')
  {
    PhaseFrame(s, t, s');
    assert ThreadOk(s, t);
    forall u ensures ThreadOk(s', u) { assert ThreadOk(s, u); }
  }

  lemma ReopenRejectKeeps(s: State, t: Thread, s': State)
    requires Inv(s) && ReopenRejectStep(s, t, s')
    ensures Inv(s')
  {
    PhaseFrame(s, t, s');
    assert ThreadOk(s, t);
    forall u ensures ThreadOk(s', u) { assert ThreadOk(s, u); }
  }

  lemma ClaimedKeeps(s: State, t: Thread, who: ClaimBy, h: Address, s': State)
    requires Inv(s) && ClaimStep(s, t, who, Claimed(h), s')
    ensures Inv(s')
  {
    PhaseFrame(s, t, s');
    forall u ensures HasClaimed(PhaseOf(s, u)) ==> s.state == Spent { assert ThreadOk(s, u); }
    assert ThreadOk(s, t);
    forall u ensures ThreadOk(s', u) { assert ThreadOk(s, u); }
  }

  lemma ClaimKeeps(s: State, t: Thread, who: ClaimBy, c: ClaimResult, s': State)
    requires Inv(s) && ClaimStep(s, t, who, c, s')
    ensures Inv(s')
  {
    hide Inv;
    if c.Claimed? { ClaimedKeeps(s, t, who, c.h, s'); }
  }

  lemma CloseDrainedKeeps(s: State, t: Thread, s': State)
    requires Inv(s) && CloseDrainedStep(s, t, s')
    ensures Inv(s')
  {
    PhaseFrame(s, t, s');
    assert ThreadOk(s, t);
    var h := PhaseOf(s, t).h;
    forall v: Thread ensures s.heap[h].lock != Some(v) { assert ThreadOk(s, v); }
    assert s.heap[h].lock == None;
    forall u ensures ThreadOk(s', u) { assert ThreadOk(s, u); }
  }

  lemma FreeHandleKeeps(s: State, t: Thread, s': State)
    requires Inv(s) && FreeHandleStep(s, t, s')
    ensures Inv(s')
  {
    PhaseFrame(s, t, s');
    assert ThreadOk(s, t);
    forall u ensures ThreadOk(s', u) { assert ThreadOk(s, u); }
  }

  lemma LockHandleKeeps(s: State, t: Thread, h: Address, s': State)
    requires Inv(s) && LockHandleStep(s, t, h, s')
    ensures Inv(s')
  {
    PhaseFrame(s, t, s');
    assert ThreadOk(s, t);
    forall u ensures ThreadOk(s', u) { assert ThreadOk(s, u); }
  }

  lemma UnlockHandleKeeps(s: State, t: Thread, h: Address, s': State)
    requires Inv(s) && UnlockHandleStep(s, t, h, s')
    ensures Inv(s')
  {
    PhaseFrame(s, t, s');
    assert ThreadOk(s, t);
    forall u ensures ThreadOk(s', u) { assert ThreadOk(s, u); }
  }

  lemma SetStreamingKeeps(s: State, t: Thread, h: Address, on: bool, s': State)
    requires Inv(s) && SetStreamingStep(s, t, h, on, s')
    ensures Inv(s')
  {
    PhaseFrame(s, t, s');
    assert ThreadOk(s, t);
    forall u ensures ThreadOk(s', u) { assert ThreadOk(s, u); }
  }

  lemma PoisonKeeps(s: State, t: Thread, h: Address, s': State)
    requires Inv(s) && PoisonStep(s, t, h, s')
    ensures Inv(s')
  {
    PhaseFrame(s, t, s');
    assert ThreadOk(s, t);
    forall u ensures ThreadOk(s', u) { assert ThreadOk(s, u); }
  }

  lemma DetachKeeps(s: State, t: Thread, s': State)
    requires Inv(s) && DetachStep(s, t, s')
    ensures Inv(s')
  {
    PhaseFrame(s, t, s');
    assert ThreadOk(s, t);
    forall u ensures ThreadOk(s', u) { assert ThreadOk(s, u); }
  }

  /** Every step of every thread keeps the invariant. */
  lemma StepKeeps(s: State, t: Thread, a: Action, s': State)
    requires Inv(s) && Step(s, t, a, s')
    ensures Inv(s')
  {
    hide Inv, BeginCallStep, TryBeginCallStep, EndCallStep, RetireStep, RetireReadyStep, RetireEndStep,
      AcquireStep, AllocateStep, StartBackendStep, ActivateStep, PublishStep, AbandonBuildStep, ReleaseStep,
      ReopenCommitStep, ReopenRejectStep, ClaimStep, CloseDrainedStep, FreeHandleStep, LockHandleStep,
      UnlockHandleStep, SetStreamingStep, PoisonStep, DetachStep;
    match a
    case BeginCall(h, ok) => BeginCallKeeps(s, t, h, ok, s');
    case TryBeginCall(h, ok) => TryBeginCallKeeps(s, t, h, ok, s');
    case EndCall(h) => EndCallKeeps(s, t, h, s');
    case Retire(h, r) => RetireKeeps(s, t, h, r, s');
    case RetireReady => RetireReadyKeeps(s, t, s');
    case RetireEnd => RetireEndKeeps(s, t, s');
    case Acquire(r) => AcquireKeeps(s, t, r, s');
    case Allocate(h) => AllocateKeeps(s, t, h, s');
    case StartBackend => StartBackendKeeps(s, t, s');
    case Activate(g) => ActivateKeeps(s, t, g, s');
    case Publish => PublishKeeps(s, t, s');
    case AbandonBuild => AbandonBuildKeeps(s, t, s');
    case Release => ReleaseKeeps(s, t, s');
    case ReopenCommit(g) => ReopenCommitKeeps(s, t, g, s');
    case ReopenReject => ReopenRejectKeeps(s, t, s');
    case Claim(who, c) => ClaimKeeps(s, t, who, c, s');
    case CloseDrained => CloseDrainedKeeps(s, t, s');
    case FreeHandle => FreeHandleKeeps(s, t, s');
    case ReadGeneration(h, g) =>
    case LockHandle(h) => LockHandleKeeps(s, t, h, s');
    case UnlockHandle(h) => UnlockHandleKeeps(s, t, h, s');
    case SetStreaming(h, on) => SetStreamingKeeps(s, t, h, on, s');
    case Poison(h) => PoisonKeeps(s, t, h, s');
    case Detach => DetachKeeps(s, t, s');
  }

  // ---------------------------------------------------------------------------
  // Runs
  // ---------------------------------------------------------------------------

  /** A run: any interleaving of the steps of any threads, from process start. */
  datatype Run = Run(states: seq<State>, steps: seq<(Thread, Action)>)

  ghost predicate IsRun(r: Run) {
    && |r.states| == |r.steps| + 1
    && r.states[0] == INITIAL
    && forall i :: 0 <= i < |r.steps| ==> Step(r.states[i], r.steps[i].0, r.steps[i].1, r.states[i + 1])
  }

  lemma RunStep(r: Run, n: nat)
    requires IsRun(r) && n < |r.steps|
    ensures Step(r.states[n], r.steps[n].0, r.steps[n].1, r.states[n + 1])
  {
  }

  lemma {:induction false} RunKeeps(r: Run, n: nat)
    requires IsRun(r) && n <= |r.steps|
    ensures Inv(r.states[n])
  {
    if n == 0 {
      forall t ensures ThreadOk(INITIAL, t) {}
    } else {
      RunKeeps(r, n - 1);
      StepKeeps(r.states[n - 1], r.steps[n - 1].0, r.steps[n - 1].1, r.states[n]);
    }
  }

  /** No thread that may use a handle, or is about to free it, ever has a freed one. */
  lemma NoUseAfterFree(r: Run, n: nat, t: Thread, h: Address)
    requires IsRun(r) && n <= |r.steps|
    requires MayTouch(r.states[n], t, h) || PhaseOf(r.states[n], t) == Draining(h) ||
             HoldsLock(r.states[n], t, h) ||
             (PhaseOf(r.states[n], t).Drained? && PhaseOf(r.states[n], t).h == h)
    ensures h in r.states[n].heap
  {
    RunKeeps(r, n);
    assert ThreadOk(r.states[n], t);
  }

  /** Nobody but the closer is entitled to a drained handle. */
  ghost predicate Quiet(s: State, h: Address) {
    && s.leases == multiset{} && s.activeCalls == 0
    && h in s.heap && s.heap[h].lock == None
    && (forall u :: !MayTouch(s, u, h) && !PhaseOf(s, u).Reopening? && !InRetirement(PhaseOf(s, u)))
  }

  lemma DrainedIsQuiet(s: State, t: Thread)
    requires Inv(s) && PhaseOf(s, t).Drained?
    ensures Quiet(s, PhaseOf(s, t).h)
  {
    assert ThreadOk(s, t);
    var h := PhaseOf(s, t).h;
    forall u ensures !MayTouch(s, u, h) && !PhaseOf(s, u).Reopening? && !InRetirement(PhaseOf(s, u)) {
      assert ThreadOk(s, u);
    }
  }

  /** The free happens with no call open, no reopener inside, the mutex free, and nobody else entitled. */
  lemma FreedOnlyWhenQuiet(r: Run, n: nat)
    requires IsRun(r) && n < |r.steps| && r.steps[n].1 == FreeHandle
    ensures PhaseOf(r.states[n], r.steps[n].0).Drained?
    ensures Quiet(r.states[n], PhaseOf(r.states[n], r.steps[n].0).h)
    ensures PhaseOf(r.states[n], r.steps[n].0).h !in r.states[n + 1].heap
  {
    RunKeeps(r, n);
    RunStep(r, n);
    DrainedIsQuiet(r.states[n], r.steps[n].0);
  }

  lemma SpentFacts(s: State, t: Thread)
    requires Inv(s) && s.state == Spent
    ensures s.instance == None && !s.retirement && !InInit(PhaseOf(s, t))
  {
    assert ThreadOk(s, t);
  }

  lemma SpentStep(s: State, t: Thread, a: Action, s': State)
    requires Inv(s) && Step(s, t, a, s') && s.state == Spent
    ensures s'.state == Spent && !IsEntry(a)
  {
    hide Inv, Unlocked, HoldsLock, Streaming, OwnsClose, MayTouch, Owns;
    SpentFacts(s, t);
  }

  lemma SpentNext(r: Run, n: nat)
    requires IsRun(r) && n < |r.steps| && r.states[n].state == Spent
    ensures r.states[n + 1].state == Spent && !IsEntry(r.steps[n].1)
  {
    RunKeeps(r, n);
    RunStep(r, n);
    SpentStep(r.states[n], r.steps[n].0, r.steps[n].1, r.states[n + 1]);
  }

  /** Once the slot is spent it stays spent. */
  lemma {:induction false} SpentIsAbsorbing(r: Run, i: nat, j: nat)
    requires IsRun(r) && i <= j <= |r.steps| && r.states[i].state == Spent
    ensures r.states[j].state == Spent
  {
    if i < j {
      SpentIsAbsorbing(r, i, j - 1);
      SpentNext(r, j - 1);
    }
  }

  predicate IsClaim(a: Action) { a.Claim? && a.c.Claimed? }

  /** A step that lets a thread start using, reopening, retiring or replacing the handle. */
  predicate IsEntry(a: Action) {
    || ((a.BeginCall? || a.TryBeginCall?) && a.ok)
    || (a.Acquire? && (a.a.AcquireReserved? || a.a.AcquireReopen?))
    || (a.Retire? && a.r == RetireInstalled)
    || IsClaim(a)
  }

  /** After a successful claim no call, reopen, retirement, reservation or second claim can start. */
  lemma NothingStartsAfterClaim(r: Run, i: nat, j: nat)
    requires IsRun(r) && i < j < |r.steps| && IsClaim(r.steps[i].1)
    ensures !IsEntry(r.steps[j].1)
  {
    RunStep(r, i);
    SpentIsAbsorbing(r, i + 1, j);
    SpentNext(r, j);
  }

  /** At most one terminal claim ever succeeds in a process. */
  lemma ClaimSucceedsAtMostOnce(r: Run, i: nat, j: nat)
    requires IsRun(r) && i < |r.steps| && j < |r.steps|
    requires IsClaim(r.steps[i].1) && IsClaim(r.steps[j].1)
    ensures i == j
  {
    if i < j { NothingStartsAfterClaim(r, i, j); }
    if j < i { NothingStartsAfterClaim(r, j, i); }
  }

  ghost predicate Retires(s: State, t: Thread) {
    InRetirement(PhaseOf(s, t)) && s.instance == Some(PhaseOf(s, t).h) && Owns(s, t, PhaseOf(s, t).h)
  }

  /** The flag is up exactly while one thread owns the retirement of the published handle, and it is one thread. */
  lemma RetirementHasOneOwner(r: Run, n: nat)
    requires IsRun(r) && n <= |r.steps|
    ensures var s := r.states[n];
      && (s.retirement <==> exists t :: Retires(s, t))
      && (forall t, u :: Retires(s, t) && Retires(s, u) ==> t == u)
  {
    RunKeeps(r, n);
    var s := r.states[n];
    forall t ensures Retires(s, t) ==> s.retirement { assert ThreadOk(s, t); }
    if s.retirement {
      var t :| t in s.owned;
      assert ThreadOk(s, t);
      assert Retires(s, t);
    }
  }

  /** From begin_handle_retirement returning until it ends or is promoted, only its owner holds calls. */
  lemma RetirementExcludesOthers(r: Run, n: nat, t: Thread, u: Thread, h: Address)
    requires IsRun(r) && n <= |r.steps|
    requires PhaseOf(r.states[n], t).Retiring? && (u, h) in r.states[n].leases
    ensures u == t
  {
    RunKeeps(r, n);
    assert ThreadOk(r.states[n], t);
    assert (u, h).0 == u;
  }

  /** end_handle_retirement never takes away another thread's retirement, also after a promotion to close. */
  lemma EndNeverClearsAnother(r: Run, n: nat, t: Thread, u: Thread)
    requires IsRun(r) && n < |r.steps| && r.steps[n] == (t, RetireEnd) && u != t
    ensures Retires(r.states[n + 1], u) == Retires(r.states[n], u)
    ensures PhaseOf(r.states[n], t).Finishing? ==> !r.states[n].retirement
    ensures PhaseOf(r.states[n], t).Retiring? ==> Retires(r.states[n], t)
  {
    RunKeeps(r, n);
    PhaseFrame(r.states[n], t, r.states[n + 1]);
    assert ThreadOk(r.states[n], t);
    assert ThreadOk(r.states[n], u);
  }

  // ---------------------------------------------------------------------------
  // Generations
  // ---------------------------------------------------------------------------

  predicate IsActivation(a: Action) { a.Activate? || a.ReopenCommit? }

  /** The generations handed out by the first init and by every reopen, in order. */
  function Activations(steps: seq<(Thread, Action)>): seq<nat> {
    if steps == [] then []
    else
      var rest := Activations(steps[..|steps| - 1]);
      var a := steps[|steps| - 1].1;
      if IsActivation(a) then rest + [a.g] else rest
  }

  predicate Increasing(log: seq<nat>) {
    forall i, j :: 0 <= i < j < |log| ==> log[i] < log[j]
  }

  ghost predicate LogOk(s: State, log: seq<nat>) {
    && Increasing(log)
    && (s.instance.Some? && s.instance.value in s.heap ==>
          log != [] && log[|log| - 1] == s.heap[s.instance.value].generation)
    && (s.state == Unused ==> log == [])
    && (forall t :: InInit(PhaseOf(s, t)) ==> log == InitLog(s, t))
  }

  function InitLog(s: State, t: Thread): seq<nat> {
    var p := PhaseOf(s, t);
    if p.Building? && p.h in s.heap && s.heap[p.h].logicalActive then [1] else []
  }

  lemma ActivateLog(s: State, t: Thread, g: nat, s': State, log: seq<nat>)
    requires Inv(s) && LogOk(s, log) && ActivateStep(s, t, g, s')
    ensures LogOk(s', log + [g])
  {
    PhaseFrame(s, t, s');
    assert ThreadOk(s, t);
    assert InInit(PhaseOf(s, t));
  }

  lemma ReopenLog(s: State, t: Thread, g: nat, s': State, log: seq<nat>)
    requires Inv(s) && LogOk(s, log) && ReopenCommitStep(s, t, g, s')
    ensures LogOk(s', log + [g])
  {
    PhaseFrame(s, t, s');
    assert ThreadOk(s, t);
    forall u ensures !InInit(PhaseOf(s, u)) { assert ThreadOk(s, u); }
  }

  /** Whoever is inside init is there alone, so the slot's log is its own. */
  lemma InitIsAlone(s: State)
    requires Inv(s)
    ensures forall u :: InInit(PhaseOf(s, u)) ==> InitAlone(s)
  {
    forall u ensures InInit(PhaseOf(s, u)) ==> InitAlone(s) { assert ThreadOk(s, u); }
  }

  lemma AcquireLog(s: State, t: Thread, a: AcquireResult, s': State, log: seq<nat>)
    requires Inv(s) && LogOk(s, log) && AcquireStep(s, t, a, s')
    ensures LogOk(s', log)
  {
    PhaseFrame(s, t, s');
    InitIsAlone(s);
    hide RolesUnique, LeasesOk, LocksOk, ThreadOk;
  }

  lemma PublishLog(s: State, t: Thread, s': State, log: seq<nat>)
    requires Inv(s) && LogOk(s, log) && PublishStep(s, t, s')
    ensures LogOk(s', log)
  {
    PhaseFrame(s, t, s');
    assert ThreadOk(s, t);
    hide LeasesOk, LocksOk;
  }

  lemma RegistryLog(s: State, t: Thread, a: Action, s': State, log: seq<nat>)
    requires Inv(s) && LogOk(s, log) && Step(s, t, a, s') && (a.Release? || a.AbandonBuild? || a.Allocate?)
    ensures LogOk(s', log)
  {
    hide RegistryOk, LeasesOk, LocksOk;
    PhaseFrame(s, t, s');
    assert ThreadOk(s, t);
    InitIsAlone(s);
  }

  /** What every other step leaves alone. */
  ghost predicate LogFrame(s: State, s': State) {
    && (s'.state == s.state || s'.state == Spent)
    && (s'.instance.Some? ==> s'.instance == s.instance)
    && (forall h :: s'.instance == Some(h) && h in s.heap && h in s'.heap ==>
          s'.heap[h].generation == s.heap[h].generation)
    && (forall u :: InInit(PhaseOf(s', u)) ==> PhaseOf(s', u) == PhaseOf(s, u) && InitLog(s', u) == InitLog(s, u))
  }

  lemma FrameKeepsLog(s: State, s': State, log: seq<nat>)
    requires Inv(s) && LogOk(s, log) && LogFrame(s, s')
    ensures LogOk(s', log)
  {
    hide InitLog, RolesUnique, LeasesOk, LocksOk, ThreadOk;
  }

  predicate IsHandleAccess(a: Action) {
    a.StartBackend? || a.LockHandle? || a.UnlockHandle? || a.SetStreaming? || a.Poison? || a.Detach?
  }

  predicate IsSlotChange(a: Action) {
    a.Acquire? || a.Publish? || a.Release? || a.AbandonBuild? || a.Allocate?
  }

  /** Writing one allocated handle without touching its generation, or whether it is active while it is being built. */
  lemma HandleFrame(s: State, h: Address, x: Handle)
    requires h in s.heap && x.generation == s.heap[h].generation
    requires x.logicalActive == s.heap[h].logicalActive || forall u :: !InInit(PhaseOf(s, u))
    ensures LogFrame(s, s.(heap := s.heap[h := x]))
  {
    var s' := s.(heap := s.heap[h := x]);
    forall u ensures PhaseOf(s', u) == PhaseOf(s, u) && (InInit(PhaseOf(s, u)) ==> InitLog(s', u) == InitLog(s, u)) {}
  }

  lemma DetachFrame(s: State, t: Thread, s': State)
    requires Inv(s) && DetachStep(s, t, s')
    ensures LogFrame(s, s')
  {
    var h := PhaseOf(s, t).h;
    assert ThreadOk(s, t);
    InitIsAlone(s);
    hide Inv, LogFrame;
    HandleFrame(s, h, s.heap[h].(logicalActive := false));
  }

  lemma AccessFrame(s: State, t: Thread, a: Action, s': State)
    requires Inv(s) && Step(s, t, a, s') && IsHandleAccess(a)
    ensures LogFrame(s, s')
  {
    hide Inv, LogFrame, DetachStep, MayTouch;
    match a
    case StartBackend => HandleFrame(s, PhaseOf(s, t).h, s.heap[PhaseOf(s, t).h].(started := true));
    case LockHandle(h) => HandleFrame(s, h, s.heap[h].(lock := Some(t)));
    case UnlockHandle(h) => HandleFrame(s, h, s.heap[h].(lock := None));
    case SetStreaming(h, on) => HandleFrame(s, h, s.heap[h].(streaming := on));
    case Poison(h) => HandleFrame(s, h, s.heap[h].(poisoned := true));
    case Detach => DetachFrame(s, t, s');
  }

  lemma CloseFrame(s: State, t: Thread, a: Action, s': State)
    requires Inv(s) && Step(s, t, a, s') && (a.Claim? || a.FreeHandle? || a.ReopenReject?)
    ensures LogFrame(s, s')
  {
    hide LeasesOk, LocksOk, RolesUnique;
    PhaseFrame(s, t, s');
    assert ThreadOk(s, t);
    forall u ensures InInit(PhaseOf(s', u)) ==> PhaseOf(s', u) == PhaseOf(s, u) && InitLog(s', u) == InitLog(s, u) {
      assert ThreadOk(s, u);
    }
  }

  /** The slot and the heap stay, and the stepping thread does not enter init. */
  lemma QuietFrame(s: State, t: Thread, s': State)
    requires s'.state == s.state && s'.instance == s.instance && s'.heap == s.heap
    requires s'.phase == s.phase || (t in s'.phase && s'.phase == s.phase[t := s'.phase[t]] && !InInit(s'.phase[t]))
    ensures LogFrame(s, s')
  {
    PhaseFrame(s, t, s');
  }

  lemma OtherFrame(s: State, t: Thread, a: Action, s': State)
    requires Step(s, t, a, s')
    requires !IsActivation(a) && !IsSlotChange(a) && !IsHandleAccess(a)
    requires !a.Claim? && !a.FreeHandle? && !a.ReopenReject?
    ensures LogFrame(s, s')
  {
    hide LogFrame, CallAdmitted, Current, HoldsLock, Unlocked, RetireOutcome;
    QuietFrame(s, t, s');
  }

  lemma LogKeeps(s: State, t: Thread, a: Action, s': State, log: seq<nat>)
    requires Inv(s) && LogOk(s, log) && Step(s, t, a, s')
    ensures LogOk(s', if IsActivation(a) then log + [a.g] else log)
  {
    hide Inv, InitLog, BeginCallStep, TryBeginCallStep, EndCallStep, RetireStep, RetireReadyStep, RetireEndStep,
      AcquireStep, AllocateStep, StartBackendStep, PublishStep, AbandonBuildStep, ReleaseStep, ReopenRejectStep,
      ClaimStep, CloseDrainedStep, FreeHandleStep, LockHandleStep, UnlockHandleStep, SetStreamingStep, PoisonStep,
      DetachStep;
    if a.Activate? {
      ActivateLog(s, t, a.g, s', log);
    } else if a.ReopenCommit? {
      ReopenLog(s, t, a.g, s', log);
    } else if a.Acquire? {
      AcquireLog(s, t, a.a, s', log);
    } else if a.Publish? {
      PublishLog(s, t, s', log);
    } else if IsSlotChange(a) {
      RegistryLog(s, t, a, s', log);
    } else {
      if IsHandleAccess(a) {
        AccessFrame(s, t, a, s');
      } else if a.Claim? || a.FreeHandle? || a.ReopenReject? {
        CloseFrame(s, t, a, s');
      } else {
        OtherFrame(s, t, a, s');
      }
      FrameKeepsLog(s, s', log);
    }
  }

  lemma {:induction false} RunLog(r: Run, n: nat)
    requires IsRun(r) && n <= |r.steps|
    ensures LogOk(r.states[n], Activations(r.steps[..n]))
  {
    if n > 0 {
      RunLog(r, n - 1);
      RunKeeps(r, n - 1);
      LogKeeps(r.states[n - 1], r.steps[n - 1].0, r.steps[n - 1].1, r.states[n], Activations(r.steps[..n - 1]));
      assert r.steps[..n][..n - 1] == r.steps[..n - 1];
    }
  }

  /** Over every run the generations handed out strictly increase. */
  lemma GenerationsIncrease(r: Run)
    requires IsRun(r)
    ensures Increasing(Activations(r.steps))
  {
    RunLog(r, |r.steps|);
    assert r.steps[..|r.steps|] == r.steps;
  }

  /** No gate, lock or stream stands in the way of a claim. */
  predicate Claimable(s: State) {
    && s.instance.Some? && !s.retirement
    && Unlocked(s, s.instance.value) && !Streaming(s, s.instance.value)
  }

  /**
   * A claim by generation succeeds only for the lease activated last, and when no gate, lock or
   * stream stands in the way it succeeds for that one.
   */
  lemma ClaimByGenerationIsLatest(r: Run, n: nat, t: Thread, g: nat, c: ClaimResult)
    requires IsRun(r) && n < |r.steps| && r.steps[n] == (t, Claim(ByGeneration(g), c))
    ensures var s := r.states[n];
      var log := Activations(r.steps[..n]);
      && (c.Claimed? ==> log != [] && g == log[|log| - 1])
      && (Claimable(s) && log != [] && g == log[|log| - 1] ==> c.Claimed?)
  {
    RunKeeps(r, n);
    RunStep(r, n);
    RunLog(r, n);
  }

  // ---------------------------------------------------------------------------
  // A whole life
  // ---------------------------------------------------------------------------

  function Extend(r: Run, t: Thread, a: Action, s: State): Run { Run(r.states + [s], r.steps + [(t, a)]) }

  function End(r: Run): State
    requires |r.states| > 0
  {
    r.states[|r.states| - 1]
  }

  lemma ExtendIsRun(r: Run, t: Thread, a: Action, s: State) returns (n: Run)
    requires IsRun(r) && Step(End(r), t, a, s)
    ensures IsRun(n) && n.steps == r.steps + [(t, a)] && End(n) == s
  {
    hide Step;
    n := Extend(r, t, a, s);
    forall i | 0 <= i < |n.steps| ensures Step(n.states[i], n.steps[i].0, n.steps[i].1, n.states[i + 1]) {
      if i < |r.steps| { assert Step(r.states[i], r.steps[i].0, r.steps[i].1, r.states[i + 1]); }
    }
  }

  function Built(t: Thread, h: Address, x: Handle): State {
    State(Active, None, 0, false, map[], map[h := x], multiset{}, map[t := Building(h)])
  }

  function Published(t: Thread, h: Address): State {
    State(Active, Some(h), 0, false, map[], map[h := Handle(1, true, false, false, true, None)], multiset{},
      map[t := Idle])
  }

  lemma InitRun(t: Thread, h: Address) returns (r: Run)
    requires h != NULL
    ensures IsRun(r) && End(r) == Built(t, h, Handle(0, false, false, false, false, None))
  {
    r := Run([INITIAL], []);
    r := ExtendIsRun(r, t, Acquire(AcquireReserved), INITIAL.(state := Active, phase := map[t := Reserving]));
    r := ExtendIsRun(r, t, Allocate(h), Built(t, h, Handle(0, false, false, false, false, None)));
  }

  lemma PublishRun(t: Thread, h: Address) returns (r: Run)
    requires h != NULL
    ensures IsRun(r) && End(r) == Published(t, h)
  {
    r := InitRun(t, h);
    hide IsRun;
    r := ExtendIsRun(r, t, StartBackend, Built(t, h, Handle(0, false, false, false, true, None)));
    r := ExtendIsRun(r, t, Activate(1), Built(t, h, Handle(1, true, false, false, true, None)));
    r := ExtendIsRun(r, t, Publish, Published(t, h));
  }

  lemma CallRun(t: Thread, h: Address) returns (r: Run)
    requires h != NULL
    ensures IsRun(r) && End(r) == Published(t, h)
    ensures exists i :: 0 <= i < |r.steps| && r.steps[i] == (t, BeginCall(h, true))
  {
    r := PublishRun(t, h);
    hide IsRun;
    var n := |r.steps|;
    var s := Published(t, h);
    assert multiset{} + multiset{(t, h)} == multiset{(t, h)};
    r := ExtendIsRun(r, t, BeginCall(h, true), s.(activeCalls := 1, leases := multiset{(t, h)}));
    r := ExtendIsRun(r, t, EndCall(h), s);
    assert r.steps[n] == (t, BeginCall(h, true));
  }

  /** The steps compose: a handle can be built, published, called, claimed by its generation and freed. */
  lemma WholeLife(t: Thread, h: Address) returns (r: Run)
    requires h != NULL
    ensures IsRun(r) && End(r).state == Spent && End(r).heap == map[]
    ensures r.steps != [] && r.steps[|r.steps| - 1] == (t, FreeHandle)
    ensures exists i :: 0 <= i < |r.steps| && r.steps[i] == (t, Claim(ByGeneration(1), Claimed(h)))
  {
    r := CallRun(t, h);
    hide IsRun;
    var n := |r.steps|;
    var s := Published(t, h).(state := Spent, instance := None, phase := map[t := Closing(h, false)]);
    r := ExtendIsRun(r, t, Claim(ByGeneration(1), Claimed(h)), s);
    r := ExtendIsRun(r, t, CloseDrained, s.(phase := map[t := Drained(h, false)]));
    assert s.heap - {h} == map[];
    r := ExtendIsRun(r, t, FreeHandle, s.(heap := map[], phase := map[t := Idle]));
    assert r.steps[n] == (t, Claim(ByGeneration(1), Claimed(h)));
  }

  /** The retirement of the published handle by `t`, with its gate installed and no call open. */
  function Retired(t: Thread, h: Address, x: Handle): State {
    Published(t, h).(retirement := true, owned := map[t := h], heap := map[h := x], phase := map[t := Retiring(h)])
  }

  lemma PoisonRun(t: Thread, h: Address) returns (r: Run)
    requires h != NULL
    ensures IsRun(r) && End(r) == Published(t, h).(heap := map[h := Handle(1, true, false, true, true, None)])
  {
    r := PublishRun(t, h);
    hide IsRun;
    var s, x := Published(t, h), Handle(1, true, false, true, true, None);
    assert multiset{} + multiset{(t, h)} == multiset{(t, h)};
    r := ExtendIsRun(r, t, BeginCall(h, true), s.(activeCalls := 1, leases := multiset{(t, h)}));
    r := ExtendIsRun(r, t, Poison(h), s.(activeCalls := 1, leases := multiset{(t, h)}, heap := map[h := x]));
    r := ExtendIsRun(r, t, EndCall(h), s.(heap := map[h := x]));
  }

  lemma RetireRun(r: Run, t: Thread, h: Address, x: Handle) returns (n: Run)
    requires IsRun(r) && h != NULL && x.lock == None && !x.streaming && End(r) == Published(t, h).(heap := map[h := x])
    ensures IsRun(n) && End(n) == Retired(t, h, x)
  {
    hide IsRun;
    var s := Retired(t, h, x);
    n := ExtendIsRun(r, t, Retire(h, RetireInstalled), s.(phase := map[t := Draining(h)]));
    n := ExtendIsRun(n, t, RetireReady, s);
  }

  /** The state after a promoted claim, up to the closer's phase and the heap. */
  function PromotedBy(t: Thread, h: Address, heap: map<Address, Handle>, p: Phase): State {
    State(Spent, None, 0, false, map[], heap, multiset{}, map[t := p])
  }

  lemma PromotedClaim(t: Thread, h: Address) returns (r: Run)
    requires h != NULL
    ensures IsRun(r) && End(r) == PromotedBy(t, h, map[h := Handle(1, true, false, true, true, None)], Closing(h, true))
    ensures r.steps != [] && r.steps[|r.steps| - 1] == (t, Claim(ByHandle(h), Claimed(h)))
  {
    var x := Handle(1, true, false, true, true, None);
    r := PoisonRun(t, h);
    hide IsRun;
    r := RetireRun(r, t, h, x);
    assert map[t := h] - {t} == map[];
    r := ExtendIsRun(r, t, Claim(ByHandle(h), Claimed(h)), PromotedBy(t, h, map[h := x], Closing(h, true)));
  }

  lemma DrainedNext(r: Run, t: Thread, h: Address, x: Handle) returns (n: Run)
    requires IsRun(r) && x.lock == None && End(r) == PromotedBy(t, h, map[h := x], Closing(h, true))
    ensures IsRun(n) && n.steps == r.steps + [(t, CloseDrained)]
    ensures End(n) == PromotedBy(t, h, map[h := x], Drained(h, true))
  {
    hide IsRun;
    n := ExtendIsRun(r, t, CloseDrained, PromotedBy(t, h, map[h := x], Drained(h, true)));
  }

  lemma FreedNext(r: Run, t: Thread, h: Address, x: Handle) returns (n: Run)
    requires IsRun(r) && End(r) == PromotedBy(t, h, map[h := x], Drained(h, true))
    ensures IsRun(n) && n.steps == r.steps + [(t, FreeHandle)] && End(n) == PromotedBy(t, h, map[], Finishing)
  {
    hide IsRun;
    assert map[h := x] - {h} == map[];
    n := ExtendIsRun(r, t, FreeHandle, PromotedBy(t, h, map[], Finishing));
  }

  lemma FinishedNext(r: Run, t: Thread, h: Address) returns (n: Run)
    requires IsRun(r) && End(r) == PromotedBy(t, h, map[], Finishing)
    ensures IsRun(n) && n.steps == r.steps + [(t, RetireEnd)] && End(n) == PromotedBy(t, h, map[], Idle)
  {
    hide IsRun;
    n := ExtendIsRun(r, t, RetireEnd, PromotedBy(t, h, map[], Idle));
  }

  /** A poisoned detach is promoted to close, frees the handle, and then ends its retirement. */
  lemma PromotedLife(t: Thread, h: Address) returns (r: Run)
    requires h != NULL
    ensures IsRun(r) && End(r).state == Spent && End(r).heap == map[] && !End(r).retirement
    ensures r.steps != [] && r.steps[|r.steps| - 1] == (t, RetireEnd)
    ensures exists i :: 0 <= i < |r.steps| && r.steps[i] == (t, Claim(ByHandle(h), Claimed(h)))
  {
    r := PromotedClaim(t, h);
    var n := |r.steps| - 1;
    r := DrainedNext(r, t, h, Handle(1, true, false, true, true, None));
    r := FreedNext(r, t, h, Handle(1, true, false, true, true, None));
    r := FinishedNext(r, t, h);
    assert r.steps[n] == (t, Claim(ByHandle(h), Claimed(h)));
  }

  lemma DetachLocked(t: Thread, h: Address) returns (r: Run)
    requires h != NULL
    ensures IsRun(r) && End(r) == Retired(t, h, Handle(1, true, false, false, true, Some(t)))
  {
    var x := Handle(1, true, false, false, true, None);
    r := PublishRun(t, h);
    hide IsRun;
    r := RetireRun(r, t, h, x);
    r := ExtendIsRun(r, t, LockHandle(h), Retired(t, h, x.(lock := Some(t))));
  }

  lemma DetachHeld(t: Thread, h: Address) returns (r: Run)
    requires h != NULL
    ensures IsRun(r) && End(r) == Retired(t, h, Handle(1, false, false, false, true, Some(t)))
  {
    r := DetachLocked(t, h);
    hide IsRun;
    r := ExtendIsRun(r, t, Detach, Retired(t, h, Handle(1, false, false, false, true, Some(t))));
  }

  lemma DetachRun(t: Thread, h: Address) returns (r: Run)
    requires h != NULL
    ensures IsRun(r) && End(r) == Published(t, h).(heap := map[h := Handle(1, false, false, false, true, None)])
  {
    var x := Handle(1, false, false, false, true, None);
    r := DetachHeld(t, h);
    hide IsRun;
    r := ExtendIsRun(r, t, UnlockHandle(h), Retired(t, h, x));
    assert map[t := h] - {t} == map[];
    r := ExtendIsRun(r, t, RetireEnd, Published(t, h).(heap := map[h := x]));
  }

  /** A detached handle is reopened under the next generation. */
  lemma ReopenedLife(t: Thread, h: Address) returns (r: Run)
    requires h != NULL
    ensures IsRun(r) && End(r) == Published(t, h).(heap := map[h := Handle(2, true, false, false, true, None)])
    ensures r.steps != [] && r.steps[|r.steps| - 1] == (t, ReopenCommit(2))
  {
    r := DetachRun(t, h);
    hide IsRun;
    r := ExtendIsRun(r, t, Acquire(AcquireReopen(h)), Published(t, h).(
      heap := map[h := Handle(1, false, false, false, true, Some(t))], phase := map[t := Reopening(h)]));
    var x := Handle(2, true, false, false, true, None);
    r := ExtendIsRun(r, t, ReopenCommit(2), Published(t, h).(heap := map[h := x]));
  }

  /** A call opened before another thread's claim can still begin to stream after it, on a handle about to be closed. */
  lemma StreamAfterClaim(t: Thread, u: Thread, h: Address) returns (r: Run)
    requires h != NULL && t != u
    ensures IsRun(r) && End(r).state == Spent && PhaseOf(End(r), u) == Closing(h, false) && (t, h) in End(r).leases
    ensures Streaming(End(r), h)
    ensures |r.steps| >= 4 && r.steps[|r.steps| - 4..] == [(t, BeginCall(h, true)),
      (u, Claim(ByGeneration(1), Claimed(h))), (t, LockHandle(h)), (t, SetStreaming(h, true))]
  {
    r := PublishRun(t, h);
    hide IsRun;
    var x := Handle(1, true, false, false, true, None);
    assert multiset{} + multiset{(t, h)} == multiset{(t, h)};
    var s := Published(t, h).(activeCalls := 1, leases := multiset{(t, h)});
    r := ExtendIsRun(r, t, BeginCall(h, true), s);
    var c := s.(state := Spent, instance := None, phase := map[t := Idle, u := Closing(h, false)]);
    assert s.phase[u := Closing(h, false)] == c.phase;
    r := ExtendIsRun(r, u, Claim(ByGeneration(1), Claimed(h)), c);
    r := ExtendIsRun(r, t, LockHandle(h), c.(heap := map[h := x.(lock := Some(t))]));
    r := ExtendIsRun(r, t, SetStreaming(h, true), c.(heap := map[h := x.(lock := Some(t), streaming := true)]));
  }
}
