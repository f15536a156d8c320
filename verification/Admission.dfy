/**
 * What the gate of the process decides, read off the state it finds: who may open a call, begin a retirement, take
 * the slot or claim the handle, and who has to wait. Every statement is about a step of a run and the fields of the
 * state before it.
 */
module Admission {
  import opened Prelude
  import opened Lifecycle

  /** A retirement is under way and it is not this thread's. */
  predicate ForeignGate(s: State, t: Thread) {
    s.retirement && !(s.instance.Some? && t in s.owned && s.owned[t] == s.instance.value)
  }

  /** The published handle, if its mutex is free. */
  predicate Free(s: State) {
    s.state == Active && s.instance.Some? && s.instance.value in s.heap && s.heap[s.instance.value].lock == None
  }

  /** A claim by generation names the handle of that generation; one by pointer that handle, or with none any. */
  predicate Names(s: State, who: ClaimBy, h: Address) {
    h in s.heap && match who
                   case ByGeneration(g) => g == s.heap[h].generation
                   case ByHandle(x) => x == 0 || x == h
  }

  /** Nothing stands in the way of this claim but a stream. */
  predicate Grantable(s: State, t: Thread, who: ClaimBy) {
    !ForeignGate(s, t) && Free(s) && Names(s, who, s.instance.value)
  }

  /**
   * When a claim succeeds, is refused because of a running stream, is refused as stale or too late, and has to wait.
   */
  lemma ClaimOutcomes(r: Run, n: nat, t: Thread, who: ClaimBy, c: ClaimResult)
    requires IsRun(r) && n < |r.steps| && r.steps[n] == (t, Claim(who, c))
    ensures var s := r.states[n];
      && (c.Claimed? <==> Grantable(s, t, who) && !s.heap[s.instance.value].streaming)
      && (c.Claimed? ==> c.h == s.instance.value)
      && (c == ClaimBusy <==> Grantable(s, t, who) && s.heap[s.instance.value].streaming)
      && (c == ClaimSpent <==> !ForeignGate(s, t) && s.state == Spent)
      && (c == ClaimStale <==>
            && !ForeignGate(s, t) && s.state != Spent
            && (s.instance == None || (Free(s) && !Names(s, who, s.instance.value))))
      && (c == ClaimWait <==> ForeignGate(s, t) || (s.state == Active && s.instance.Some? && !Free(s)))
  {
    RunKeeps(r, n);
    RunStep(r, n);
    var s := r.states[n];
    if s.instance.Some? { InstanceLives(s); }
    hide Inv;
  }

  /** What a claim changes: everything about the slot if it succeeds, nothing otherwise. */
  lemma ClaimEffect(r: Run, n: nat, t: Thread, who: ClaimBy, c: ClaimResult)
    requires IsRun(r) && n < |r.steps| && r.steps[n] == (t, Claim(who, c))
    ensures n + 1 < |r.states|
    ensures var s, s' := r.states[n], r.states[n + 1];
      if !c.Claimed? then s' == s
      else
        && s'.state == Spent && s'.instance == None && !s'.retirement && t !in s'.owned
        && s'.heap == s.heap && s'.leases == s.leases && s'.activeCalls == s.activeCalls
        && PhaseOf(s', t) == Closing(c.h, s.retirement)
        && forall u :: u != t ==> PhaseOf(s', u) == PhaseOf(s, u) && (u in s'.owned <==> u in s.owned)
  {
    RunKeeps(r, n);
    RunStep(r, n);
    var s := r.states[n];
    assert ThreadOk(s, t);
    if s.retirement { RetirementHasOneOwner(r, n); }
  }

  /** A detach installs its gate only on the current, unlocked handle with no stream and no gate. */
  lemma RetireOutcomes(r: Run, n: nat, t: Thread, h: Address, a: RetireResult)
    requires IsRun(r) && n < |r.steps| && r.steps[n] == (t, Retire(h, a))
    ensures n + 1 < |r.states|
    ensures var s := r.states[n];
      var current := h != 0 && s.state == Active && s.instance == Some(h);
      && (a == RetireNull <==> h == 0)
      && (a == RetireStale <==> h != 0 && !current)
      && (a == RetireNested <==> current && s.retirement && t in s.owned && s.owned[t] == h)
      && (a == RetireBusy <==> current && !s.retirement && Free(s) && s.heap[h].streaming)
      && (a == RetireInstalled <==> current && !s.retirement && Free(s) && !s.heap[h].streaming)
      && (a == RetireWait <==>
            current && ((s.retirement && !(t in s.owned && s.owned[t] == h)) || (!s.retirement && !Free(s))))
    ensures var s, s' := r.states[n], r.states[n + 1];
      if a != RetireInstalled then s' == s
      else
        && s'.retirement && t in s'.owned && s'.owned[t] == h && PhaseOf(s', t) == Draining(h)
        && s'.heap == s.heap && s'.leases == s.leases && s'.state == s.state && s'.instance == s.instance
  {
    RunKeeps(r, n);
    RunStep(r, n);
    var s := r.states[n];
    if s.instance.Some? { InstanceLives(s); }
    hide Inv;
  }

  /** Init waits for a retirement and for the handle mutex; then it reserves, reopens or is refused. */
  lemma AcquireOutcomes(r: Run, n: nat, t: Thread, a: AcquireResult)
    requires IsRun(r) && n < |r.steps| && r.steps[n] == (t, Acquire(a))
    ensures n + 1 < |r.states|
    ensures var s := r.states[n];
      && (a == AcquireWait <==> s.retirement || (s.state == Active && s.instance.Some? && !Free(s)))
      && (a.AcquireReopen? <==> !s.retirement && Free(s))
      && (a.AcquireReopen? ==> a.h == s.instance.value)
      && (a == AcquireReserved <==> !s.retirement && s.state == Unused)
      && (a == AcquireRefused <==> !s.retirement && (s.state == Spent || (s.state == Active && s.instance == None)))
    ensures var s, s' := r.states[n], r.states[n + 1];
      && (a == AcquireWait || a == AcquireRefused ==> s' == s)
      && (a == AcquireReserved ==> s'.state == Active && s'.instance == None && PhaseOf(s', t) == Reserving)
      && (a.AcquireReopen? ==>
            && s'.state == Active && s'.instance == s.instance && PhaseOf(s', t) == Reopening(a.h)
            && s'.heap == s.heap[a.h := s.heap[s.instance.value].(lock := Some(t))] && s'.leases == s.leases)
  {
    RunKeeps(r, n);
    RunStep(r, n);
    var s := r.states[n];
    if s.instance.Some? { InstanceLives(s); }
  }

  /** A call is opened exactly on the current handle, and while it is being retired by its retirer only. */
  lemma CallOutcomes(r: Run, n: nat, t: Thread, h: Address, ok: bool)
    requires IsRun(r) && n < |r.steps| && (r.steps[n] == (t, BeginCall(h, ok)) || r.steps[n] == (t, TryBeginCall(h, ok)))
    ensures n + 1 < |r.states|
    ensures var s := r.states[n];
      var current := h != 0 && s.state == Active && s.instance == Some(h);
      && (r.steps[n].1.BeginCall? ==> (ok <==> current && (s.retirement ==> t in s.owned && s.owned[t] == h)))
      && (r.steps[n].1.TryBeginCall? ==> (ok <==> current && !s.retirement))
    ensures var s, s' := r.states[n], r.states[n + 1];
      s' == if ok then s.(activeCalls := s.activeCalls + 1, leases := s.leases + multiset{(t, h)}) else s
  {
    RunStep(r, n);
  }

  // ---------------------------------------------------------------------------
  // A stream keeps the handle from being closed
  // ---------------------------------------------------------------------------

  /** A call begins to stream; a claim and a retirement of the handle are then refused as busy. */
  lemma StreamIsNotClosed(t: Thread, u: Thread, h: Address) returns (r: Run)
    requires h != NULL
    ensures IsRun(r) && |r.steps| >= 2
    ensures r.steps[|r.steps| - 2..] == [(u, Claim(ByGeneration(1), ClaimBusy)), (u, Retire(h, RetireBusy))]
    ensures End(r).state == Active && (t, h) in End(r).leases && Streaming(End(r), h)
  {
    r := PublishRun(t, h);
    hide IsRun;
    var x := Handle(1, true, false, false, true, None);
    assert multiset{} + multiset{(t, h)} == multiset{(t, h)};
    var s := Published(t, h).(activeCalls := 1, leases := multiset{(t, h)});
    r := ExtendIsRun(r, t, BeginCall(h, true), s);
    r := ExtendIsRun(r, t, LockHandle(h), s.(heap := map[h := x.(lock := Some(t))]));
    r := ExtendIsRun(r, t, SetStreaming(h, true), s.(heap := map[h := x.(lock := Some(t), streaming := true)]));
    var busy := s.(heap := map[h := x.(streaming := true)]);
    r := ExtendIsRun(r, t, UnlockHandle(h), busy);
    r := ExtendIsRun(r, u, Claim(ByGeneration(1), ClaimBusy), busy);
    r := ExtendIsRun(r, u, Retire(h, RetireBusy), busy);
  }

  // ---------------------------------------------------------------------------
  // Who may still have a handle, and how many backends there are
  // ---------------------------------------------------------------------------

  /** Whatever gives a thread the right to a handle, the handle has not been freed. */
  lemma NobodyHasAFreedHandle(r: Run, n: nat, t: Thread, h: Address)
    requires IsRun(r) && n <= |r.steps|
    requires var s, p := r.states[n], PhaseOf(r.states[n], t);
      || (t, h) in s.leases || (h in s.heap && s.heap[h].lock == Some(t))
      || p == Building(h) || p == Reopening(h) || p == Draining(h) || p == Retiring(h)
      || p == Closing(h, true) || p == Closing(h, false) || p == Drained(h, true) || p == Drained(h, false)
    ensures h in r.states[n].heap
  {
    RunKeeps(r, n);
    assert ThreadOk(r.states[n], t);
  }

  /** When the handle is freed no call is open, its mutex is free, and nobody else has anything to do with it. */
  lemma FreedAlone(r: Run, n: nat, t: Thread)
    requires IsRun(r) && n < |r.steps| && r.steps[n] == (t, FreeHandle)
    ensures var s, p := r.states[n], PhaseOf(r.states[n], t);
      && p.Drained? && s.state == Spent && s.activeCalls == 0 && (forall l :: l !in s.leases)
      && p.h in s.heap && s.heap[p.h].lock == None && p.h !in r.states[n + 1].heap
    ensures forall u :: u != t ==>
      var q := PhaseOf(r.states[n], u);
      !(q.Building? || q.Reopening? || q.Draining? || q.Retiring? || q.Closing? || q.Drained?)
  {
    RunKeeps(r, n);
    RunStep(r, n);
    var s := r.states[n];
    assert ThreadOk(s, t);
    forall u | u != t
      ensures var q := PhaseOf(s, u);
        !(q.Building? || q.Reopening? || q.Draining? || q.Retiring? || q.Closing? || q.Drained?)
    {
      assert ThreadOk(s, u);
    }
  }

  /** PostgreSQL has been started: the handle is published, or built or given up after it, or the slot is spent. */
  ghost predicate Ran(s: State) {
    s.state == Spent || s.instance.Some? || exists t :: RanFor(s, t)
  }

  ghost predicate RanFor(s: State, t: Thread) {
    var p := PhaseOf(s, t);
    p == Releasing(true) || (p.Building? && p.h in s.heap && s.heap[p.h].started)
  }

  /** A handle under construction is activated only with its backend. */
  ghost predicate ActiveStarted(s: State) {
    forall t :: PhaseOf(s, t).Building? && PhaseOf(s, t).h in s.heap && s.heap[PhaseOf(s, t).h].logicalActive ==>
      RanFor(s, t)
  }

  /** A step of init is taken by the one thread inside init. */
  lemma InitIsUnique(s: State, t: Thread, u: Thread)
    requires Inv(s) && InInit(PhaseOf(s, t)) && RanFor(s, u)
    ensures u == t && InitAlone(s)
  {
    assert ThreadOk(s, t);
  }

  predicate IsInitStep(a: Action) {
    a.Allocate? || a.StartBackend? || a.Activate? || a.Publish? || a.AbandonBuild? || a.Release?
  }

  lemma InitKeepsRan(s: State, t: Thread, a: Action, s': State)
    requires Inv(s) && Step(s, t, a, s') && IsInitStep(a) && ActiveStarted(s)
    ensures ActiveStarted(s') && (Ran(s') <==> Ran(s) || a.StartBackend?) && (a.StartBackend? ==> !Ran(s))
  {
    assert ThreadOk(s, t) && InInit(PhaseOf(s, t));
    PhaseFrame(s, t, s');
    forall u | RanFor(s, u) ensures u == t { InitIsUnique(s, t, u); }
    forall u | InInit(PhaseOf(s, u)) ensures u == t { assert ThreadOk(s, u); }
    assert RanFor(s, t) && (a.AbandonBuild? || a.Activate? || a.Allocate?) ==> RanFor(s', t);
    assert a.StartBackend? ==> RanFor(s', t);
  }

  predicate Started(p: Phase) { p.Building? || p.Releasing? }

  /** Steps outside init leave the roles in init alone. */
  lemma OutsidePhase(s: State, t: Thread, a: Action, s': State, u: Thread)
    requires Inv(s) && Step(s, t, a, s') && !IsInitStep(a) && (Started(PhaseOf(s', u)) || Started(PhaseOf(s, u)))
    ensures PhaseOf(s', u) == PhaseOf(s, u)
  {
    hide Inv, Unlocked, Streaming, OwnsClose, Current, MayTouch, RetireOutcome, ClaimOutcome, CallAdmitted;
  }

  /** And a handle under construction. */
  lemma OutsideHeap(s: State, t: Thread, a: Action, s': State, h: Address)
    requires Step(s, t, a, s') && !IsInitStep(a) && h in s.heap && s.instance == None && s.state == Active
    requires forall u :: PhaseOf(s, u).Reopening? || PhaseOf(s, u).Retiring? ==> s.instance.Some?
    requires forall u :: PhaseOf(s, u).Drained? ==> s.state == Spent
    ensures h in s'.heap && s'.heap[h].started == s.heap[h].started
    ensures s'.heap[h].logicalActive == s.heap[h].logicalActive
  {
    hide MayTouch, RetireOutcome, ClaimOutcome, CallAdmitted, OwnsClose;
  }

  lemma RolesNeedInstance(s: State, u: Thread)
    requires Inv(s)
    ensures PhaseOf(s, u).Reopening? || PhaseOf(s, u).Retiring? ==> s.instance.Some?
    ensures PhaseOf(s, u).Drained? ==> s.state == Spent
    ensures PhaseOf(s, u).Building? ==> InitAlone(s) && PhaseOf(s, u).h in s.heap
  {
    assert ThreadOk(s, u);
  }

  lemma OutsideFrame(s: State, t: Thread, a: Action, s': State, u: Thread)
    requires Inv(s) && Step(s, t, a, s') && !IsInitStep(a) && (Started(PhaseOf(s', u)) || Started(PhaseOf(s, u)))
    ensures PhaseOf(s', u) == PhaseOf(s, u) && (RanFor(s', u) <==> RanFor(s, u))
    ensures PhaseOf(s, u).Building? && PhaseOf(s, u).h in s'.heap ==>
      PhaseOf(s, u).h in s.heap && s'.heap[PhaseOf(s, u).h].logicalActive == s.heap[PhaseOf(s, u).h].logicalActive
  {
    hide Inv, Step;
    OutsidePhase(s, t, a, s', u);
    if PhaseOf(s, u).Building? {
      forall v { RolesNeedInstance(s, v); }
      OutsideHeap(s, t, a, s', PhaseOf(s, u).h);
    }
  }

  lemma OutsideKeepsRan(s: State, t: Thread, a: Action, s': State)
    requires Inv(s) && Step(s, t, a, s') && !IsInitStep(a) && ActiveStarted(s)
    ensures ActiveStarted(s') && (Ran(s) <==> Ran(s'))
  {
    hide Inv, Step;
    forall u | PhaseOf(s', u).Building? && PhaseOf(s', u).h in s'.heap && s'.heap[PhaseOf(s', u).h].logicalActive
      ensures RanFor(s', u)
    {
      OutsideFrame(s, t, a, s', u);
    }
    forall u ensures RanFor(s', u) <==> RanFor(s, u) {
      if RanFor(s, u) || RanFor(s', u) { OutsideFrame(s, t, a, s', u); }
    }
    OutsideSlot(s, t, a, s');
  }

  lemma OutsideSlot(s: State, t: Thread, a: Action, s': State)
    requires Inv(s) && Step(s, t, a, s') && !IsInitStep(a)
    ensures (s'.state == Spent || s'.instance.Some?) <==> (s.state == Spent || s.instance.Some?)
  {
    hide ThreadOk, RolesUnique, LeasesOk, LocksOk;
  }

  /** Some earlier step of the run started a backend. */
  predicate StartedBefore(r: Run, n: nat)
    requires n <= |r.steps|
  {
    exists i :: 0 <= i < n && r.steps[i].1 == StartBackend
  }

  lemma {:induction false} RunRan(r: Run, n: nat)
    requires IsRun(r) && n <= |r.steps|
    ensures ActiveStarted(r.states[n]) && (Ran(r.states[n]) <==> StartedBefore(r, n))
    ensures forall i, j :: 0 <= i < j < n ==> !(r.steps[i].1 == StartBackend && r.steps[j].1 == StartBackend)
  {
    hide Step, Inv, Ran, ActiveStarted;
    if n == 0 {
      NothingRan();
    } else {
      var s, t, a, s' := r.states[n - 1], r.steps[n - 1].0, r.steps[n - 1].1, r.states[n];
      RunRan(r, n - 1);
      RunKeeps(r, n - 1);
      RunStep(r, n - 1);
      if IsInitStep(a) { InitKeepsRan(s, t, a, s'); } else { OutsideKeepsRan(s, t, a, s'); }
      if StartedBefore(r, n - 1) {
        var i :| 0 <= i < n - 1 && r.steps[i].1 == StartBackend;
        assert StartedBefore(r, n);
      }
    }
  }

  lemma NothingRan()
    ensures ActiveStarted(INITIAL) && !Ran(INITIAL)
  {
  }

  /** Over every run, whatever fails, is closed or opened again: PostgreSQL is started at most once in a process. */
  lemma OneBackendPerProcess(r: Run, i: nat, j: nat)
    requires IsRun(r) && i < |r.steps| && j < |r.steps|
    requires r.steps[i].1 == StartBackend && r.steps[j].1 == StartBackend
    ensures i == j
  {
    RunRan(r, |r.steps|);
  }

  /** A slot whose init failed is free again if and only if no backend had been started, and spent otherwise. */
  lemma ReleaseOutcomes(r: Run, n: nat, t: Thread)
    requires IsRun(r) && n < |r.steps| && r.steps[n] == (t, Release)
    ensures n + 1 < |r.states|
    ensures r.states[n + 1].state == (if StartedBefore(r, n) then Spent else Unused)
    ensures r.states[n + 1].instance == None && !r.states[n + 1].retirement
  {
    RunRan(r, n);
    RunKeeps(r, n);
    RunStep(r, n);
    var s := r.states[n];
    assert ThreadOk(s, t) && InInit(PhaseOf(s, t));
    if PhaseOf(s, t).spent { assert RanFor(s, t); }
    if u :| RanFor(s, u) { InitIsUnique(s, t, u); }
  }

  predicate Advances(s: State, s': State, h: Address, g: nat) {
    && h in s.heap && h in s'.heap && g >= 1
    && s.heap[h].generation == g - 1 && s'.heap[h].generation == g
    && !s.heap[h].logicalActive && s'.heap[h].logicalActive
  }

  /** The generation of the current handle, and zero for any other pointer, freed ones included. */
  lemma GenerationRead(r: Run, n: nat, t: Thread, h: Address, g: nat)
    requires IsRun(r) && n < |r.steps| && r.steps[n] == (t, ReadGeneration(h, g))
    ensures var s := r.states[n];
      if h != 0 && s.state == Active && s.instance == Some(h) then h in s.heap && g == s.heap[h].generation >= 1
      else g == 0
  {
    RunKeeps(r, n);
    RunStep(r, n);
  }

  /** Generations are numbers of 64 bits, handed out one after the other, and only to a handle that is not active. */
  lemma GenerationFits(r: Run, n: nat, t: Thread, g: nat)
    requires IsRun(r) && n < |r.steps| && (r.steps[n] == (t, Activate(g)) || r.steps[n] == (t, ReopenCommit(g)))
    ensures n + 1 < |r.states|
    ensures 1 <= g <= 18_446_744_073_709_551_615
    ensures var s, s' := r.states[n], r.states[n + 1]; exists h :: Advances(s, s', h, g)
  {
    RunStep(r, n);
    assert Advances(r.states[n], r.states[n + 1], PhaseOf(r.states[n], t).h, g);
  }
}
