/**
 * The process registry as the C file keeps it: globals that each function updates
 * in place inside one critical section. Every method is one step of the transition
 * system in `Lifecycle`, so every interleaving of calls is one of its runs.
 */
module Registry {
  import opened Prelude
  import opened Lifecycle

  class ProcessRegistry {
    var state: GlobalState
    var instance: Option<Address>
    var activeCalls: nat
    var retirement: bool
    var owned: map<Thread, Address>      // the thread-local owned_retirement_handle; absent is NULL
    var heap: map<Address, Handle>
    ghost var leases: multiset<(Thread, Address)>
    ghost var phase: map<Thread, Phase>

    ghost function View(): State
      reads this
    {
      State(state, instance, activeCalls, retirement, owned, heap, leases, phase)
    }

    ghost predicate Valid()
      reads this
    {
      Inv(View())
    }

    predicate CurrentInstance(h: Address)
      reads this
    {
      state == Active && h != NULL && instance == Some(h)
    }

    predicate OwnsRetirement(t: Thread, h: Address)
      reads this
    {
      t in owned && owned[t] == h
    }

    constructor ()
      ensures Valid() && View() == INITIAL
    {
      state, instance, activeCalls, retirement := Unused, None, 0, false;
      owned, heap, leases, phase := map[], map[], multiset{}, map[];
      new;
      forall t ensures ThreadOk(View(), t) {}
    }

    method BeginHandleCall(t: Thread, h: Address) returns (ok: bool)
      requires Valid()
      modifies this
      ensures Valid() && BeginCallStep(old(View()), t, h, ok, View())
    {
      ok := false;
      if h == NULL || !CurrentInstance(h) {
        return;
      }
      if retirement && !OwnsRetirement(t, h) {
        return;
      }
      ghost var before := View();
      activeCalls := activeCalls + 1;
      leases := leases + multiset{(t, h)};
      ok := true;
      BeginCallKeeps(before, t, h, ok, View());
    }

    method TryBeginHandleCall(t: Thread, h: Address) returns (ok: bool)
      requires Valid()
      modifies this
      ensures Valid() && TryBeginCallStep(old(View()), t, h, ok, View())
    {
      ghost var before := View();
      ok := h != NULL && CurrentInstance(h) && !retirement;
      if ok {
        activeCalls := activeCalls + 1;
        leases := leases + multiset{(t, h)};
      }
      TryBeginCallKeeps(before, t, h, ok, View());
    }

    /** Callers pair this with a successful begin and have released the handle mutex. */
    method EndHandleCall(t: Thread, ghost h: Address)
      requires Valid() && (t, h) in leases && !HoldsLock(View(), t, h)
      modifies this
      ensures Valid() && EndCallStep(old(View()), t, h, View())
    {
      ghost var before := View();
      if activeCalls > 0 {
        activeCalls := activeCalls - 1;
      }
      leases := leases - multiset{(t, h)};
      EndCallKeeps(before, t, h, View());
    }

    /** One pass of the loop; `RetireWait` is a condition wait, `RetireInstalled` leaves the drain to do. */
    method BeginHandleRetirement(t: Thread, h: Address) returns (r: RetireResult)
      requires Valid() && PhaseOf(View(), t) == Idle
      modifies this
      ensures Valid() && RetireStep(old(View()), t, h, r, View())
    {
      ghost var before := View();
      if h == NULL {
        return RetireNull;
      }
      if !CurrentInstance(h) {
        return RetireStale;
      }
      if retirement {
        if OwnsRetirement(t, h) {
          return RetireNested;
        }
        return RetireWait;
      }
      if heap[h].lock.Some? {
        return RetireWait;
      }
      if heap[h].streaming {
        return RetireBusy;
      }
      retirement := true;
      owned := owned[t := h];
      phase := phase[t := Draining(h)];
      r := RetireInstalled;
      RetireKeeps(before, t, h, r, View());
    }

    method EndHandleRetirement(t: Thread)
      requires Valid()
      requires (PhaseOf(View(), t).Retiring? && !HoldsLock(View(), t, PhaseOf(View(), t).h)) ||
               PhaseOf(View(), t).Finishing?
      requires forall h :: (t, h) !in leases
      modifies this
      ensures Valid() && RetireEndStep(old(View()), t, View())
    {
      ghost var before := View();
      if retirement {
        retirement := false;
      }
      owned := owned - {t};
      phase := phase[t := Idle];
      RetireEndKeeps(before, t, View());
    }

    method AcquireGlobalInstance(t: Thread) returns (a: AcquireResult)
      requires Valid() && PhaseOf(View(), t) == Idle
      modifies this
      ensures Valid() && AcquireStep(old(View()), t, a, View())
    {
      ghost var before := View();
      if retirement {
        return AcquireWait;
      }
      if state == Active {
        if instance.Some? {
          var h := instance.value;
          if heap[h].lock.Some? {
            return AcquireWait;
          }
          heap := heap[h := heap[h].(lock := Some(t))];
          phase := phase[t := Reopening(h)];
          a := AcquireReopen(h);
          AcquireKeeps(before, t, a, View());
          return;
        }
        return AcquireRefused;
      }
      if state == Spent {
        return AcquireRefused;
      }
      state := Active;
      phase := phase[t := Reserving];
      a := AcquireReserved;
      ReserveKeeps(before, t, View());
    }

    method PublishGlobalInstance(t: Thread, h: Address)
      requires Valid() && PhaseOf(View(), t) == Building(h)
      requires h in heap && heap[h].logicalActive && !HoldsLock(View(), t, h)
      modifies this
      ensures Valid() && PublishStep(old(View()), t, View())
    {
      ghost var before := View();
      if state == Active {
        instance := Some(h);
      }
      phase := phase[t := Idle];
      PublishKeeps(before, t, View());
    }

    method ReleaseGlobalInstance(t: Thread, spent: bool)
      requires Valid() && PhaseOf(View(), t) == Releasing(spent)
      modifies this
      ensures Valid() && ReleaseStep(old(View()), t, View())
    {
      ghost var before := View();
      state := if spent then Spent else Unused;
      instance := None;
      retirement := false;
      phase := phase[t := Idle];
      ReleaseKeeps(before, t, View());
    }

    method LogicalGeneration(t: Thread, h: Address) returns (g: nat)
      requires Valid() && Unlocked(View(), h)
      ensures ReadGenerationStep(View(), h, g, View())
    {
      g := 0;
      if h != NULL && state == Active && instance == Some(h) {
        g := heap[h].generation;
      }
    }

    /** One pass of the loop; `ClaimWait` is a condition wait or a wait for the handle mutex. */
    method ClaimForClose(t: Thread, who: ClaimBy) returns (c: ClaimResult)
      requires Valid()
      requires PhaseOf(View(), t) == Idle ||
               (PhaseOf(View(), t).Retiring? && PhaseOf(View(), t).h in heap && heap[PhaseOf(View(), t).h].poisoned &&
                who == ByHandle(PhaseOf(View(), t).h) && !HoldsLock(View(), t, PhaseOf(View(), t).h))
      modifies this
      ensures Valid() && ClaimStep(old(View()), t, who, c, View())
    {
      ghost var before := View();
      if instance.Some? { InstanceLives(View()); }
      hide Inv;
      if retirement && !(instance.Some? && OwnsRetirement(t, instance.value)) {
        return ClaimWait;
      }
      if state == Spent {
        return ClaimSpent;
      }
      if state != Active || instance == None {
        return ClaimStale;
      }
      var current := instance.value;
      if heap[current].lock.Some? {
        return ClaimWait;
      }
      var ownsClose :=
        match who
        case ByGeneration(g) => g == heap[current].generation
        case ByHandle(h) => h == NULL || h == current;
      if !ownsClose {
        return ClaimStale;
      }
      if heap[current].streaming {
        return ClaimBusy;
      }
      instance := None;
      state := Spent;
      if retirement {
        retirement := false;
        owned := owned - {t};
      }
      phase := phase[t := Closing(current, PhaseOf(before, t).Retiring?)];
      c := Claimed(current);
      ClaimKeeps(before, t, who, c, View());
    }
  }
}
