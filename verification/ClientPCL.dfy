/** The claim listener's two methods, taking their locks and reading the application state step by step. */
module ClientPCLs {
  import opened Options
  import opened ClaimMonitor

  predicate IsEnvironment(e: Event) {
    e == Claim || e == Notify || e == PolicyChange
  }

  /** What the threads do, apart from the environment. */
  function ThreadSteps(es: seq<Event>): seq<Event> {
    if es == [] then []
    else (if IsThreadStep(es[0]) then [es[0]] else []) + ThreadSteps(es[1..])
  }

  lemma ThreadHead(es: seq<Event>)
    requires es != []
    ensures ThreadSteps(es) == (if IsThreadStep(es[0]) then [es[0]] else []) + ThreadSteps(es[1..])
  {
  }

  lemma {:induction false} ThreadStepsConcat(es: seq<Event>, fs: seq<Event>)
    ensures ThreadSteps(es + fs) == ThreadSteps(es) + ThreadSteps(fs)
  {
    if es == [] {
      assert es + fs == fs;
    } else {
      assert (es + fs)[1..] == es[1..] + fs;
      ThreadStepsConcat(es[1..], fs);
      ThreadHead(es);
      ThreadHead(es + fs);
      hide ThreadSteps;
      var first := if IsThreadStep(es[0]) then [es[0]] else [];
      assert first + (ThreadSteps(es[1..]) + ThreadSteps(fs)) == (first + ThreadSteps(es[1..])) + ThreadSteps(fs);
    }
  }

  lemma OneThreadStep(e: Event)
    ensures ThreadSteps([e]) == if IsThreadStep(e) then [e] else []
  {
    assert [e][1..] == [];
  }

  /** A run goes on with a thread's step. */
  lemma Append(s: State, es: seq<Event>, t: State, e: Event)
    requires Run(s, es) == Some(t) && Enabled(t, e) && IsThreadStep(e)
    ensures Run(s, es + [e]) == Some(Step(t, e)) && ThreadSteps(es + [e]) == ThreadSteps(es) + [e]
  {
    RunSnoc(s, es, t, e);
    ThreadStepsConcat(es, [e]);
    OneThreadStep(e);
  }

  lemma FirstStep(s: State, e: Event)
    requires Enabled(s, e) && IsThreadStep(e)
    ensures Run(s, [e]) == Some(Step(s, e)) && ThreadSteps([e]) == [e]
  {
    OneThreadStep(e);
    assert [e][1..] == [];
  }

  /** Of what the environment attempts, the steps that are possible in turn. */
  function Feasible(s: State, due: seq<Event>): (es: seq<Event>)
    ensures forall e :: e in es ==> IsEnvironment(e)
    decreases |due|
  {
    if due == [] then []
    else if IsEnvironment(due[0]) && Enabled(s, due[0]) then [due[0]] + Feasible(Step(s, due[0]), due[1..])
    else Feasible(s, due[1..])
  }

  lemma FeasibleHead(s: State, due: seq<Event>)
    ensures Feasible(s, due) ==
            if due == [] then []
            else if IsEnvironment(due[0]) && Enabled(s, due[0]) then [due[0]] + Feasible(Step(s, due[0]), due[1..])
            else Feasible(s, due[1..])
  {
  }

  lemma NothingRun(s: State)
    ensures Run(s, []) == Some(s)
  {
  }

  lemma {:induction false} NoThreadSteps(es: seq<Event>)
    requires forall e :: e in es ==> IsEnvironment(e)
    ensures ThreadSteps(es) == []
  {
    if es != [] {
      assert es[0] in es;
      NoThreadSteps(es[1..]);
    }
  }

  /** What the environment attempts at each point where a thread can be interrupted. */
  type Environment = nat -> seq<Event>

  class ClientPCL {
    /** The holder of the mutex. */
    var holder: Option<Thread>
    /** The application state is CLAIMED. */
    var claimed: bool
    var owed: bool
    var waiter: WaiterPc
    var callbacks: seq<CallbackPc>
    var clock: nat
    ghost var missed: bool
    ghost var heard: bool
    ghost var waited: bool
    ghost var spurious: bool

    ghost function Abstract(): State
      reads this
    {
      State(holder, claimed, owed, waiter, callbacks, missed, heard, waited, spurious)
    }

    constructor ()
      ensures Abstract() == INITIAL
    {
      holder, claimed, owed, waiter, callbacks, clock := None, false, false, WStart, [], 0;
      missed, heard, waited, spurious := false, false, false, false;
    }

    /** The environment takes its due steps; a claim can happen once, a notification only when owed. */
    method Interleave(env: Environment) returns (ghost es: seq<Event>)
      modifies this
      ensures Run(old(Abstract()), es) == Some(Abstract())
      ensures es == Feasible(old(Abstract()), env(old(clock))) && clock == old(clock) + 1
      ensures ThreadSteps(es) == []
      ensures holder == old(holder) && waiter == old(waiter)
      ensures old(claimed) ==> claimed
      ensures old(callbacks) <= callbacks
    {
      hide Run, Feasible;
      es := [];
      var due := env(clock);
      ghost var start := Abstract();
      NothingRun(start);
      assert due[0..] == due;
      for k := 0 to |due|
        invariant Run(start, es) == Some(Abstract()) && clock == old(clock)
        invariant Feasible(start, due) == es + Feasible(Abstract(), due[k..])
        invariant holder == old(holder) && waiter == old(waiter)
        invariant old(claimed) ==> claimed
        invariant old(callbacks) <= callbacks
      {
        ghost var before := Abstract();
        FeasibleHead(before, due[k..]);
        assert due[k..][1..] == due[k + 1..];
        var possible := Attempt(due[k]);
        if possible {
          RunSnoc(start, es, before, due[k]);
          es := es + [due[k]];
        }
      }
      FeasibleHead(Abstract(), due[|due|..]);
      clock := clock + 1;
      NoThreadSteps(es);
    }

    /** One step of the environment, if it is one and is possible. */
    method Attempt(e: Event) returns (possible: bool)
      modifies this`claimed, this`owed, this`callbacks
      ensures possible == (IsEnvironment(e) && Enabled(old(Abstract()), e))
      ensures Abstract() == if possible then Step(old(Abstract()), e) else old(Abstract())
      ensures old(claimed) ==> claimed
      ensures old(callbacks) <= callbacks
    {
      possible := true;
      if e == Claim && !claimed {
        claimed, owed := true, true;
      } else if e == Notify && owed {
        owed := false;
        callbacks := callbacks + [CStart];
      } else if e == PolicyChange {
        callbacks := callbacks + [CStart];
      } else {
        possible := false;
      }
    }

    /**
     * The policy callback, run by thread `i` once the mutex is free. It wakes a blocked waiter exactly when
     * it reads the state successfully and finds CLAIMED; `ok` is the outcome of that read.
     */
    method PolicyChanged(i: nat, ok: bool, env: Environment) returns (ghost es: seq<Event>)
      requires i < |callbacks| && callbacks[i] == CStart && holder == None
      modifies this
      ensures Run(old(Abstract()), es) == Some(Abstract())
      ensures holder == None && i < |callbacks| && callbacks[i] == CDone
      ensures old(waiter) == WBlocked && ok && old(claimed) ==> waiter == WWoken
      ensures old(waiter) != WBlocked || !ok || !claimed ==> waiter == old(waiter)
      ensures var signals := CallbackSignals(i) in ThreadSteps(es);
              && (signals ==> ok && claimed) && (ok && old(claimed) ==> signals)
              && ThreadSteps(es) == [CallbackLocks(i), CallbackReads(i, ok)] +
                                    (if signals then [CallbackSignals(i)] else []) + [CallbackUnlocks(i)]
              && clock == old(clock) + if signals then 2 else 1
    {
      ghost var start := Abstract();
      es := EnterCallback(i, env);
      hide Run, Enabled, ThreadSteps;
      ghost var signalled := ReadAndSignal(i, ok, env);
      RunConcat(start, es, signalled);
      ThreadStepsConcat(es, signalled);
      es := es + signalled;
      ghost var left := LeaveCallback(i);
      RunConcat(start, es, left);
      ThreadStepsConcat(es, left);
      es := es + left;
    }

    /** The callback takes the mutex. */
    method EnterCallback(i: nat, env: Environment) returns (ghost es: seq<Event>)
      requires i < |callbacks| && callbacks[i] == CStart && holder == None
      modifies this
      ensures Run(old(Abstract()), es) == Some(Abstract())
      ensures holder == Some(Callback(i)) && i < |callbacks| && callbacks[i] == CLocked
      ensures waiter == old(waiter) && (old(claimed) ==> claimed)
      ensures ThreadSteps(es) == [CallbackLocks(i)] && clock == old(clock) + 1
    {
      ghost var start := Abstract();
      holder := Some(Callback(i));
      callbacks := callbacks[i := CLocked];
      RunSnoc(start, [], start, CallbackLocks(i));
      es := [] + [CallbackLocks(i)];
      OneThreadStep(CallbackLocks(i));
      ghost var gap := Interleave(env);
      RunConcat(start, es, gap);
      ThreadStepsConcat(es, gap);
      es := es + gap;
    }

    /** The callback releases the mutex and ends. */
    method LeaveCallback(i: nat) returns (ghost es: seq<Event>)
      requires i < |callbacks| && callbacks[i] == CUnlocking
      modifies this
      ensures Run(old(Abstract()), es) == Some(Abstract())
      ensures holder == None && callbacks == old(callbacks)[i := CDone]
      ensures waiter == old(waiter) && claimed == old(claimed)
      ensures ThreadSteps(es) == [CallbackUnlocks(i)] && clock == old(clock)
    {
      ghost var start := Abstract();
      OneThreadStep(CallbackUnlocks(i));
      holder := None;
      callbacks := callbacks[i := CDone];
      RunSnoc(start, [], start, CallbackUnlocks(i));
      es := [] + [CallbackUnlocks(i)];
    }

    /** The part of the callback that runs under the mutex. */
    method ReadAndSignal(i: nat, ok: bool, env: Environment) returns (ghost es: seq<Event>)
      requires i < |callbacks| && callbacks[i] == CLocked && holder == Some(Callback(i))
      modifies this
      ensures Run(old(Abstract()), es) == Some(Abstract())
      ensures holder == old(holder) && i < |callbacks| && callbacks[i] == CUnlocking
      ensures waiter == if old(waiter) == WBlocked && ok && old(claimed) then WWoken else old(waiter)
      ensures old(claimed) ==> claimed
      ensures ThreadSteps(es) == [CallbackReads(i, ok)] + if ok && old(claimed) then [CallbackSignals(i)] else []
      ensures clock == old(clock) + if ok && old(claimed) then 1 else 0
    {
      hide Run, ThreadSteps, Enabled;
      ghost var start := Abstract();
      var signals := ReadState(i, ok);
      FirstStep(start, CallbackReads(i, ok));
      es := [CallbackReads(i, ok)];
      if signals {
        ghost var gap := Interleave(env);
        RunConcat(start, es, gap);
        ThreadStepsConcat(es, gap);
        es := es + gap;
        ghost var before := Abstract();
        Signal(i);
        Append(start, es, before, CallbackSignals(i));
        es := es + [CallbackSignals(i)];
      }
    }

    /** The callback reads the application state. */
    method ReadState(i: nat, ok: bool) returns (signals: bool)
      requires i < |callbacks| && callbacks[i] == CLocked
      modifies this`heard, this`missed, this`callbacks
      ensures signals == (ok && claimed)
      ensures callbacks == old(callbacks)[i := if signals then CSignalling else CUnlocking]
      ensures Enabled(old(Abstract()), CallbackReads(i, ok))
      ensures Abstract() == Step(old(Abstract()), CallbackReads(i, ok))
    {
      signals := ok && claimed;
      if signals {
        heard := true;
        callbacks := callbacks[i := CSignalling];
      } else {
        missed := missed || (!ok && claimed);
        callbacks := callbacks[i := CUnlocking];
      }
    }

    /** The callback signals the condition. */
    method Signal(i: nat)
      requires i < |callbacks| && callbacks[i] == CSignalling
      modifies this`callbacks, this`waiter
      ensures Enabled(old(Abstract()), CallbackSignals(i))
      ensures Abstract() == Step(old(Abstract()), CallbackSignals(i))
      ensures callbacks == old(callbacks)[i := CUnlocking]
      ensures waiter == if old(waiter) == WBlocked then WWoken else old(waiter)
    {
      callbacks := callbacks[i := CUnlocking];
      if waiter == WBlocked {
        waiter := WWoken;
      }
    }

    /** The waiter up to its return or to the wait; `waitOk` tells whether the wait itself works. */
    method WaitForClaimedState(ok: bool, waitOk: bool, env: Environment) returns (status: Option<int>, ghost es: seq<Event>)
      requires waiter == WStart && holder == None
      modifies this
      ensures Run(old(Abstract()), es) == Some(Abstract())
      ensures holder == None
      ensures if status.Some? then waiter == WDone(status.value) else waiter == WBlocked
      ensures status == Some(ER_OK) ==> ok && claimed
      ensures ok && old(claimed) ==> status == Some(ER_OK)
      ensures status == None ==> ok && waitOk
      ensures status in [None, Some(ER_OK), Some(ER_FAIL)] && clock == old(clock) + 2
      ensures ThreadSteps(es) == [WaiterLocks, WaiterReads(ok)] +
                                 if status == None then [WaiterWaits]
                                 else if ok && status == Some(ER_FAIL) then [WaitFails, WaiterUnlocks]
                                 else [WaiterUnlocks]
      ensures ok && status == Some(ER_FAIL) ==> !waitOk
    {
      hide Run, ThreadSteps, Enabled;
      ghost var start := Abstract();
      es := LockAndRead(ok, env);
      ghost var gap := Interleave(env);
      RunConcat(start, es, gap);
      ThreadStepsConcat(es, gap);
      es := es + gap;
      ghost var before := Abstract();
      if waiter == WDeciding {
        Wait(waitOk);
        Append(start, es, before, if waitOk then WaiterWaits else WaitFails);
        es := es + [if waitOk then WaiterWaits else WaitFails];
        if waitOk {
          return None, es;
        }
        before := Abstract();
      }
      status := Some(waiter.status);
      Unlock();
      Append(start, es, before, WaiterUnlocks);
      es := es + [WaiterUnlocks];
    }

    /** The waiter waits on the condition, or fails to. */
    method Wait(waitOk: bool)
      requires waiter == WDeciding
      modifies this`holder, this`waiter, this`waited
      ensures waiter == (if waitOk then WBlocked else WReturning(ER_FAIL)) && (waitOk ==> holder == None)
      ensures var e := if waitOk then WaiterWaits else WaitFails;
              Enabled(old(Abstract()), e) && Abstract() == Step(old(Abstract()), e)
    {
      if waitOk {
        holder, waiter, waited := None, WBlocked, true;
      } else {
        waiter := WReturning(ER_FAIL);
      }
    }

    /** The waiter releases the mutex and returns. */
    method Unlock()
      requires waiter.WReturning?
      modifies this`holder, this`waiter
      ensures holder == None && waiter == WDone(old(waiter.status))
      ensures Enabled(old(Abstract()), WaiterUnlocks) && Abstract() == Step(old(Abstract()), WaiterUnlocks)
    {
      holder, waiter := None, WDone(waiter.status);
    }

    /** The waiter takes the mutex and reads the application state. */
    method LockAndRead(ok: bool, env: Environment) returns (ghost es: seq<Event>)
      requires waiter == WStart && holder == None
      modifies this
      ensures Run(old(Abstract()), es) == Some(Abstract())
      ensures holder == Some(Waiter)
      ensures waiter == if !ok then WReturning(ER_FAIL) else if claimed then WReturning(ER_OK) else WDeciding
      ensures old(claimed) ==> claimed
      ensures ThreadSteps(es) == [WaiterLocks, WaiterReads(ok)] && clock == old(clock) + 1
    {
      hide Run, ThreadSteps, Enabled;
      ghost var start := Abstract();
      Lock();
      FirstStep(start, WaiterLocks);
      es := [WaiterLocks];
      ghost var gap := Interleave(env);
      RunConcat(start, es, gap);
      ThreadStepsConcat(es, gap);
      es := es + gap;
      ghost var before := Abstract();
      Decide(ok);
      Append(start, es, before, WaiterReads(ok));
      es := es + [WaiterReads(ok)];
    }

    method Lock()
      requires waiter == WStart && holder == None
      modifies this`holder, this`waiter
      ensures holder == Some(Waiter) && waiter == WLocked
      ensures Enabled(old(Abstract()), WaiterLocks) && Abstract() == Step(old(Abstract()), WaiterLocks)
    {
      holder, waiter := Some(Waiter), WLocked;
    }

    /** The waiter reads the application state and returns or goes on to wait. */
    method Decide(ok: bool)
      requires waiter == WLocked
      modifies this`waiter
      ensures waiter == if !ok then WReturning(ER_FAIL) else if claimed then WReturning(ER_OK) else WDeciding
      ensures Enabled(old(Abstract()), WaiterReads(ok)) && Abstract() == Step(old(Abstract()), WaiterReads(ok))
    {
      if !ok {
        waiter := WReturning(ER_FAIL);
      } else if claimed {
        waiter := WReturning(ER_OK);
      } else {
        waiter := WDeciding;
      }
    }

    /** The waiter after it was signalled, once the mutex is free again. */
    method ReturnFromWait() returns (status: int, ghost es: seq<Event>)
      requires waiter == WWoken && holder == None
      modifies this
      ensures Run(old(Abstract()), es) == Some(Abstract())
      ensures status == ER_OK && waiter == WDone(status) && holder == None && claimed == old(claimed)
      ensures es == [WaiterReacquires, WaiterUnlocks]
    {
      ghost var start := Abstract();
      holder, waiter := Some(Waiter), WReturning(ER_OK);
      RunSnoc(start, [], start, WaiterReacquires);
      ghost var held := Abstract();
      status := ER_OK;
      holder, waiter := None, WDone(status);
      RunSnoc(start, [WaiterReacquires], held, WaiterUnlocks);
      es := [WaiterReacquires] + [WaiterUnlocks];
    }
  }
}
