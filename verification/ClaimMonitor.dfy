/**
 * Waiting to be claimed: one waiter, any number of policy callbacks, a lock and a condition with a single,
 * un-looped wait. Every event is one atomic step of one thread or of the environment.
 */
module ClaimMonitor {
  import opened Options

  const ER_OK := 0
  const ER_FAIL := 1

  datatype Thread = Waiter | Callback(id: nat)

  /** Where the waiter stands; between Locked and Returning it holds the lock except while Blocked or Woken. */
  datatype WaiterPc =
    | WStart
    | WLocked
    | WDeciding
    | WBlocked
    | WWoken
    | WReturning(status: int)
    | WDone(status: int)

  datatype CallbackPc = CStart | CLocked | CSignalling | CUnlocking | CDone

  /**
   * `owed` is a callback the environment still has to start for the claim. The last four fields are history:
   * after the claim, a callback failed to read the state, or read it; the waiter went to wait, or woke from
   * the wait without a signal.
   */
  datatype State = State(
    lock: Option<Thread>,
    claimed: bool,
    owed: bool,
    waiter: WaiterPc,
    callbacks: seq<CallbackPc>,
    missed: bool,
    heard: bool,
    waited: bool,
    spurious: bool)

  const INITIAL := State(None, false, false, WStart, [], false, false, false, false)

  datatype Event =
    | WaiterLocks
    | WaiterReads(ok: bool)
    | WaiterWaits
    | WaitFails
    | WaiterReacquires
    | WaiterUnlocks
    | CallbackLocks(id: nat)
    | CallbackReads(id: nat, ok: bool)
    | CallbackSignals(id: nat)
    | CallbackUnlocks(id: nat)
    | Claim
    | Notify
    | PolicyChange
    | SpuriousWake

  predicate At(s: State, i: nat, pc: CallbackPc) {
    i < |s.callbacks| && s.callbacks[i] == pc
  }

  predicate Enabled(s: State, e: Event) {
    match e
    case WaiterLocks => s.waiter == WStart && s.lock == None
    case WaiterReads(_) => s.waiter == WLocked
    case WaiterWaits => s.waiter == WDeciding
    case WaitFails => s.waiter == WDeciding
    case WaiterReacquires => s.waiter == WWoken && s.lock == None
    case WaiterUnlocks => s.waiter.WReturning?
    case CallbackLocks(i) => At(s, i, CStart) && s.lock == None
    case CallbackReads(i, _) => At(s, i, CLocked)
    case CallbackSignals(i) => At(s, i, CSignalling)
    case CallbackUnlocks(i) => At(s, i, CUnlocking)
    case Claim => !s.claimed
    case Notify => s.owed
    case PolicyChange => true
    case SpuriousWake => s.waiter == WBlocked
  }

  function Step(s: State, e: Event): State
    requires Enabled(s, e)
  {
    match e
    case WaiterLocks => s.(lock := Some(Waiter), waiter := WLocked)
    case WaiterReads(ok) =>
      s.(waiter := if !ok then WReturning(ER_FAIL) else if s.claimed then WReturning(ER_OK) else WDeciding)
    case WaiterWaits => s.(lock := None, waiter := WBlocked, waited := true)
    case WaitFails => s.(waiter := WReturning(ER_FAIL))
    case WaiterReacquires => s.(lock := Some(Waiter), waiter := WReturning(ER_OK))
    case WaiterUnlocks => s.(lock := None, waiter := WDone(s.waiter.status))
    case CallbackLocks(i) => s.(lock := Some(Callback(i)), callbacks := s.callbacks[i := CLocked])
    case CallbackReads(i, ok) =>
      s.(callbacks := s.callbacks[i := if ok && s.claimed then CSignalling else CUnlocking],
         missed := s.missed || (!ok && s.claimed),
         heard := s.heard || (ok && s.claimed))
    case CallbackSignals(i) =>
      s.(callbacks := s.callbacks[i := CUnlocking], waiter := if s.waiter == WBlocked then WWoken else s.waiter)
    case CallbackUnlocks(i) => s.(lock := None, callbacks := s.callbacks[i := CDone])
    case Claim => s.(claimed := true, owed := true)
    case Notify => s.(owed := false, callbacks := s.callbacks + [CStart])
    case PolicyChange => s.(callbacks := s.callbacks + [CStart])
    case SpuriousWake => s.(waiter := WWoken, spurious := true)
  }

  function Run(s: State, es: seq<Event>): Option<State>
    decreases |es|
  {
    if es == [] then Some(s)
    else if Enabled(s, es[0]) then Run(Step(s, es[0]), es[1..])
    else None
  }

  lemma {:induction false} RunConcat(s: State, es: seq<Event>, fs: seq<Event>)
    requires Run(s, es).Some?
    ensures Run(s, es + fs) == Run(Run(s, es).value, fs)
    decreases |es|
  {
    if es == [] {
      assert es + fs == fs;
    } else {
      assert (es + fs)[1..] == es[1..] + fs;
      RunConcat(Step(s, es[0]), es[1..], fs);
    }
  }

  lemma RunSnoc(s: State, es: seq<Event>, t: State, e: Event)
    requires Run(s, es) == Some(t) && Enabled(t, e)
    ensures Run(s, es + [e]) == Some(Step(t, e))
  {
    RunConcat(s, es, [e]);
    assert Run(t, [e]) == Run(Step(t, e), [e][1..]);
  }

  ghost predicate Reached(es: seq<Event>, s: State) {
    Run(INITIAL, es) == Some(s)
  }

  /** Inside the region a thread has to hold the lock for. */
  predicate InCritical(s: State, t: Thread) {
    match t
    case Waiter => s.waiter == WLocked || s.waiter == WDeciding || s.waiter.WReturning?
    case Callback(i) => At(s, i, CLocked) || At(s, i, CSignalling) || At(s, i, CUnlocking)
  }

  /** A callback that can still signal. */
  predicate CanSignal(pc: CallbackPc) {
    pc == CStart || pc == CLocked || pc == CSignalling
  }

  /** The claim will still be signalled: its callback is owed, or some callback has yet to signal. */
  ghost predicate SignalPending(s: State) {
    s.owed || exists i :: 0 <= i < |s.callbacks| && CanSignal(s.callbacks[i])
  }

  /** The waiter is on its way to reporting success, or has reported it. */
  predicate PastWait(s: State) {
    s.waiter in {WWoken, WReturning(ER_OK), WDone(ER_OK)}
  }

  ghost predicate Invariant(s: State) {
    && (forall t :: InCritical(s, t) <==> s.lock == Some(t))
    && (forall i :: 0 <= i < |s.callbacks| && s.callbacks[i] == CSignalling ==> s.claimed)
    && (s.owed ==> s.claimed)
    && (s.claimed && (s.waiter == WDeciding || s.waiter == WBlocked) && !s.missed ==> SignalPending(s))
    && (PastWait(s) ==> s.claimed || s.spurious)
    && (s.spurious ==> PastWait(s))
    && HearingInvariant(s)
  }

  /** A waiter that waits has not been left behind by a callback that read CLAIMED: it was, or will be, signalled. */
  ghost predicate HearingInvariant(s: State) {
    && (forall i :: 0 <= i < |s.callbacks| && s.callbacks[i] == CSignalling ==> s.heard)
    && (s.heard ==> s.claimed)
    && (s.waiter == WDeciding ==> !s.heard)
    && (s.waiter in {WStart, WLocked, WDeciding} ==> !s.waited)
    && (s.waiter == WBlocked ==> s.waited)
    && (s.waiter == WBlocked && s.heard ==> exists i :: 0 <= i < |s.callbacks| && s.callbacks[i] == CSignalling)
    && (s.waited && s.waiter != WBlocked && !s.spurious ==> s.heard)
  }

  lemma WaiterKeepsInvariant(s: State, e: Event)
    requires Invariant(s) && Enabled(s, e)
    requires e in {WaiterLocks, WaiterReads(true), WaiterReads(false), WaiterWaits, WaitFails,
                   WaiterReacquires, WaiterUnlocks, SpuriousWake}
    ensures Invariant(Step(s, e))
  {
    var t := Step(s, e);
    assert InCritical(s, Waiter) <==> s.lock == Some(Waiter);
    assert forall i: nat :: InCritical(t, Callback(i)) == InCritical(s, Callback(i));
    if SignalPending(s) {
      assert SignalPending(t);
    }
  }

  lemma CallbackKeepsInvariant(s: State, e: Event)
    requires Invariant(s) && Enabled(s, e)
    requires e.CallbackLocks? || e.CallbackReads? || e.CallbackSignals? || e.CallbackUnlocks?
    ensures Invariant(Step(s, e))
  {
    var t, i := Step(s, e), e.id;
    assert InCritical(s, Callback(i)) <==> s.lock == Some(Callback(i));
    assert InCritical(s, Waiter) <==> s.lock == Some(Waiter);
    forall j: nat
      ensures j != i ==> InCritical(t, Callback(j)) == InCritical(s, Callback(j))
    {
    }
    CallbackKeepsPending(s, e);
    CallbackKeepsHearing(s, e);
  }

  lemma CallbackKeepsHearing(s: State, e: Event)
    requires Invariant(s) && Enabled(s, e)
    requires e.CallbackLocks? || e.CallbackReads? || e.CallbackSignals? || e.CallbackUnlocks?
    ensures HearingInvariant(Step(s, e))
  {
    var t, i := Step(s, e), e.id;
    assert InCritical(s, Waiter) <==> s.lock == Some(Waiter);
    assert InCritical(s, Callback(i)) <==> s.lock == Some(Callback(i));
    if s.waiter == WBlocked && s.heard {
      SignallerHoldsLock(s);
    }
    assert t.waiter == WBlocked && t.heard ==> t.callbacks[i] == CSignalling;
  }

  lemma SignallerHoldsLock(s: State)
    requires Invariant(s) && s.waiter == WBlocked && s.heard
    ensures s.lock.Some? && s.lock.value.Callback? && At(s, s.lock.value.id, CSignalling)
  {
    var j :| 0 <= j < |s.callbacks| && s.callbacks[j] == CSignalling;
    assert InCritical(s, Callback(j));
  }

  lemma CallbackKeepsPending(s: State, e: Event)
    requires Invariant(s) && Enabled(s, e)
    requires e.CallbackLocks? || e.CallbackReads? || e.CallbackSignals? || e.CallbackUnlocks?
    ensures var t := Step(s, e);
            t.claimed && (t.waiter == WDeciding || t.waiter == WBlocked) && !t.missed ==> SignalPending(t)
  {
    var t, i := Step(s, e), e.id;
    assert InCritical(s, Waiter) <==> s.lock == Some(Waiter);
    assert InCritical(s, Callback(i)) <==> s.lock == Some(Callback(i));
    if t.claimed && (t.waiter == WDeciding || t.waiter == WBlocked) && !t.missed && !t.owed {
      var j :| 0 <= j < |s.callbacks| && CanSignal(s.callbacks[j]);
      if j != i {
        assert CanSignal(t.callbacks[j]);
      } else {
        assert CanSignal(t.callbacks[i]);
      }
    }
  }

  lemma EnvironmentKeepsInvariant(s: State, e: Event)
    requires Invariant(s) && Enabled(s, e) && (e == Claim || e == Notify || e == PolicyChange)
    ensures Invariant(Step(s, e))
  {
    var t := Step(s, e);
    assert forall i :: 0 <= i < |s.callbacks| ==> t.callbacks[i] == s.callbacks[i];
    forall th
      ensures InCritical(t, th) == InCritical(s, th)
    {
    }
    if e == Notify || e == PolicyChange {
      assert CanSignal(t.callbacks[|s.callbacks|]);
    }
  }

  lemma StepKeepsInvariant(s: State, e: Event)
    requires Invariant(s) && Enabled(s, e)
    ensures Invariant(Step(s, e))
  {
    match e
    case CallbackLocks(_) => CallbackKeepsInvariant(s, e);
    case CallbackReads(_, _) => CallbackKeepsInvariant(s, e);
    case CallbackSignals(_) => CallbackKeepsInvariant(s, e);
    case CallbackUnlocks(_) => CallbackKeepsInvariant(s, e);
    case Claim => EnvironmentKeepsInvariant(s, e);
    case Notify => EnvironmentKeepsInvariant(s, e);
    case PolicyChange => EnvironmentKeepsInvariant(s, e);
    case _ => WaiterKeepsInvariant(s, e);
  }

  lemma {:induction false} RunKeepsInvariant(s: State, es: seq<Event>)
    requires Invariant(s) && Run(s, es).Some?
    ensures Invariant(Run(s, es).value)
    decreases |es|
  {
    if es != [] {
      StepKeepsInvariant(s, es[0]);
      RunKeepsInvariant(Step(s, es[0]), es[1..]);
    }
  }

  /**
   * No lost wake-up: in every reachable state a waiter blocked although CLAIMED is reached has a callback
   * coming that has not signalled yet, unless a callback failed to read the state after the claim.
   */
  lemma NoLostWakeUp(es: seq<Event>, s: State)
    requires Reached(es, s)
    ensures s.claimed && s.waiter == WBlocked && !s.missed ==> SignalPending(s)
  {
    RunKeepsInvariant(INITIAL, es);
  }

  /** At most one thread is inside at a time, and no thread that has left or waits holds the lock. */
  lemma MutualExclusion(es: seq<Event>, s: State, t: Thread, u: Thread)
    requires Reached(es, s)
    ensures InCritical(s, t) && InCritical(s, u) ==> t == u
    ensures !InCritical(s, t) ==> s.lock != Some(t)
    ensures s.waiter.WDone? || s.waiter == WBlocked ==> s.lock != Some(Waiter)
  {
    RunKeepsInvariant(INITIAL, es);
    assert InCritical(s, t) <==> s.lock == Some(t);
    assert InCritical(s, u) <==> s.lock == Some(u);
    assert InCritical(s, Waiter) <==> s.lock == Some(Waiter);
  }

  /**
   * Before the claim the waiter is on its way to success, or has reported it, exactly when it was woken
   * spuriously; after the claim, or without such a wake-up, success is never wrong.
   */
  lemma FalseSuccessIff(es: seq<Event>, s: State)
    requires Reached(es, s)
    ensures !s.claimed ==> (PastWait(s) <==> s.spurious)
    ensures s.waiter == WDone(ER_OK) && !s.spurious ==> s.claimed
  {
    RunKeepsInvariant(INITIAL, es);
  }

  predicate IsThreadStep(e: Event) {
    !(e.Claim? || e.Notify? || e.PolicyChange? || e.SpuriousWake?)
  }

  function CallbackRank(pc: CallbackPc): nat {
    match pc case CStart => 4 case CLocked => 3 case CSignalling => 2 case CUnlocking => 1 case CDone => 0
  }

  function WaiterRank(pc: WaiterPc): nat {
    match pc
    case WStart => 6 case WLocked => 5 case WDeciding => 4 case WBlocked => 3
    case WWoken => 2 case WReturning(_) => 1 case WDone(_) => 0
  }

  function Ranks(pcs: seq<CallbackPc>): nat {
    if pcs == [] then 0 else CallbackRank(pcs[0]) + Ranks(pcs[1..])
  }

  function Rank(s: State): nat {
    WaiterRank(s.waiter) + Ranks(s.callbacks)
  }

  lemma {:induction false} RanksAfterUpdate(pcs: seq<CallbackPc>, i: nat, pc: CallbackPc)
    requires i < |pcs|
    ensures Ranks(pcs[i := pc]) == Ranks(pcs) - CallbackRank(pcs[i]) + CallbackRank(pc)
  {
    if i == 0 {
      assert pcs[0 := pc][1..] == pcs[1..];
    } else {
      assert pcs[i := pc][1..] == pcs[1..][i - 1 := pc];
      RanksAfterUpdate(pcs[1..], i - 1, pc);
    }
  }

  lemma StepLowersRank(s: State, e: Event)
    requires Enabled(s, e) && IsThreadStep(e)
    ensures Rank(Step(s, e)) < Rank(s)
  {
    if e.CallbackLocks? || e.CallbackReads? || e.CallbackSignals? || e.CallbackUnlocks? {
      RanksAfterUpdate(s.callbacks, e.id, Step(s, e).callbacks[e.id]);
    }
  }

  /** Threads left alone take at most Rank steps. */
  lemma {:induction false} BoundedProgress(s: State, es: seq<Event>)
    requires Run(s, es).Some? && forall e :: e in es ==> IsThreadStep(e)
    ensures |es| + Rank(Run(s, es).value) <= Rank(s)
    decreases |es|
  {
    if es != [] {
      assert IsThreadStep(es[0]);
      StepLowersRank(s, es[0]);
      BoundedProgress(Step(s, es[0]), es[1..]);
    }
  }

  /** No thread can move. */
  ghost predicate Quiescent(s: State) {
    forall e :: IsThreadStep(e) ==> !Enabled(s, e)
  }

  /** After the claim, with its callback started and no read missed, a thread can move until the waiter has returned. */
  lemma SomeoneCanMove(es: seq<Event>, s: State) returns (e: Event)
    requires Reached(es, s) && !s.waiter.WDone?
    requires s.claimed && !s.owed && !s.missed
    ensures IsThreadStep(e) && Enabled(s, e)
  {
    RunKeepsInvariant(INITIAL, es);
    if s.lock == None {
      assert !InCritical(s, Waiter);
      if s.waiter == WStart {
        e := WaiterLocks;
      } else if s.waiter == WWoken {
        e := WaiterReacquires;
      } else {
        var i :| 0 <= i < |s.callbacks| && CanSignal(s.callbacks[i]);
        assert !InCritical(s, Callback(i));
        e := CallbackLocks(i);
      }
    } else if s.lock == Some(Waiter) {
      assert InCritical(s, Waiter);
      e := if s.waiter == WLocked then WaiterReads(true)
      else if s.waiter == WDeciding then WaiterWaits else WaiterUnlocks;
    } else {
      e := HolderCanMove(s);
    }
  }

  /** When nothing can move any more the waiter has returned; by BoundedProgress this takes boundedly many steps. */
  lemma QuiescentMeansReturned(es: seq<Event>, s: State)
    requires Reached(es, s) && Quiescent(s)
    requires s.claimed && !s.owed && !s.missed
    ensures s.waiter.WDone?
  {
    if !s.waiter.WDone? {
      var e := SomeoneCanMove(es, s);
    }
  }

  /**
   * Exactly when the waiter stays behind: once nothing can move, one that went to wait and was not woken
   * spuriously is still blocked if and only if no callback ever read CLAIMED, that is, if every read after
   * the claim failed. After a claim whose callback has started, at least one read was then missed.
   */
  lemma BlockedForGoodIff(es: seq<Event>, s: State)
    requires Reached(es, s) && Quiescent(s)
    requires s.waited && !s.spurious
    ensures s.waiter == WBlocked <==> !s.heard
    ensures s.waiter != WBlocked ==> s.waiter.WDone?
    ensures s.waiter == WBlocked && s.claimed && !s.owed ==> s.missed
  {
    RunKeepsInvariant(INITIAL, es);
    forall i: nat | i < |s.callbacks|
      ensures s.callbacks[i] != CSignalling
    {
      assert !Enabled(s, CallbackSignals(i));
    }
    if s.waiter != WBlocked && !s.waiter.WDone? {
      var e := WokenCanMove(s);
    }
    if s.waiter == WBlocked && s.claimed && !s.owed && !s.missed {
      var e := SomeoneCanMove(es, s);
    }
  }

  /** A waiter past its wait can move, or the thread that keeps it from the lock can. */
  lemma WokenCanMove(s: State) returns (e: Event)
    requires Invariant(s) && s.waited && s.waiter != WBlocked && !s.waiter.WDone?
    ensures IsThreadStep(e) && Enabled(s, e)
  {
    if s.waiter != WWoken {
      e := WaiterUnlocks;
    } else if s.lock == None {
      e := WaiterReacquires;
    } else {
      assert !InCritical(s, Waiter);
      e := HolderCanMove(s);
    }
  }

  lemma HolderCanMove(s: State) returns (e: Event)
    requires Invariant(s) && s.lock.Some? && s.lock.value.Callback?
    ensures IsThreadStep(e) && Enabled(s, e)
  {
    var i := s.lock.value.id;
    assert InCritical(s, Callback(i));
    e := if At(s, i, CLocked) then CallbackReads(i, true)
    else if At(s, i, CSignalling) then CallbackSignals(i) else CallbackUnlocks(i);
  }

  /** One unreadable state after the claim is enough to leave the waiter blocked for good. */
  lemma MissedReadBlocksForever() returns (es: seq<Event>, s: State)
    ensures Reached(es, s) && Quiescent(s)
    ensures s.claimed && !s.owed && s.missed && s.waiter == WBlocked
  {
    es, s := Blocked();
    es, s := Follow(es, s, Claim);
    es, s := Follow(es, s, Notify);
    es, s := Follow(es, s, CallbackLocks(0));
    es, s := Follow(es, s, CallbackReads(0, false));
    es, s := Follow(es, s, CallbackUnlocks(0));
    assert s == State(None, true, false, WBlocked, [CDone], true, false, true, false);
  }

  /** Because the wait is not repeated, a spurious wake-up reports a claim that never happened. */
  lemma SpuriousWakeReportsClaim() returns (es: seq<Event>, s: State)
    ensures Reached(es, s) && s.waiter == WDone(ER_OK) && !s.claimed
  {
    es, s := Blocked();
    es, s := Follow(es, s, SpuriousWake);
    es, s := Follow(es, s, WaiterReacquires);
    es, s := Follow(es, s, WaiterUnlocks);
  }

  lemma Blocked() returns (es: seq<Event>, s: State)
    ensures Reached(es, s) && s == INITIAL.(waiter := WBlocked, waited := true)
  {
    es, s := [], INITIAL;
    es, s := Follow(es, s, WaiterLocks);
    es, s := Follow(es, s, WaiterReads(true));
    es, s := Follow(es, s, WaiterWaits);
  }

  lemma Follow(es: seq<Event>, s: State, e: Event) returns (fs: seq<Event>, t: State)
    requires Reached(es, s) && Enabled(s, e)
    ensures Reached(fs, t) && t == Step(s, e)
  {
    RunSnoc(INITIAL, es, s, e);
    fs, t := es + [e], Step(s, e);
  }
}
