/** The worker that executes test items, with the bus played by a schedule of incoming messages. */
module TestWorkers {
  import opened Options
  import opened JsonTree
  import opened Text
  import opened Numbers
  import opened Devices
  import opened ItemProtocol
  import opened ItemRuns

  datatype TestItemInfo = TestItemInfo(
    signal: string, itemType: string, startLogIndex: nat, endLogIndex: nat, matchedLogIndex: nat)

  /** One message the bus hands to the response callback. */
  datatype Incoming = Incoming(respFlag: int, message: string, srcPath: string, member: string)

  /** One call that sends a signal to the device. */
  datatype Request = Request(signal: string, args: seq<string>)

  /** What arrives at each point where the main thread can be interrupted. */
  type Bus = nat -> seq<Incoming>

  /** How an execution ends; Undefined stands for reading an empty pool or a malformed device entry. */
  datatype Outcome = Completed | Aborted | Undefined

  /**
   * The main thread did what the item asks for, once and in order: all of it, or the naming and the abort, or
   * all but a collection from an empty pool, or all before the parsing of a malformed listing.
   */
  predicate StepsFit(outcome: Outcome, steps: seq<Event>, testItem: string, itemType: string, pool: seq<string>) {
    var whole := CompleteSteps(testItem, itemType);
    match outcome
    case Completed => steps == whole
    case Aborted => steps == whole[..2] + [AbortOnboarding]
    case Undefined =>
      || (steps == whole[..|whole| - 1] && pool == [])
      || (steps == whole[..3] && testItem == "list_devices")
  }

  const ER_OK := 0

  /** The part of a test item the worker fills in. */
  class TestItemLog {
    var testItemLogPool: seq<string>
    var matchedRespMsgIndex: nat

    /** The index starts as whatever the memory holds. */
    constructor (junk: nat)
      ensures testItemLogPool == [] && matchedRespMsgIndex == junk
    {
      testItemLogPool, matchedRespMsgIndex := [], junk;
    }
  }

  function Delivery(m: Incoming): Event {
    Deliver(m.respFlag, m.message, m.srcPath, m.member)
  }

  function Deliveries(ms: seq<Incoming>): seq<Event> {
    seq(|ms|, i requires 0 <= i < |ms| => Delivery(ms[i]))
  }

  /** The deliveries among the events of a run. */
  function DeliveriesOf(es: seq<Event>): seq<Event> {
    if es == [] then [] else (if es[0].Deliver? then [es[0]] else []) + DeliveriesOf(es[1..])
  }

  /** What the bus sends between two readings of the clock. */
  function Sent(bus: Bus, from: nat, to: nat): seq<Event>
    requires from <= to
  {
    if from == to then [] else Sent(bus, from, to - 1) + Deliveries(bus(to - 1))
  }

  /** The events lead from one state to another, and their deliveries are what the bus sent meanwhile. */
  ghost predicate Trace(loads: Loader, bus: Bus, s: State, from: nat, es: seq<Event>, t: State, to: nat) {
    from <= to && Run(loads, s, es) == Some(t) && DeliveriesOf(es) == Sent(bus, from, to)
  }

  lemma {:induction false} DeliveriesConcat(es: seq<Event>, fs: seq<Event>)
    ensures DeliveriesOf(es + fs) == DeliveriesOf(es) + DeliveriesOf(fs)
  {
    if es == [] {
      assert es + fs == fs;
    } else {
      var first := if es[0].Deliver? then [es[0]] else [];
      assert (es + fs)[1..] == es[1..] + fs;
      DeliveriesConcat(es[1..], fs);
      assert DeliveriesOf(es) == first + DeliveriesOf(es[1..]);
      assert DeliveriesOf(es + fs) == first + DeliveriesOf(es[1..] + fs);
    }
  }

  lemma {:induction false} AllDeliveries(ms: seq<Incoming>)
    ensures DeliveriesOf(Deliveries(ms)) == Deliveries(ms)
  {
    if ms != [] {
      assert Deliveries(ms)[1..] == Deliveries(ms[1..]);
      AllDeliveries(ms[1..]);
    }
  }

  lemma {:induction false} SentConcat(bus: Bus, i: nat, j: nat, k: nat)
    requires i <= j <= k
    ensures Sent(bus, i, k) == Sent(bus, i, j) + Sent(bus, j, k)
  {
    if j < k {
      SentConcat(bus, i, j, k - 1);
    }
  }

  lemma TraceJoin(loads: Loader, bus: Bus, s: State, i: nat, es: seq<Event>, t: State, j: nat,
                  fs: seq<Event>, u: State, k: nat)
    requires Trace(loads, bus, s, i, es, t, j) && Trace(loads, bus, t, j, fs, u, k)
    ensures Trace(loads, bus, s, i, es + fs, u, k)
    ensures MainSteps(es + fs) == MainSteps(es) + MainSteps(fs) && Ticks(es + fs) == Ticks(es) + Ticks(fs)
  {
    StepsConcat(es, fs);
    RunConcat(loads, s, es, fs);
    DeliveriesConcat(es, fs);
    SentConcat(bus, i, j, k);
  }

  /** A step of the main thread. */
  lemma TraceStep(loads: Loader, bus: Bus, s: State, i: nat, es: seq<Event>, t: State, j: nat, e: Event, u: State)
    requires Trace(loads, bus, s, i, es, t, j)
    requires !e.Deliver? && Enabled(loads, t, e) && Step(loads, t, e) == u
    ensures Trace(loads, bus, s, i, es + [e], u, j)
    ensures MainSteps(es + [e]) == MainSteps(es) + if e.PollTick? then [] else [e]
    ensures Ticks(es + [e]) == Ticks(es) + if e.PollTick? then 1 else 0
  {
    StepsConcat(es, [e]);
    OneStep(e);
    assert DeliveriesOf([e]) == [] + DeliveriesOf([e][1..]);
    RunSnoc(loads, s, es, t, e);
    DeliveriesConcat(es, [e]);
  }

  lemma {:induction false} MessagesOfDeliveries(es: seq<Event>)
    ensures Messages(DeliveriesOf(es)) == Messages(es)
  {
    if es != [] {
      var rest := DeliveriesOf(es[1..]);
      MessagesOfDeliveries(es[1..]);
      if es[0].Deliver? {
        assert DeliveriesOf(es) == [es[0]] + rest;
        assert ([es[0]] + rest)[1..] == rest;
      } else {
        assert DeliveriesOf(es) == rest;
      }
    }
  }

  /** Over a whole session the windows are what the bus sent, in the order it was sent, up to the last collection. */
  lemma WindowsAreWhatTheBusSent(loads: Loader, bus: Bus, es: seq<Event>, s: State, now: nat)
    requires Trace(loads, bus, INITIAL, 0, es, s, now)
    ensures s.lastLogIndex <= |Messages(Sent(bus, 0, now))|
    ensures Concat(s.windows) == Messages(Sent(bus, 0, now))[..s.lastLogIndex]
  {
    LogConservation(loads, es, s);
    MessagesOfDeliveries(es);
  }

  class TestWorker {
    const loads: Loader
    const mConfig: InputConfiguration
    var signalRespFlag: int
    var mLogPool: seq<string>
    var mDeviceList: seq<DeviceInfo>
    var mTestItemInfo: TestItemInfo
    var respmsg: Response
    var lastLogIndex: nat
    /** The calls made so far. */
    var requests: seq<Request>
    /** Counts the interruption points passed, so that the schedule is read in order. */
    var clock: nat

    ghost var phase: Phase
    ghost var arrivals: seq<Arrival>
    ghost var resetPoint: nat
    ghost var openPoint: nat
    ghost var windows: seq<seq<string>>

    ghost predicate Valid()
      reads this
    {
      mLogPool == Pool(arrivals)
    }

    ghost function Abstract(): State
      reads this
    {
      State(phase, mTestItemInfo.signal, mTestItemInfo.itemType, mTestItemInfo.startLogIndex,
            mTestItemInfo.matchedLogIndex, signalRespFlag, respmsg, lastLogIndex, mDeviceList,
            arrivals, resetPoint, openPoint, windows)
    }

    constructor (loads: Loader, config: InputConfiguration)
      ensures Valid() && Abstract() == INITIAL
      ensures this.loads == loads && mConfig == config && clock == 0 && requests == []
    {
      this.loads, mConfig := loads, config;
      signalRespFlag, lastLogIndex, clock := 0, 0, 0;
      mLogPool, mDeviceList, requests := [], [], [];
      mTestItemInfo, respmsg := TestItemInfo("", "", 0, 0, 0), NO_RESPONSE;
      phase, arrivals, resetPoint, openPoint, windows := Idle, [], 0, 0, [];
    }

    /** The response callback. */
    method TIRespMonitor(respFlag: int, respMsg: string, srcPath: string, member: string)
      requires Valid()
      modifies this
      ensures Valid() && clock == old(clock) && requests == old(requests)
      ensures Abstract() == Delivered(old(Abstract()), respFlag, respMsg, srcPath, member)
      ensures mLogPool == old(mLogPool) + [respMsg]
      ensures mTestItemInfo ==
              if member == old(mTestItemInfo.signal) ||
                 (old(mTestItemInfo.signal) == "listen_notification" && member == "notify")
              then old(mTestItemInfo).(matchedLogIndex := |old(mLogPool)|) else old(mTestItemInfo)
      ensures member == mTestItemInfo.signal ==>
                signalRespFlag == respFlag && respmsg == Response(respMsg, srcPath, member)
      ensures member != mTestItemInfo.signal ==> signalRespFlag == old(signalRespFlag) && respmsg == old(respmsg)
    {
      arrivals := arrivals + [Arrival(respMsg, member, mTestItemInfo.signal)];
      mLogPool := mLogPool + [respMsg];
      if mTestItemInfo.signal != member {
        if mTestItemInfo.signal == "listen_notification" && member == "notify" {
          mTestItemInfo := mTestItemInfo.(matchedLogIndex := |mLogPool| - 1);
        }
        return;
      } else {
        respmsg := Response(respMsg, srcPath, member);
        mTestItemInfo := mTestItemInfo.(matchedLogIndex := |mLogPool| - 1);
        signalRespFlag := respFlag;
      }
    }

    /** Time passes for the main thread: the bus delivers what is due. */
    method Elapse(bus: Bus) returns (ghost es: seq<Event>)
      requires Valid()
      modifies this
      ensures Valid() && clock == old(clock) + 1
      ensures Trace(loads, bus, old(Abstract()), old(clock), es, Abstract(), clock)
      ensures MainSteps(es) == [] && Ticks(es) == 0
      ensures phase == old(phase) && mDeviceList == old(mDeviceList) && requests == old(requests)
      ensures mTestItemInfo.signal == old(mTestItemInfo.signal) && mTestItemInfo.itemType == old(mTestItemInfo.itemType)
    {
      var due := bus(clock);
      es := [];
      for i := 0 to |due|
        invariant Valid() && clock == old(clock)
        invariant es == Deliveries(due[..i])
        invariant Run(loads, old(Abstract()), es) == Some(Abstract())
        invariant phase == old(phase) && mDeviceList == old(mDeviceList) && requests == old(requests)
        invariant mTestItemInfo.signal == old(mTestItemInfo.signal) && mTestItemInfo.itemType == old(mTestItemInfo.itemType)
      {
        ghost var before := Abstract();
        var m := due[i];
        TIRespMonitor(m.respFlag, m.message, m.srcPath, m.member);
        RunSnoc(loads, old(Abstract()), es, before, Delivery(m));
        es := es + [Delivery(m)];
      }
      assert due[..|due|] == due;
      AllDeliveries(due);
      OnlyDeliveries(es);
      clock := clock + 1;
      assert Sent(bus, clock - 1, clock) == Sent(bus, clock - 1, clock - 1) + Deliveries(due);
    }

    /** The polling loop and the analysis of what it found. */
    method ResponseAnalyst(bus: Bus) returns (ghost es: seq<Event>)
      requires Valid() && phase == Polling(0)
      modifies this
      ensures Valid()
      ensures Trace(loads, bus, old(Abstract()), old(clock), es, Abstract(), clock)
      ensures MainSteps(es) == [Analyse] && clock == old(clock) + Ticks(es)
      ensures phase.Analysed? && mDeviceList == old(mDeviceList) && requests == old(requests)
      ensures mTestItemInfo.signal == old(mTestItemInfo.signal) && mTestItemInfo.itemType == old(mTestItemInfo.itemType)
    {
      var timeout := 0;
      es := [];
      ghost var start, from := Abstract(), clock;
      while signalRespFlag != 1 && timeout < 300
        invariant Valid() && timeout <= 300 && phase == Polling(timeout)
        invariant Trace(loads, bus, start, from, es, Abstract(), clock)
        invariant MainSteps(es) == [] && clock == from + Ticks(es)
        invariant mDeviceList == old(mDeviceList) && requests == old(requests)
        invariant mTestItemInfo.signal == old(mTestItemInfo.signal) && mTestItemInfo.itemType == old(mTestItemInfo.itemType)
        decreases 300 - timeout
      {
        ghost var before := Abstract();
        timeout := timeout + 1;
        phase := Polling(timeout);
        TraceStep(loads, bus, start, from, es, before, clock, PollTick, Abstract());
        ghost var ticked, now := Abstract(), clock;
        ghost var arrived := Elapse(bus);
        TraceJoin(loads, bus, start, from, es + [PollTick], ticked, now, arrived, Abstract(), clock);
        es := es + [PollTick] + arrived;
      }
      ghost var before := Abstract();
      if timeout < 300 && mTestItemInfo.itemType == "upnp" {
        var rewritten := ReplaceAll(respmsg.message, "\n", LINE_BREAK);
        respmsg := respmsg.(message := rewritten);
      }
      phase := Analysed(timeout < 300);
      TraceStep(loads, bus, start, from, es, before, clock, Analyse, Abstract());
      es := es + [Analyse];
    }

    /** Refreshes the device cache after a listing. */
    method ParseRespondedMsg()
      requires Valid() && Enabled(loads, Abstract(), ParseResponse)
      modifies this
      ensures Valid() && clock == old(clock) && requests == old(requests)
      ensures Abstract() == Step(loads, old(Abstract()), ParseResponse)
    {
      if mTestItemInfo.signal == "list_devices" {
        mDeviceList := [];
        if |respmsg.message| > 0 {
          var _, devices := GetDevIDInJSMsg(loads, respmsg.message, mDeviceList);
          mDeviceList := devices;
        }
      }
      phase := Parsed;
    }

    /** Cuts the item's window out of the pool and translates the matched index. */
    method CollectWindow(item: TestItemLog)
      requires Valid() && Enabled(loads, Abstract(), Collect)
      modifies this, item
      ensures Valid() && clock == old(clock) && requests == old(requests)
      ensures Abstract() == Collected(old(Abstract()))
      ensures signalRespFlag == 0 && respmsg == Response("", "", "") && lastLogIndex == |mLogPool|
      ensures mTestItemInfo.endLogIndex == |mLogPool| - 1
      ensures item.testItemLogPool == old(item.testItemLogPool) + Window(old(Abstract()))
      ensures var k := MatchedInWindow(old(Abstract()));
              item.matchedRespMsgIndex ==
              if k.Some? then |old(item.testItemLogPool)| + k.value else old(item.matchedRespMsgIndex)
    {
      lastLogIndex := |mLogPool|;
      mTestItemInfo := mTestItemInfo.(endLogIndex := lastLogIndex - 1);
      CopyWindow(item);
      windows := windows + [mLogPool[mTestItemInfo.startLogIndex..]];
      signalRespFlag := 0;
      respmsg := NO_RESPONSE;
      phase := Idle;
    }

    /** The loop that copies the pool from the start to the end index. */
    method CopyWindow(item: TestItemLog)
      requires mTestItemInfo.startLogIndex <= |mLogPool| == mTestItemInfo.endLogIndex + 1
      modifies item
      ensures item.testItemLogPool == old(item.testItemLogPool) + mLogPool[mTestItemInfo.startLogIndex..]
      ensures item.matchedRespMsgIndex ==
              if mTestItemInfo.startLogIndex <= mTestItemInfo.matchedLogIndex < |mLogPool|
              then |old(item.testItemLogPool)| + mTestItemInfo.matchedLogIndex - mTestItemInfo.startLogIndex
              else old(item.matchedRespMsgIndex)
    {
      var start := mTestItemInfo.startLogIndex;
      var i := start;
      while i <= mTestItemInfo.endLogIndex
        invariant start <= i <= |mLogPool|
        invariant item.testItemLogPool == old(item.testItemLogPool) + mLogPool[start..i]
        invariant item.matchedRespMsgIndex ==
                  if start <= mTestItemInfo.matchedLogIndex < i
                  then |old(item.testItemLogPool)| + mTestItemInfo.matchedLogIndex - start
                  else old(item.matchedRespMsgIndex)
        decreases |mLogPool| - i
      {
        assert mLogPool[start..i + 1] == mLogPool[start..i] + [mLogPool[i]];
        item.testItemLogPool := item.testItemLogPool + [mLogPool[i]];
        if mTestItemInfo.matchedLogIndex == i {
          item.matchedRespMsgIndex := |item.testItemLogPool| - 1;
        }
        i := i + 1;
      }
      assert mLogPool[start..|mLogPool|] == mLogPool[start..];
    }

    /** The first half of the setup. */
    method ClearFlag()
      requires Valid() && phase == Idle
      modifies this
      ensures Valid() && clock == old(clock) && phase == Opening && requests == old(requests)
      ensures Abstract() == Step(loads, old(Abstract()), ResetFlag)
    {
      signalRespFlag := 0;
      phase, resetPoint := Opening, |arrivals|;
    }

    /** The second half of the setup. */
    method NameItem(testItem: string, itemType: string)
      requires Valid() && phase == Opening
      modifies this
      ensures Valid() && clock == old(clock) && mDeviceList == old(mDeviceList) && requests == old(requests)
      ensures Abstract() == Step(loads, old(Abstract()), OpenItem(testItem, itemType))
      ensures mTestItemInfo.signal == testItem && mTestItemInfo.itemType == itemType
    {
      mTestItemInfo := mTestItemInfo.(signal := testItem, itemType := itemType, startLogIndex := lastLogIndex);
      phase, openPoint := Started(testItem), |arrivals|;
    }

    /** Clears the flag, then names the item; the bus may speak in between. */
    method Setup(testItem: string, itemType: string, bus: Bus) returns (ghost es: seq<Event>)
      requires Valid() && phase == Idle
      modifies this
      ensures Valid()
      ensures Trace(loads, bus, old(Abstract()), old(clock), es, Abstract(), clock)
      ensures MainSteps(es) == [ResetFlag, OpenItem(testItem, itemType)] && Ticks(es) == 0 && clock == old(clock) + 1
      ensures phase == Started(testItem) && mTestItemInfo.signal == testItem && mTestItemInfo.itemType == itemType
      ensures mDeviceList == old(mDeviceList) && requests == old(requests)
    {
      ghost var start, from := Abstract(), clock;
      assert Trace(loads, bus, start, from, [], start, from);
      OneStep(ResetFlag);
      hide Trace, Run, MainSteps, Ticks;
      ClearFlag();
      ghost var reset := Abstract();
      TraceStep(loads, bus, start, from, [], start, from, ResetFlag, reset);
      assert [] + [ResetFlag] == [ResetFlag];
      ghost var gap := Elapse(bus);
      ghost var before := Abstract();
      TraceJoin(loads, bus, start, from, [ResetFlag], reset, from, gap, before, clock);
      NameItem(testItem, itemType);
      TraceStep(loads, bus, start, from, [ResetFlag] + gap, before, clock, OpenItem(testItem, itemType), Abstract());
      es := [ResetFlag] + gap + [OpenItem(testItem, itemType)];
    }

    /** Polls for the response and parses it; not `ok` when a device entry lacks a field. */
    method AwaitResponse(bus: Bus) returns (ok: bool, ghost es: seq<Event>)
      requires Valid() && phase == Polling(0)
      modifies this
      ensures Valid()
      ensures Trace(loads, bus, old(Abstract()), old(clock), es, Abstract(), clock)
      ensures MainSteps(es) == if ok then [Analyse, ParseResponse] else [Analyse]
      ensures clock == old(clock) + Ticks(es) + 2
      ensures if ok then phase == Parsed else !Enabled(loads, Abstract(), ParseResponse)
      ensures !ok ==> mTestItemInfo.signal == "list_devices"
      ensures mTestItemInfo.signal != "list_devices" ==> mDeviceList == old(mDeviceList)
      ensures requests == old(requests)
      ensures mTestItemInfo.signal == old(mTestItemInfo.signal) && mTestItemInfo.itemType == old(mTestItemInfo.itemType)
    {
      ghost var start, from := Abstract(), clock;
      ghost var sent := Elapse(bus);
      ghost var mid, now := Abstract(), clock;
      ghost var polled := ResponseAnalyst(bus);
      TraceJoin(loads, bus, start, from, sent, mid, now, polled, Abstract(), clock);
      mid, now := Abstract(), clock;
      ghost var arrived := Elapse(bus);
      TraceJoin(loads, bus, start, from, sent + polled, mid, now, arrived, Abstract(), clock);
      es := sent + polled + arrived;
      ok := mTestItemInfo.signal == "list_devices" ==> ListingDefined(loads, respmsg.message);
      if ok {
        mid := Abstract();
        ParseRespondedMsg();
        TraceStep(loads, bus, start, from, es, mid, clock, ParseResponse, Abstract());
        es := es + [ParseResponse];
      }
    }

    /**
     * One test item from setup to collection. The bus may speak at every call of Elapse; `busStatus` is the
     * outcome of attaching to the bus for onboarding, `junk` what the status variable holds otherwise. The
     * item's new log entries are its window, and its substituted arguments come from the latest listing of
     * the session so far.
     */
    method ExecuteTestItem(testItem: string, tiArg: array<string>, bus: Bus, busStatus: int, junk: int,
                           item: TestItemLog, ghost history: seq<Event>)
      returns (outcome: Outcome, status: int, ghost es: seq<Event>)
      requires Valid() && Reached(loads, history, Abstract()) && phase == Idle
      requires tiArg.Length > 0
      requires testItem == "listen_notification" ==> tiArg.Length > 2 && Stoi(tiArg[2], 10).Some?
      requires Started(testItem) == Polling(0) && tiArg.Length > 1 ==>
                 UpdateDefined(testItem, mConfig, mDeviceList, tiArg[..])
      modifies this, tiArg, item
      ensures Valid() && Reached(loads, history + es, Abstract())
      ensures Trace(loads, bus, old(Abstract()), old(clock), es, Abstract(), clock)
      ensures status == if testItem == "onboarding" then busStatus else junk
      ensures outcome == Aborted <==> testItem == "onboarding" && busStatus != ER_OK
      ensures StepsFit(outcome, MainSteps(es), testItem, old(tiArg[0]), mLogPool)
      ensures mTestItemInfo.signal == testItem && mTestItemInfo.itemType == old(tiArg[0])
      ensures if testItem == "list_devices"
              then outcome == Completed ==> ListingCached(loads, old(Abstract()), es, mDeviceList)
              else mDeviceList == old(mDeviceList)
      ensures requests ==
              old(requests) + if testItem == "onboarding" || testItem == "listen_notification" then []
                              else [Request(testItem, tiArg[..])]
      ensures outcome == Completed ==>
                clock == old(clock) + Ticks(es) +
                         if testItem == "onboarding" || testItem == "listen_notification" then 3 else 4
      ensures outcome == Undefined ==> mLogPool == [] || !Enabled(loads, Abstract(), ParseResponse)
      ensures outcome != Undefined ==> phase == Idle
      ensures outcome == Completed ==>
                && windows != [] && es != [] && es[|es| - 1] == Collect
                && item.testItemLogPool == old(item.testItemLogPool) + windows[|windows| - 1]
                && var k := MatchedInWindow(Abstract());
                   item.matchedRespMsgIndex ==
                   if k.Some? then |old(item.testItemLogPool)| + k.value else old(item.matchedRespMsgIndex)
      ensures outcome == Completed ==> mTestItemInfo.endLogIndex == |mLogPool| - 1
      ensures outcome != Completed ==>
                && item.testItemLogPool == old(item.testItemLogPool)
                && item.matchedRespMsgIndex == old(item.matchedRespMsgIndex)
      ensures tiArg[..] ==
              if Started(testItem) == Polling(0) && tiArg.Length > 1
              then UpdatedArgs(testItem, mConfig, old(mDeviceList), old(tiArg[..])) else old(tiArg[..])
      ensures SlotsUseLatestListing(loads, history, testItem, mConfig, old(tiArg[..]), tiArg[..])
    {
      ghost var start := Abstract();
      if Started(testItem) == Polling(0) && tiArg.Length > 1 {
        AllSlotsUseLatestListing(loads, history, start, testItem, mConfig, tiArg[..]);
      }
      outcome, es := Execute(testItem, tiArg, bus, busStatus == ER_OK, item, history);
      RunConcat(loads, INITIAL, history, es);
      if outcome == Completed {
        ItemCache(loads, history, start, es, Abstract(), testItem, MainSteps(es)[1].itemType);
      }
      status := if testItem == "onboarding" then busStatus else junk;
    }

    method Execute(testItem: string, tiArg: array<string>, bus: Bus, onboardingOk: bool,
                   item: TestItemLog, ghost history: seq<Event>)
      returns (outcome: Outcome, ghost es: seq<Event>)
      requires Valid() && Reached(loads, history, Abstract()) && phase == Idle && tiArg.Length > 0
      requires Started(testItem) == Polling(0) && tiArg.Length > 1 ==>
                 UpdateDefined(testItem, mConfig, mDeviceList, tiArg[..])
      modifies this, tiArg, item
      ensures Valid()
      ensures Trace(loads, bus, old(Abstract()), old(clock), es, Abstract(), clock)
      ensures outcome == Aborted <==> testItem == "onboarding" && !onboardingOk
      ensures StepsFit(outcome, MainSteps(es), testItem, old(tiArg[0]), mLogPool)
      ensures mTestItemInfo.signal == testItem && mTestItemInfo.itemType == old(tiArg[0])
      ensures testItem != "list_devices" ==> mDeviceList == old(mDeviceList)
      ensures requests ==
              old(requests) + if testItem == "onboarding" || testItem == "listen_notification" then []
                              else [Request(testItem, tiArg[..])]
      ensures outcome == Completed ==>
                clock == old(clock) + Ticks(es) +
                         if testItem == "onboarding" || testItem == "listen_notification" then 3 else 4
      ensures outcome == Undefined ==> mLogPool == [] || !Enabled(loads, Abstract(), ParseResponse)
      ensures outcome != Undefined ==> phase == Idle
      ensures outcome == Completed ==>
                && windows != [] && es != [] && es[|es| - 1] == Collect
                && item.testItemLogPool == old(item.testItemLogPool) + windows[|windows| - 1]
                && var k := MatchedInWindow(Abstract());
                   item.matchedRespMsgIndex ==
                   if k.Some? then |old(item.testItemLogPool)| + k.value else old(item.matchedRespMsgIndex)
      ensures outcome == Completed ==> mTestItemInfo.endLogIndex == |mLogPool| - 1
      ensures outcome != Completed ==>
                && item.testItemLogPool == old(item.testItemLogPool)
                && item.matchedRespMsgIndex == old(item.matchedRespMsgIndex)
      ensures tiArg[..] ==
              if Started(testItem) == Polling(0) && tiArg.Length > 1
              then UpdatedArgs(testItem, mConfig, old(mDeviceList), old(tiArg[..])) else old(tiArg[..])
    {
      hide MainSteps, Ticks, UpdatedArgs;
      ghost var start, from := Abstract(), clock;
      outcome, es := UpToCollection(testItem, tiArg, bus, onboardingOk);
      assert LogInvariant(Abstract()) by {
        ReachedInvariant(loads, history, start);
        RunKeepsInvariant(loads, start, es);
      }
      if outcome == Completed && |mLogPool| == 0 {
        outcome := Undefined;
      }
      if outcome == Completed {
        ghost var mid := Abstract();
        CollectWindow(item);
        TraceStep(loads, bus, start, from, es, mid, clock, Collect, Abstract());
        es := es + [Collect];
      }
    }

    /** The item up to the point where its window can be collected, or its early end. */
    method UpToCollection(testItem: string, tiArg: array<string>, bus: Bus, onboardingOk: bool)
      returns (outcome: Outcome, ghost es: seq<Event>)
      requires Valid() && phase == Idle && tiArg.Length > 0
      requires Started(testItem) == Polling(0) && tiArg.Length > 1 ==>
                 UpdateDefined(testItem, mConfig, mDeviceList, tiArg[..])
      modifies this, tiArg
      ensures Valid()
      ensures Trace(loads, bus, old(Abstract()), old(clock), es, Abstract(), clock)
      ensures outcome == Aborted <==> testItem == "onboarding" && !onboardingOk
      ensures var whole := CompleteSteps(testItem, old(tiArg[0]));
              match outcome
              case Completed => MainSteps(es) == whole[..|whole| - 1]
              case Aborted => MainSteps(es) == whole[..2] + [AbortOnboarding]
              case Undefined => MainSteps(es) == whole[..3] && testItem == "list_devices"
      ensures mTestItemInfo.signal == testItem && mTestItemInfo.itemType == old(tiArg[0])
      ensures testItem != "list_devices" ==> mDeviceList == old(mDeviceList)
      ensures requests ==
              old(requests) + if testItem == "onboarding" || testItem == "listen_notification" then []
                              else [Request(testItem, tiArg[..])]
      ensures outcome == Completed ==>
                clock == old(clock) + Ticks(es) +
                         if testItem == "onboarding" || testItem == "listen_notification" then 3 else 4
      ensures match outcome
              case Completed => phase == Sleeping || phase == Parsed
              case Aborted => phase == Idle
              case Undefined => !Enabled(loads, Abstract(), ParseResponse)
      ensures tiArg[..] ==
              if Started(testItem) == Polling(0) && tiArg.Length > 1
              then UpdatedArgs(testItem, mConfig, old(mDeviceList), old(tiArg[..])) else old(tiArg[..])
    {
      hide Trace, Run, MainSteps, Ticks, UpdatedArgs;
      ghost var start, from := Abstract(), clock;
      es := Setup(testItem, tiArg[0], bus);
      ghost var mid, now := Abstract(), clock;
      if testItem == "onboarding" && !onboardingOk {
        ghost var slept := Elapse(bus);
        TraceJoin(loads, bus, start, from, es, mid, now, slept, Abstract(), clock);
        mid := Abstract();
        phase := Idle;
        TraceStep(loads, bus, start, from, es + slept, mid, clock, AbortOnboarding, Abstract());
        es := es + slept + [AbortOnboarding];
        return Aborted, es;
      }
      var ok, performed := Perform(tiArg, bus);
      TraceJoin(loads, bus, start, from, es, mid, now, performed, Abstract(), clock);
      es := es + performed;
      outcome := if ok then Completed else Undefined;
    }

    /** What happens between setup and collection: sleeping, or substituting, sending and awaiting. */
    method Perform(tiArg: array<string>, bus: Bus) returns (ok: bool, ghost es: seq<Event>)
      requires Valid() && phase == Started(mTestItemInfo.signal)
      requires phase == Polling(0) && tiArg.Length > 1 ==>
                 UpdateDefined(mTestItemInfo.signal, mConfig, mDeviceList, tiArg[..])
      modifies this, tiArg
      ensures Valid()
      ensures Trace(loads, bus, old(Abstract()), old(clock), es, Abstract(), clock)
      ensures if ok then phase == Sleeping || phase == Parsed else !Enabled(loads, Abstract(), ParseResponse)
      ensures !ok ==> mTestItemInfo.signal == "list_devices"
      ensures mTestItemInfo.signal == old(mTestItemInfo.signal) && mTestItemInfo.itemType == old(mTestItemInfo.itemType)
      ensures mTestItemInfo.signal != "list_devices" ==> mDeviceList == old(mDeviceList)
      ensures if old(mTestItemInfo.signal) == "onboarding" || old(mTestItemInfo.signal) == "listen_notification"
              then MainSteps(es) == [] && requests == old(requests) && clock == old(clock) + Ticks(es) + 2
              else MainSteps(es) == (if ok then [Analyse, ParseResponse] else [Analyse])
                   && requests == old(requests) + [Request(mTestItemInfo.signal, tiArg[..])]
                   && (ok ==> clock == old(clock) + Ticks(es) + 3)
      ensures tiArg[..] ==
              if old(phase) == Polling(0) && tiArg.Length > 1
              then UpdatedArgs(old(mTestItemInfo.signal), mConfig, old(mDeviceList), old(tiArg[..])) else old(tiArg[..])
    {
      ghost var start, from := Abstract(), clock;
      if mTestItemInfo.signal == "onboarding" || mTestItemInfo.signal == "listen_notification" {
        ok := true;
        es := Elapse(bus);
      } else {
        if tiArg.Length > 1 {
          UpdateDevIDOfTC(mTestItemInfo.signal, mConfig, mDeviceList, tiArg);
        }
        requests := requests + [Request(mTestItemInfo.signal, tiArg[..])];
        ok, es := AwaitResponse(bus);
      }
      if ok {
        ghost var mid, now := Abstract(), clock;
        ghost var last := Elapse(bus);
        TraceJoin(loads, bus, start, from, es, mid, now, last, Abstract(), clock);
        es := es + last;
      }
    }
  }
}
