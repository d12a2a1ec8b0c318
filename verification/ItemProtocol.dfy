/**
 * The execution protocol of test items as a state machine. The main thread and the response callback
 * interleave: every event below is one atomic step, and a delivery may come between any two of them.
 */
module ItemProtocol {
  import opened Options
  import opened JsonTree
  import opened Text
  import opened Devices

  const POLL_LIMIT := 300

  /** Where the main thread stands; `Opening` is the gap between clearing the flag and naming the item. */
  datatype Phase =
    | Idle
    | Opening
    | Sleeping
    | Polling(timeout: nat)
    | Analysed(answered: bool)
    | Parsed

  datatype Response = Response(message: string, srcPath: string, signalName: string)

  const NO_RESPONSE := Response("", "", "")

  /** A delivered message with the member it came under and the item signal current at that moment. */
  datatype Arrival = Arrival(message: string, member: string, signal: string)

  /** The shared state, with the history (`arrivals`, `resetPoint`, `openPoint`, `windows`) the properties speak of. */
  datatype State = State(
    phase: Phase,
    signal: string,
    itemType: string,
    startLogIndex: nat,
    matchedLogIndex: nat,
    flag: int,
    response: Response,
    lastLogIndex: nat,
    devices: seq<DeviceInfo>,
    arrivals: seq<Arrival>,
    resetPoint: nat,
    openPoint: nat,
    windows: seq<seq<string>>)

  const INITIAL := State(Idle, "", "", 0, 0, 0, NO_RESPONSE, 0, [], [], 0, 0, [])

  datatype Event =
    | ResetFlag
    | OpenItem(signal: string, itemType: string)
    | AbortOnboarding
    | PollTick
    | Analyse
    | ParseResponse
    | Collect
    | Deliver(respFlag: int, message: string, srcPath: string, member: string)

  /** The logged messages: the pool itself. */
  function Pool(arrivals: seq<Arrival>): (p: seq<string>)
    ensures |p| == |arrivals|
  {
    seq(|arrivals|, i requires 0 <= i < |arrivals| => arrivals[i].message)
  }

  /** The response the caller waits for. */
  predicate Answers(a: Arrival) {
    a.member == a.signal
  }

  /** What makes the callback record a matched position: the answer, or a notification being listened for. */
  predicate Accepted(a: Arrival) {
    Answers(a) || (a.signal == "listen_notification" && a.member == "notify")
  }

  function Delivered(s: State, respFlag: int, message: string, srcPath: string, member: string): State {
    var logged := s.(arrivals := s.arrivals + [Arrival(message, member, s.signal)]);
    if member != s.signal then
      if s.signal == "listen_notification" && member == "notify" then logged.(matchedLogIndex := |s.arrivals|) else logged
    else
      logged.(response := Response(message, srcPath, member), matchedLogIndex := |s.arrivals|, flag := respFlag)
  }

  /** The phase an item enters once it is named: two kinds sleep, the others send and poll. */
  function Started(signal: string): Phase {
    if signal == "onboarding" || signal == "listen_notification" then Sleeping else Polling(0)
  }

  function AnalysedResponse(itemType: string, r: Response): Response {
    if itemType == "upnp" then r.(message := Replaced(r.message, "\n", LINE_BREAK)) else r
  }

  /** The pool slice an item takes away. */
  function Window(s: State): seq<string>
    requires s.startLogIndex <= |s.arrivals|
  {
    Pool(s.arrivals)[s.startLogIndex..]
  }

  /** The position of the matched message inside the window, when it lies there. */
  function MatchedInWindow(s: State): Option<nat> {
    if s.startLogIndex <= s.matchedLogIndex < |s.arrivals| then Some(s.matchedLogIndex - s.startLogIndex) else None
  }

  function Collected(s: State): State
    requires s.startLogIndex <= |s.arrivals|
  {
    s.(phase := Idle, windows := s.windows + [Window(s)], lastLogIndex := |s.arrivals|,
       flag := 0, response := NO_RESPONSE)
  }

  /** The text can be parsed as a listing: every listed device has the fields that are read. */
  predicate ListingDefined(loads: Loader, message: string) {
    message != "" ==> EntriesDefined(ListEntries(loads(message)))
  }

  /** The devices a listing names; none for an empty text. */
  function ListedIn(loads: Loader, message: string): seq<DeviceInfo>
    requires ListingDefined(loads, message)
  {
    if message != "" then DevicesOf(ListEntries(loads(message))) else []
  }

  /** Which steps are possible and well defined; collecting from an empty pool is not. */
  predicate Enabled(loads: Loader, s: State, e: Event) {
    match e
    case ResetFlag => s.phase == Idle
    case OpenItem(_, _) => s.phase == Opening
    case AbortOnboarding => s.phase == Sleeping && s.signal == "onboarding"
    case PollTick => s.phase.Polling? && s.flag != 1 && s.phase.timeout < POLL_LIMIT
    case Analyse => s.phase.Polling? && (s.flag == 1 || s.phase.timeout >= POLL_LIMIT)
    case ParseResponse =>
      s.phase.Analysed? && (s.signal == "list_devices" ==> ListingDefined(loads, s.response.message))
    case Collect => (s.phase == Sleeping || s.phase == Parsed) && s.arrivals != [] && s.startLogIndex <= |s.arrivals|
    case Deliver(_, _, _, _) => true
  }

  function Step(loads: Loader, s: State, e: Event): State
    requires Enabled(loads, s, e)
  {
    match e
    case ResetFlag => s.(phase := Opening, flag := 0, resetPoint := |s.arrivals|)
    case OpenItem(signal, itemType) =>
      s.(phase := Started(signal), signal := signal, itemType := itemType,
         startLogIndex := s.lastLogIndex, openPoint := |s.arrivals|)
    case AbortOnboarding => s.(phase := Idle)
    case PollTick => s.(phase := Polling(s.phase.timeout + 1))
    case Analyse =>
      if s.phase.timeout < POLL_LIMIT
      then s.(phase := Analysed(true), response := AnalysedResponse(s.itemType, s.response))
      else s.(phase := Analysed(false))
    case ParseResponse =>
      s.(phase := Parsed, devices := if s.signal == "list_devices" then ListedIn(loads, s.response.message) else s.devices)
    case Collect => Collected(s)
    case Deliver(respFlag, message, srcPath, member) => Delivered(s, respFlag, message, srcPath, member)
  }

  /** The state after a sequence of events, if every one of them was possible in turn. */
  function Run(loads: Loader, s: State, es: seq<Event>): Option<State>
    decreases |es|
  {
    if es == [] then Some(s)
    else if Enabled(loads, s, es[0]) then Run(loads, Step(loads, s, es[0]), es[1..])
    else None
  }

  lemma {:induction false} RunConcat(loads: Loader, s: State, es: seq<Event>, fs: seq<Event>)
    requires Run(loads, s, es).Some?
    ensures Run(loads, s, es + fs) == Run(loads, Run(loads, s, es).value, fs)
    decreases |es|
  {
    if es == [] {
      assert es + fs == fs;
    } else {
      assert (es + fs)[1..] == es[1..] + fs;
      RunConcat(loads, Step(loads, s, es[0]), es[1..], fs);
    }
  }

  lemma RunSnoc(loads: Loader, s: State, es: seq<Event>, t: State, e: Event)
    requires Run(loads, s, es) == Some(t) && Enabled(loads, t, e)
    ensures Run(loads, s, es + [e]) == Some(Step(loads, t, e))
  {
    RunConcat(loads, s, es, [e]);
    assert Run(loads, t, [e]) == Run(loads, Step(loads, t, e), [e][1..]);
  }

  lemma RunUnsnoc(loads: Loader, s: State, es: seq<Event>)
    requires es != [] && Run(loads, s, es).Some?
    ensures var before := Run(loads, s, es[..|es| - 1]);
            && before.Some? && Enabled(loads, before.value, es[|es| - 1])
            && Run(loads, s, es) == Some(Step(loads, before.value, es[|es| - 1]))
    decreases |es|
  {
    if |es| > 1 {
      RunUnsnoc(loads, Step(loads, s, es[0]), es[1..]);
      assert es[..|es| - 1][1..] == es[1..][..|es| - 2];
    }
  }

  /** The messages the bus delivered during a run, in order. */
  function Messages(es: seq<Event>): seq<string> {
    if es == [] then []
    else (if es[0].Deliver? then [es[0].message] else []) + Messages(es[1..])
  }

  /** All windows in execution order. */
  function Concat(ws: seq<seq<string>>): seq<string> {
    if ws == [] then [] else Concat(ws[..|ws| - 1]) + ws[|ws| - 1]
  }

  /** The latest arrival at or after `from` that passes a test. */
  function Last(arrivals: seq<Arrival>, from: nat, test: Arrival -> bool): (r: Option<nat>)
    ensures r.Some? ==> from <= r.value < |arrivals| && test(arrivals[r.value])
    ensures forall i :: from <= i < |arrivals| && (r.Some? ==> r.value < i) ==> !test(arrivals[i])
  {
    if |arrivals| <= from then None
    else if test(arrivals[|arrivals| - 1]) then Some(|arrivals| - 1)
    else Last(arrivals[..|arrivals| - 1], from, test)
  }

  lemma LastAfterDelivery(arrivals: seq<Arrival>, a: Arrival, from: nat, test: Arrival -> bool)
    ensures Last(arrivals + [a], from, test) ==
            if from <= |arrivals| && test(a) then Some(|arrivals|) else Last(arrivals, from, test)
  {
    assert (arrivals + [a])[..|arrivals|] == arrivals;
  }

  predicate InItem(s: State) {
    s.phase != Idle && s.phase != Opening
  }

  /** The windows taken so far are exactly the pool up to the last collected index. */
  ghost predicate LogInvariant(s: State) {
    && s.lastLogIndex <= |s.arrivals|
    && (InItem(s) ==> s.startLogIndex == s.lastLogIndex)
    && Concat(s.windows) == Pool(s.arrivals)[..s.lastLogIndex]
  }

  /** Where the item's arrivals begin, and which signal they were delivered under. */
  ghost predicate PointInvariant(s: State) {
    && s.openPoint <= |s.arrivals|
    && (forall i :: s.openPoint <= i < |s.arrivals| ==> s.arrivals[i].signal == s.signal)
    && (s.phase != Idle ==> s.lastLogIndex <= s.resetPoint <= |s.arrivals|)
    && (s.phase == Opening ==> s.openPoint <= s.resetPoint)
    && (InItem(s) ==> s.resetPoint <= s.openPoint)
    && (InItem(s) ==> forall i, j :: s.resetPoint <= i < j < s.openPoint ==> s.arrivals[i].signal == s.arrivals[j].signal)
    && (s.phase.Polling? ==> s.phase.timeout <= POLL_LIMIT)
    && (s.phase.Polling? || s.phase.Analysed? || s.phase == Parsed ==> s.signal != "listen_notification")
  }

  /** The recorded match is the last accepted arrival, and the flag stands for an answer since it was cleared. */
  ghost predicate MatchInvariant(s: State) {
    && s.matchedLogIndex == (var m := Last(s.arrivals, 0, Accepted); if m.Some? then m.value else 0)
    && (s.phase != Idle && s.flag != 0 ==> Last(s.arrivals, s.resetPoint, Answers).Some?)
    && (s.phase == Analysed(true) ==> Last(s.arrivals, s.resetPoint, Answers).Some?)
  }

  /**
   * The response held is the latest answer since the last collection, or the rewritten form of it for upnp;
   * there is none without such an answer.
   */
  ghost predicate ResponseInvariant(s: State) {
    var k := Last(s.arrivals, s.lastLogIndex, Answers);
    if k.None? then s.response == NO_RESPONSE
    else
      var message := s.arrivals[k.value].message;
      || s.response.message == message
      || ((s.phase.Analysed? || s.phase == Parsed) && s.itemType == "upnp" &&
          s.response.message == Replaced(message, "\n", LINE_BREAK))
  }

  ghost predicate Invariant(s: State) {
    LogInvariant(s) && PointInvariant(s) && MatchInvariant(s) && ResponseInvariant(s)
  }

  lemma DeliveryKeepsLog(s: State, respFlag: int, message: string, srcPath: string, member: string)
    requires LogInvariant(s)
    ensures LogInvariant(Delivered(s, respFlag, message, srcPath, member))
  {
    var t := Delivered(s, respFlag, message, srcPath, member);
    assert Pool(t.arrivals)[..s.lastLogIndex] == Pool(s.arrivals)[..s.lastLogIndex];
  }

  lemma DeliveryKeepsPoints(s: State, respFlag: int, message: string, srcPath: string, member: string)
    requires PointInvariant(s)
    ensures PointInvariant(Delivered(s, respFlag, message, srcPath, member))
  {
  }

  lemma DeliveryKeepsMatch(s: State, respFlag: int, message: string, srcPath: string, member: string)
    requires PointInvariant(s) && MatchInvariant(s)
    ensures MatchInvariant(Delivered(s, respFlag, message, srcPath, member))
  {
    var a := Arrival(message, member, s.signal);
    LastAfterDelivery(s.arrivals, a, 0, Accepted);
    LastAfterDelivery(s.arrivals, a, s.resetPoint, Answers);
  }

  lemma DeliveryKeepsResponse(s: State, respFlag: int, message: string, srcPath: string, member: string)
    requires LogInvariant(s) && ResponseInvariant(s)
    ensures ResponseInvariant(Delivered(s, respFlag, message, srcPath, member))
  {
    LastAfterDelivery(s.arrivals, Arrival(message, member, s.signal), s.lastLogIndex, Answers);
  }

  lemma CollectKeepsInvariant(s: State)
    requires Invariant(s) && InItem(s)
    ensures Invariant(Collected(s))
  {
    var t := Collected(s);
    assert t.windows[..|s.windows|] == s.windows;
    assert Pool(s.arrivals) == Pool(s.arrivals)[..s.lastLogIndex] + Window(s);
    assert Pool(t.arrivals)[..t.lastLogIndex] == Pool(s.arrivals);
  }

  lemma MainKeepsLogAndPoints(loads: Loader, s: State, e: Event)
    requires LogInvariant(s) && PointInvariant(s) && Enabled(loads, s, e) && !e.Deliver? && !e.Collect?
    ensures LogInvariant(Step(loads, s, e)) && PointInvariant(Step(loads, s, e))
  {
    hide Concat, Pool, ListedIn, AnalysedResponse;
  }

  lemma MainKeepsMatch(loads: Loader, s: State, e: Event)
    requires MatchInvariant(s) && Enabled(loads, s, e) && !e.Deliver? && !e.Collect?
    ensures MatchInvariant(Step(loads, s, e))
  {
    hide Last, ListedIn, AnalysedResponse;
  }

  lemma MainKeepsResponse(loads: Loader, s: State, e: Event)
    requires LogInvariant(s) && PointInvariant(s) && MatchInvariant(s) && ResponseInvariant(s)
    requires Enabled(loads, s, e) && !e.Deliver? && !e.Collect?
    ensures ResponseInvariant(Step(loads, s, e))
  {
    hide Last, ListedIn, Concat, Pool;
  }

  lemma StepKeepsInvariant(loads: Loader, s: State, e: Event)
    requires Invariant(s) && Enabled(loads, s, e)
    ensures Invariant(Step(loads, s, e))
  {
    hide LogInvariant, PointInvariant, MatchInvariant, ResponseInvariant, Delivered;
    match e
    case Deliver(respFlag, message, srcPath, member) =>
      DeliveryKeepsLog(s, respFlag, message, srcPath, member);
      DeliveryKeepsPoints(s, respFlag, message, srcPath, member);
      DeliveryKeepsMatch(s, respFlag, message, srcPath, member);
      DeliveryKeepsResponse(s, respFlag, message, srcPath, member);
    case Collect => CollectKeepsInvariant(s);
    case _ =>
      MainKeepsLogAndPoints(loads, s, e);
      MainKeepsMatch(loads, s, e);
      MainKeepsResponse(loads, s, e);
  }

  lemma {:induction false} RunKeepsInvariant(loads: Loader, s: State, es: seq<Event>)
    requires Invariant(s) && Run(loads, s, es).Some?
    ensures Invariant(Run(loads, s, es).value)
    decreases |es|
  {
    if es != [] {
      StepKeepsInvariant(loads, s, es[0]);
      RunKeepsInvariant(loads, Step(loads, s, es[0]), es[1..]);
    }
  }

  /** A state the tester can be in. */
  ghost predicate Reached(loads: Loader, es: seq<Event>, s: State) {
    Run(loads, INITIAL, es) == Some(s)
  }

  lemma ReachedInvariant(loads: Loader, es: seq<Event>, s: State)
    requires Reached(loads, es, s)
    ensures Invariant(s)
  {
    RunKeepsInvariant(loads, INITIAL, es);
  }

  lemma {:induction false} PoolIsDelivered(loads: Loader, s: State, es: seq<Event>)
    requires Run(loads, s, es).Some?
    ensures Pool(Run(loads, s, es).value.arrivals) == Pool(s.arrivals) + Messages(es)
    decreases |es|
  {
    if es != [] {
      var t := Step(loads, s, es[0]);
      PoolIsDelivered(loads, t, es[1..]);
      if es[0].Deliver? {
        assert Pool(t.arrivals) == Pool(s.arrivals) + [es[0].message];
      }
    }
  }

  /**
   * Over every interleaving the item windows, in execution order, are the messages delivered so far up to
   * the last collected index: none lost, repeated or reordered. Right after a collection that is all of them.
   */
  lemma LogConservation(loads: Loader, es: seq<Event>, s: State)
    requires Reached(loads, es, s)
    ensures s.lastLogIndex <= |Messages(es)|
    ensures Concat(s.windows) == Messages(es)[..s.lastLogIndex]
    ensures Enabled(loads, s, Collect) ==> Concat(Step(loads, s, Collect).windows) == Messages(es)
  {
    ReachedInvariant(loads, es, s);
    PoolIsDelivered(loads, INITIAL, es);
    assert Pool(s.arrivals) == Messages(es);
    if Enabled(loads, s, Collect) {
      CollectKeepsInvariant(s);
    }
  }

  /** No message the callback accepts fell into the gap between clearing the flag and naming the item. */
  ghost predicate RaceFree(s: State) {
    forall i :: s.resetPoint <= i < s.openPoint && i < |s.arrivals| ==> !Accepted(s.arrivals[i])
  }

  /** The match an item takes away is the latest message of its window that came under the item's signal. */
  ghost predicate MatchIsLatestAnswer(s: State) {
    var m := s.matchedLogIndex;
    && s.startLogIndex <= m < |s.arrivals|
    && MatchedInWindow(s) == Some(m - s.startLogIndex)
    && Window(s)[m - s.startLogIndex] == s.arrivals[m].message
    && s.arrivals[m].member == s.signal
    && forall j :: m < j < |s.arrivals| ==> s.arrivals[j].member != s.signal
  }

  /** The position the callback has recorded in a log: the last accepted arrival, or 0 before any. */
  function Recorded(log: seq<Arrival>): nat {
    var m := Last(log, 0, Accepted);
    if m.Some? then m.value else 0
  }

  /** In a log that ends before an item is named, the recorded message is the latest of that name since `from`. */
  ghost predicate RecordedByName(log: seq<Arrival>, from: nat, signal: string) {
    var m := Recorded(log);
    && from <= m < |log| && log[m].member == signal
    && forall j :: m < j < |log| ==> log[j].member != signal
  }

  /** An answer arrived after the item was named. */
  predicate Answered(s: State) {
    Last(s.arrivals, s.openPoint, Answers).Some?
  }

  /** An item that polled takes its latest answer away whenever it was answered after it was named. */
  lemma AnsweredMatch(s: State)
    requires Invariant(s) && s.phase == Parsed && Answered(s)
    ensures s.matchedLogIndex == Last(s.arrivals, s.openPoint, Answers).value
    ensures MatchIsLatestAnswer(s)
  {
    var k, m := Last(s.arrivals, s.openPoint, Answers).value, Last(s.arrivals, 0, Accepted).value;
    assert k <= m;
    assert s.arrivals[m].signal == s.signal;
    forall j | m < j < |s.arrivals|
      ensures s.arrivals[j].member != s.signal
    {
      assert s.arrivals[j].signal == s.signal;
    }
  }

  lemma {:induction false} LastInPrefix(arrivals: seq<Arrival>, n: nat, from: nat, test: Arrival -> bool)
    requires n <= |arrivals| && forall j :: n <= j < |arrivals| ==> !test(arrivals[j])
    ensures Last(arrivals, from, test) == Last(arrivals[..n], from, test)
    decreases |arrivals|
  {
    if n < |arrivals| {
      var shorter := arrivals[..|arrivals| - 1];
      assert shorter[..n] == arrivals[..n];
      LastInPrefix(shorter, n, from, test);
    } else {
      assert arrivals[..n] == arrivals;
    }
  }

  /** Without an answer of its own the item keeps the position recorded before it was named. */
  lemma UnansweredMatch(s: State)
    requires Invariant(s) && s.phase == Parsed && !Answered(s)
    ensures s.openPoint <= |s.arrivals|
    ensures Last(s.arrivals, 0, Accepted) == Last(s.arrivals[..s.openPoint], 0, Accepted)
    ensures s.matchedLogIndex == Recorded(s.arrivals[..s.openPoint])
    ensures forall j :: s.openPoint <= j < |s.arrivals| ==> s.arrivals[j].member != s.signal
  {
    forall j | s.openPoint <= j < |s.arrivals|
      ensures !Accepted(s.arrivals[j]) && s.arrivals[j].member != s.signal
    {
      assert s.arrivals[j].signal == s.signal && !Answers(s.arrivals[j]);
    }
    LastInPrefix(s.arrivals, s.openPoint, 0, Accepted);
  }

  /**
   * For every item that polled, flag up or down: the match it takes away is the latest message of its window
   * under its own name exactly when an answer came after it was named, or the message recorded before it was
   * named happens to be the latest of that name. It takes some match exactly when its window holds an
   * accepted message, or is the first window and nothing was ever accepted.
   */
  lemma MatchedResponse(loads: Loader, es: seq<Event>, s: State)
    requires Reached(loads, es, s) && s.phase == Parsed
    ensures s.openPoint <= |s.arrivals|
    ensures MatchIsLatestAnswer(s) <==>
            Answered(s) || RecordedByName(s.arrivals[..s.openPoint], s.startLogIndex, s.signal)
    ensures MatchedInWindow(s).Some? <==>
            || Last(s.arrivals, s.startLogIndex, Accepted).Some?
            || (s.startLogIndex == 0 && s.arrivals != [] && Last(s.arrivals, 0, Accepted).None?)
    ensures s.flag != 0 ==> s.startLogIndex <= s.resetPoint <= s.matchedLogIndex < |s.arrivals|
    ensures s.flag != 0 && RaceFree(s) ==> MatchIsLatestAnswer(s)
  {
    ReachedInvariant(loads, es, s);
    RecordedSince(s.arrivals, s.startLogIndex);
    FlagMeansMatch(s);
    if Answered(s) {
      AnsweredMatch(s);
    } else {
      KeptMatch(s);
    }
  }

  lemma FlagMeansMatch(s: State)
    requires Invariant(s) && s.phase == Parsed
    ensures s.flag != 0 ==> s.startLogIndex <= s.resetPoint <= s.matchedLogIndex < |s.arrivals|
    ensures s.flag != 0 && RaceFree(s) ==> Answered(s)
  {
    if s.flag != 0 {
      var k := Last(s.arrivals, s.resetPoint, Answers).value;
      assert k <= Last(s.arrivals, 0, Accepted).value;
      assert RaceFree(s) ==> s.openPoint <= k;
    }
  }

  lemma KeptMatch(s: State)
    requires Invariant(s) && s.phase == Parsed && !Answered(s)
    ensures s.openPoint <= |s.arrivals|
    ensures MatchIsLatestAnswer(s) <==> RecordedByName(s.arrivals[..s.openPoint], s.startLogIndex, s.signal)
  {
    hide Last;
    UnansweredMatch(s);
    var log, m := s.arrivals[..s.openPoint], s.matchedLogIndex;
    assert MatchIsLatestAnswer(s) ==> m < s.openPoint;
    assert forall j :: 0 <= j < |log| ==> log[j] == s.arrivals[j];
  }

  lemma RecordedSince(arrivals: seq<Arrival>, from: nat)
    ensures var m := Last(arrivals, 0, Accepted);
            Last(arrivals, from, Accepted).Some? <==> m.Some? && from <= m.value
  {
    var m, n := Last(arrivals, 0, Accepted), Last(arrivals, from, Accepted);
    if n.Some? {
      assert m.Some? && n.value <= m.value;
    }
    if m.Some? && from <= m.value {
      assert n.Some?;
    }
  }

  /** The item that ended last ended without collecting. */
  predicate EndedByAbort(es: seq<Event>) {
    && es != []
    && var e := es[|es| - 1];
       e == AbortOnboarding || (e != Collect && EndedByAbort(es[..|es| - 1]))
  }

  /** Between items, what arrived since the last collection came under one signal; so did an item's earlier messages. */
  ghost predicate OnePredecessor(s: State) {
    && (!InItem(s) ==> s.openPoint <= s.lastLogIndex)
    && (InItem(s) ==> forall i, j :: s.startLogIndex <= i < j < s.openPoint && j < |s.arrivals| ==>
          s.arrivals[i].signal == s.arrivals[j].signal)
  }

  lemma StepKeepsPredecessor(loads: Loader, s: State, e: Event)
    requires Invariant(s) && Enabled(loads, s, e)
    requires e == Collect || (OnePredecessor(s) && e != AbortOnboarding)
    ensures OnePredecessor(Step(loads, s, e))
  {
    hide Last, MatchInvariant, ResponseInvariant, Concat, Pool;
  }

  lemma {:induction false} CollectedPredecessor(loads: Loader, es: seq<Event>, s: State)
    requires Reached(loads, es, s) && !EndedByAbort(es)
    ensures OnePredecessor(s)
    decreases |es|
  {
    if es != [] {
      hide OnePredecessor, Invariant;
      RunUnsnoc(loads, INITIAL, es);
      var before, e := Run(loads, INITIAL, es[..|es| - 1]).value, es[|es| - 1];
      ReachedInvariant(loads, es[..|es| - 1], before);
      if e != Collect {
        CollectedPredecessor(loads, es[..|es| - 1], before);
      }
      StepKeepsPredecessor(loads, before, e);
    }
  }

  /**
   * When the item before it collected, or there was none, a window with an accepted message gives the right
   * match exactly when the item was answered after it was named or the item before it had the same name.
   * ("notify" is the member of notifications; no item has that name.)
   */
  lemma StaleMatchIsRightIff(loads: Loader, es: seq<Event>, s: State)
    requires Reached(loads, es, s) && !EndedByAbort(es) && s.phase == Parsed && s.signal != "notify"
    requires Last(s.arrivals, s.startLogIndex, Accepted).Some?
    ensures s.startLogIndex < |s.arrivals|
    ensures MatchIsLatestAnswer(s) <==> Answered(s) || s.arrivals[s.startLogIndex].signal == s.signal
  {
    ReachedInvariant(loads, es, s);
    CollectedPredecessor(loads, es, s);
    RecordedSince(s.arrivals, s.startLogIndex);
    MatchByName(s, s.startLogIndex);
  }

  /**
   * With the flag up the item before may also have been aborted: the match is right exactly when the item was
   * answered after it was named, or the item that was current when the flag was cleared had the same name.
   */
  lemma FlagUpMatchIff(loads: Loader, es: seq<Event>, s: State)
    requires Reached(loads, es, s) && s.phase == Parsed && s.flag != 0 && s.signal != "notify"
    ensures s.resetPoint < |s.arrivals|
    ensures MatchIsLatestAnswer(s) <==> Answered(s) || s.arrivals[s.resetPoint].signal == s.signal
  {
    ReachedInvariant(loads, es, s);
    FlagMeansMatch(s);
    RecordedSince(s.arrivals, s.resetPoint);
    var k := Last(s.arrivals, s.resetPoint, Answers).value;
    assert Accepted(s.arrivals[k]);
    MatchByName(s, s.resetPoint);
  }

  /** A recorded message from a stretch that came under one signal belongs to the item exactly by that name. */
  lemma MatchByName(s: State, from: nat)
    requires Invariant(s) && s.phase == Parsed && s.signal != "notify"
    requires s.startLogIndex <= from <= s.openPoint
    requires forall i, j :: from <= i < j < s.openPoint ==> s.arrivals[i].signal == s.arrivals[j].signal
    requires Last(s.arrivals, 0, Accepted).Some? && from <= Last(s.arrivals, 0, Accepted).value
    ensures MatchIsLatestAnswer(s) <==> Answered(s) || s.arrivals[from].signal == s.signal
  {
    if Answered(s) {
      AnsweredMatch(s);
    } else {
      KeptMatch(s);
      UnansweredMatch(s);
      RecordedIsNamed(s.arrivals[..s.openPoint], from, s.arrivals[from].signal, s.signal);
    }
  }

  /** In a log whose end came under one signal, the recorded message has that signal's name. */
  lemma RecordedIsNamed(log: seq<Arrival>, from: nat, before: string, signal: string)
    requires Last(log, 0, Accepted).Some? && from <= Recorded(log)
    requires signal != "notify" && signal != "listen_notification"
    requires forall i :: from <= i < |log| ==> log[i].signal == before
    ensures RecordedByName(log, from, signal) <==> before == signal
  {
    hide Last;
    var m := Recorded(log);
    assert log[m].member == before || log[m].member == "notify";
    forall j | m < j < |log|
      ensures log[j].member != before
    {
      assert log[j].signal == before;
    }
  }
}
