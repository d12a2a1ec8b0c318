/** What runs of the item protocol do to polling and to the device cache, and what the gap can cause. */
module ItemRuns {
  import opened Options
  import opened JsonTree
  import opened Text
  import opened Devices
  import opened ItemProtocol

  predicate PollingOnly(es: seq<Event>) {
    forall e :: e in es ==> e.PollTick? || e.Deliver?
  }

  function Ticks(es: seq<Event>): nat {
    if es == [] then 0 else (if es[0].PollTick? then 1 else 0) + Ticks(es[1..])
  }

  /** Whether an event is a step of the main thread other than sleeping. */
  predicate IsMainStep(e: Event) {
    !e.Deliver? && !e.PollTick?
  }

  /** What the main thread does, apart from sleeping. */
  function MainSteps(es: seq<Event>): seq<Event> {
    if es == [] then []
    else (if IsMainStep(es[0]) then [es[0]] else []) + MainSteps(es[1..])
  }

  /** The main thread's steps of a whole item: two kinds only sleep, the others send, wait and parse. */
  function CompleteSteps(testItem: string, itemType: string): seq<Event> {
    [ResetFlag, OpenItem(testItem, itemType)] +
    if testItem == "onboarding" || testItem == "listen_notification" then [Collect]
    else [Analyse, ParseResponse, Collect]
  }

  lemma HeadStep(es: seq<Event>)
    requires es != []
    ensures MainSteps(es) == (if IsMainStep(es[0]) then [es[0]] else []) + MainSteps(es[1..])
    ensures IsMainStep(es[0]) ==> MainSteps(es)[0] == es[0] && es[0] in MainSteps(es)
    ensures forall e :: e in MainSteps(es[1..]) ==> e in MainSteps(es)
  {
    var head, tail := if IsMainStep(es[0]) then [es[0]] else [], MainSteps(es[1..]);
    assert MainSteps(es) == head + tail;
    hide MainSteps;
    forall e | e in tail
      ensures e in head + tail
    {
      var i :| 0 <= i < |tail| && tail[i] == e;
      assert (head + tail)[|head| + i] == e;
    }
  }

  lemma {:induction false} StepsConcat(es: seq<Event>, fs: seq<Event>)
    ensures MainSteps(es + fs) == MainSteps(es) + MainSteps(fs)
    ensures Ticks(es + fs) == Ticks(es) + Ticks(fs)
  {
    if es == [] {
      assert es + fs == fs;
    } else {
      assert (es + fs)[1..] == es[1..] + fs;
      StepsConcat(es[1..], fs);
      HeadStep(es);
      HeadStep(es + fs);
      hide MainSteps;
      var first := if IsMainStep(es[0]) then [es[0]] else [];
      assert first + (MainSteps(es[1..]) + MainSteps(fs)) == (first + MainSteps(es[1..])) + MainSteps(fs);
    }
  }

  lemma OneStep(e: Event)
    ensures MainSteps([e]) == if e.Deliver? || e.PollTick? then [] else [e]
    ensures Ticks([e]) == if e.PollTick? then 1 else 0
  {
    assert [e][1..] == [];
  }

  lemma {:induction false} OnlyDeliveries(es: seq<Event>)
    requires forall e :: e in es ==> e.Deliver?
    ensures MainSteps(es) == [] && Ticks(es) == 0
  {
    if es != [] {
      assert es[0] in es;
      OnlyDeliveries(es[1..]);
    }
  }

  /**
   * Polling lasts at most 300 sleeps whatever arrives; at each point it either goes on or is over, and the
   * analysis branch is taken exactly when the flag is up before the last sleep has been counted.
   */
  lemma {:induction false} PollBound(loads: Loader, s: State, es: seq<Event>)
    requires s.phase.Polling? && s.phase.timeout <= POLL_LIMIT && PollingOnly(es)
    requires Run(loads, s, es).Some?
    ensures var t, n := Run(loads, s, es).value, s.phase.timeout + Ticks(es);
            && n <= 300 && t.phase == Polling(n)
            && (Enabled(loads, t, PollTick) <==> !Enabled(loads, t, Analyse))
            && (Enabled(loads, t, Analyse) ==>
                  Step(loads, t, Analyse).phase == Analysed(t.flag == 1 && n < 300))
    decreases |es|
  {
    if es != [] {
      assert es[0] in es;
      PollBound(loads, Step(loads, s, es[0]), es[1..]);
    }
  }

  /** An answer that arrives during the last sleep raises the flag and is recorded, yet never analysed. */
  lemma LateAnswer(loads: Loader, es: seq<Event>, s: State, message: string, srcPath: string)
    requires Reached(loads, es, s) && s.phase == Polling(POLL_LIMIT) && s.flag != 1
    ensures s.startLogIndex <= |s.arrivals|
    ensures var answer := Deliver(1, message, srcPath, s.signal);
            var t := Step(loads, s, answer);
            && MatchedInWindow(t) == Some(|Window(t)| - 1)
            && Enabled(loads, t, Analyse) && Step(loads, t, Analyse).flag == 1
            && Step(loads, t, Analyse).phase == Analysed(false)
  {
    ReachedInvariant(loads, es, s);
    DeliveryKeepsPoints(s, 1, message, srcPath, s.signal);
  }

  /** Nothing arrives while the item polls: `n` more sleeps. */
  lemma Sleep(loads: Loader, es: seq<Event>, s: State, n: nat) returns (fs: seq<Event>, t: State)
    requires Reached(loads, es, s) && s.phase.Polling? && s.flag != 1 && s.phase.timeout + n <= POLL_LIMIT
    ensures Reached(loads, fs, t) && t == s.(phase := Polling(s.phase.timeout + n))
    decreases n
  {
    fs, t := es, s;
    if n > 0 {
      fs, t := Follow(loads, fs, t, PollTick);
      fs, t := Sleep(loads, fs, t, n - 1);
    }
  }

  /** A run that gets an answer in its last sleep and analyses nothing. */
  lemma LateAnswerHappens(loads: Loader, late: string) returns (es: seq<Event>, s: State)
    ensures Reached(loads, es, s)
    ensures s.phase == Analysed(false) && s.flag == 1 && s.signal == "read_spec"
    ensures MatchedInWindow(s) == Some(0) && Window(s) == [late]
  {
    es, s := [], INITIAL;
    es, s := Follow(loads, es, s, ResetFlag);
    es, s := Follow(loads, es, s, OpenItem("read_spec", "zwave"));
    es, s := Sleep(loads, es, s, POLL_LIMIT);
    es, s := Follow(loads, es, s, Deliver(1, late, "", "read_spec"));
    es, s := Follow(loads, es, s, Analyse);
    assert Window(s) == [late];
  }

  /** What the latest listing of a run gave: the entries of the response its list_devices item held when parsed. */
  function LatestListing(loads: Loader, es: seq<Event>): seq<DeviceInfo>
    requires Run(loads, INITIAL, es).Some?
    decreases |es|
  {
    if es == [] then []
    else
      RunUnsnoc(loads, INITIAL, es);
      var before := Run(loads, INITIAL, es[..|es| - 1]).value;
      if es[|es| - 1] == ParseResponse && before.signal == "list_devices" then ListedIn(loads, before.response.message)
      else LatestListing(loads, es[..|es| - 1])
  }

  /** In every reachable state the cache is the latest listing, and empty before the first. */
  lemma {:induction false} DeviceCache(loads: Loader, es: seq<Event>, s: State)
    requires Reached(loads, es, s)
    ensures s.devices == LatestListing(loads, es)
    decreases |es|
  {
    if es != [] {
      RunUnsnoc(loads, INITIAL, es);
      DeviceCache(loads, es[..|es| - 1], Run(loads, INITIAL, es[..|es| - 1]).value);
    }
  }

  /**
   * Whatever the substitution changes becomes a configured device or one of the latest listing, in a plain
   * argument or spliced into a rule action.
   */
  lemma SubstitutionUsesLatestListing(
    loads: Loader, es: seq<Event>, s: State, signal: string, config: InputConfiguration, args: seq<string>, k: nat)
    requires Reached(loads, es, s)
    requires UpdateDefined(signal, config, s.devices, args) && k < |args|
    ensures var r := UpdatedArgs(signal, config, s.devices, args);
            r[k] != args[k] ==> FromConfigOrList(signal, config, LatestListing(loads, es), k, args[k], r[k])
  {
    DeviceCache(loads, es, s);
    ArgumentFrame(signal, config, s.devices, args, k);
  }

  /** Every slot that differs became a configured device or one of the latest listing. */
  ghost predicate SlotsUseLatestListing(
    loads: Loader, es: seq<Event>, signal: string, config: InputConfiguration, before: seq<string>, after: seq<string>)
    requires Run(loads, INITIAL, es).Some?
  {
    |after| == |before| &&
    forall k :: 0 <= k < |before| && after[k] != before[k] ==>
      FromConfigOrList(signal, config, LatestListing(loads, es), k, before[k], after[k])
  }

  lemma AllSlotsUseLatestListing(
    loads: Loader, es: seq<Event>, s: State, signal: string, config: InputConfiguration, args: seq<string>)
    requires Reached(loads, es, s) && UpdateDefined(signal, config, s.devices, args)
    ensures SlotsUseLatestListing(loads, es, signal, config, args, UpdatedArgs(signal, config, s.devices, args))
  {
    var r := UpdatedArgs(signal, config, s.devices, args);
    forall k | 0 <= k < |args|
      ensures |r| == |args|
      ensures r[k] != args[k] ==> FromConfigOrList(signal, config, LatestListing(loads, es), k, args[k], r[k])
    {
      ArgumentFrame(signal, config, s.devices, args, k);
      SubstitutionUsesLatestListing(loads, es, s, signal, config, args, k);
    }
  }

  /**
   * With the flag up in time the analysis sees the latest answer, and for upnp breaks its lines for the report;
   * when the sleeps have run out the response stays as it is.
   */
  lemma AnalysisReadsAnswer(loads: Loader, es: seq<Event>, s: State)
    requires Reached(loads, es, s) && Enabled(loads, s, Analyse)
    ensures var t, k := Step(loads, s, Analyse), Last(s.arrivals, s.startLogIndex, Answers);
            if s.flag == 1 && s.phase.timeout < 300 then
              && t.phase == Analysed(true) && k.Some?
              && var message := s.arrivals[k.value].message;
                 t.response.message == if s.itemType == "upnp" then Replaced(message, "\n", "<br><br>") else message
            else t.phase == Analysed(false) && t.response == s.response
  {
    hide Last, Replaced;
    ReachedInvariant(loads, es, s);
  }

  /**
   * Where a listing comes from, answered or timed out: it is parsed from the latest answer since the last
   * collection, in its rewritten form for upnp, and is empty without one. That answer is the item's own exactly
   * when the item was answered after it was named, as it was if the analysis saw the flag and there was no race;
   * otherwise it answered an item before.
   */
  lemma ListingComesFromAnswer(loads: Loader, es: seq<Event>, s: State)
    requires Reached(loads, es, s) && s.phase.Analysed? && s.signal == "list_devices"
    requires Enabled(loads, s, ParseResponse)
    ensures var devices, k := Step(loads, s, ParseResponse).devices, Last(s.arrivals, s.startLogIndex, Answers);
            && (k.None? ==> devices == [])
            && (k.Some? ==>
                  var message := s.arrivals[k.value].message;
                  || (ListingDefined(loads, message) && devices == ListedIn(loads, message))
                  || (s.itemType == "upnp" &&
                      var rewritten := Replaced(message, "\n", LINE_BREAK);
                      ListingDefined(loads, rewritten) && devices == ListedIn(loads, rewritten)))
            && (k.Some? && s.openPoint <= k.value <==> Answered(s))
            && (Answered(s) ==>
                  k == Last(s.arrivals, s.openPoint, Answers) && s.arrivals[k.value].member == "list_devices")
    ensures s.phase == Analysed(true) && RaceFree(s) ==> Answered(s)
  {
    hide Last;
    ReachedInvariant(loads, es, s);
    if s.phase == Analysed(true) {
      assert Answers(s.arrivals[Last(s.arrivals, s.resetPoint, Answers).value]);
    }
  }

  /**
   * A listing that times out parses a late answer to the item before it: the devices cached are those of a
   * response that no listing asked for.
   */
  lemma LateAnswerIsListed(loads: Loader, late: string) returns (es: seq<Event>, s: State)
    requires late != "" && ListingDefined(loads, late)
    ensures Reached(loads, es, s)
    ensures s.phase == Parsed && s.flag == 0 && s.signal == "list_devices" && RaceFree(s) && !Answered(s)
    ensures |s.arrivals| == 2 && s.arrivals[1] == Arrival(late, "get_binary", "get_binary")
    ensures s.devices == DevicesOf(ListEntries(loads(late)))
  {
    es, s := AnsweredItem(loads);
    es, s := Follow(loads, es, s, Deliver(1, late, "", "get_binary"));
    es, s := Follow(loads, es, s, ResetFlag);
    es, s := Follow(loads, es, s, OpenItem("list_devices", "zwave"));
    es, s := Sleep(loads, es, s, POLL_LIMIT);
    es, s := Follow(loads, es, s, Analyse);
    es, s := Follow(loads, es, s, ParseResponse);
  }

  /** Cuts a run at one of the main thread's steps. */
  lemma {:induction false} CutAtStep(es: seq<Event>, k: nat) returns (n: nat)
    requires k < |MainSteps(es)|
    ensures n < |es| && es[n] == MainSteps(es)[k]
    ensures MainSteps(es[..n]) == MainSteps(es)[..k]
    ensures MainSteps(es[n + 1..]) == MainSteps(es)[k + 1..]
    decreases |es|
  {
    assert es != [];
    hide MainSteps;
    HeadStep(es);
    if IsMainStep(es[0]) && k == 0 {
      n := 0;
      NoSteps(es[..0]);
    } else {
      var m := CutAtStep(es[1..], if IsMainStep(es[0]) then k - 1 else k);
      n := m + 1;
      HeadStep(es[..n]);
      assert es[..n][1..] == es[1..][..m] && es[n + 1..] == es[1..][m + 1..];
    }
  }

  lemma NoSteps(es: seq<Event>)
    requires es == []
    ensures MainSteps(es) == []
  {
  }

  /** Steps between the naming of an item and its end change neither its name nor where it began. */
  lemma {:induction false} QuietSteps(loads: Loader, s: State, es: seq<Event>)
    requires Run(loads, s, es).Some?
    requires forall e :: e in MainSteps(es) ==> e == Analyse || e == ParseResponse || e == Collect
    ensures var t := Run(loads, s, es).value;
            && t.signal == s.signal && t.itemType == s.itemType && t.openPoint == s.openPoint
            && ((s.signal != "list_devices" || ParseResponse !in MainSteps(es)) ==> t.devices == s.devices)
    decreases |es|
  {
    if es != [] {
      HeadStep(es);
      QuietSteps(loads, Step(loads, s, es[0]), es[1..]);
    }
  }

  /** A run cut in two at one of its events. */
  lemma RunAt(loads: Loader, s: State, es: seq<Event>, n: nat)
    requires Run(loads, s, es).Some? && n < |es|
    ensures Run(loads, s, es[..n]).Some?
    ensures var t := Run(loads, s, es[..n]).value;
            && Enabled(loads, t, es[n]) && Run(loads, Step(loads, t, es[n]), es[n + 1..]) == Run(loads, s, es)
    decreases n
  {
    if n > 0 {
      RunAt(loads, Step(loads, s, es[0]), es[1..], n - 1);
      assert es[1..][..n - 1] == es[..n][1..] && es[1..][n..] == es[n + 1..];
    }
  }

  /**
   * The cache holds what was parsed in state `before`: the devices of the latest answer that came after the
   * listing was named, if there was one; for upnp of that answer or its rewritten form.
   */
  ghost predicate CachesOwnAnswer(loads: Loader, before: State, devices: seq<DeviceInfo>) {
    var k := Last(before.arrivals, before.openPoint, Answers);
    k.Some? ==>
      var message := before.arrivals[k.value].message;
      && before.arrivals[k.value].member == "list_devices"
      && ((ListingDefined(loads, message) && devices == ListedIn(loads, message))
          || (before.itemType == "upnp" &&
              var rewritten := Replaced(message, "\n", LINE_BREAK);
              ListingDefined(loads, rewritten) && devices == ListedIn(loads, rewritten)))
  }

  /** The one parsing step of the run was taken in a state from which the cache follows. */
  ghost predicate ListingCached(loads: Loader, start: State, es: seq<Event>, devices: seq<DeviceInfo>) {
    exists n :: 0 <= n < |es| && es[n] == ParseResponse && Run(loads, start, es[..n]).Some?
                && CachesOwnAnswer(loads, Run(loads, start, es[..n]).value, devices)
  }

  /** Steps before the naming do not touch the cache. */
  lemma {:induction false} UnnamedSteps(loads: Loader, s: State, es: seq<Event>)
    requires Run(loads, s, es).Some? && MainSteps(es) <= [ResetFlag]
    ensures Run(loads, s, es).value.devices == s.devices
    decreases |es|
  {
    if es != [] {
      HeadStep(es);
      UnnamedSteps(loads, Step(loads, s, es[0]), es[1..]);
    }
  }

  /** From the naming on an item keeps its name, and without a listing the cache stays. */
  lemma NamedSteps(loads: Loader, s: State, es: seq<Event>, testItem: string, itemType: string)
    requires Run(loads, s, es).Some? && |MainSteps(es)| >= 2
    requires MainSteps(es)[..2] == [ResetFlag, OpenItem(testItem, itemType)]
    requires forall e :: e in MainSteps(es)[2..] ==> e == Analyse || e == ParseResponse || e == Collect
    ensures var t := Run(loads, s, es).value;
            && t.signal == testItem && t.itemType == itemType
            && (testItem != "list_devices" || ParseResponse !in MainSteps(es)[2..] ==> t.devices == s.devices)
  {
    hide Run;
    var n := CutAtStep(es, 1);
    RunAt(loads, s, es, n);
    assert MainSteps(es)[..1] == [ResetFlag];
    assert MainSteps(es)[1] == MainSteps(es)[..2][1];
    UnnamedSteps(loads, s, es[..n]);
    QuietSteps(loads, Step(loads, Run(loads, s, es[..n]).value, es[n]), es[n + 1..]);
  }

  /**
   * A whole list_devices item caches the devices of its own latest answer, if one came between its naming and
   * its parsing; every other item leaves the cache alone.
   */
  lemma ItemCache(loads: Loader, history: seq<Event>, start: State, es: seq<Event>, s: State,
                  testItem: string, itemType: string)
    requires Reached(loads, history, start) && Run(loads, start, es) == Some(s)
    requires MainSteps(es) == CompleteSteps(testItem, itemType)
    ensures testItem == "list_devices" ==> ListingCached(loads, start, es, s.devices)
    ensures testItem != "list_devices" ==> s.devices == start.devices
  {
    hide Run;
    if testItem == "list_devices" {
      var n := CutAtStep(es, 3);
      RunAt(loads, start, es, n);
      var before := Run(loads, start, es[..n]).value;
      var steps := MainSteps(es);
      assert steps[..3] == [ResetFlag, OpenItem(testItem, itemType), Analyse];
      assert steps[..3][..2] == [ResetFlag, OpenItem(testItem, itemType)] && steps[..3][2..] == [Analyse];
      NamedSteps(loads, start, es[..n], testItem, itemType);
      assert steps[4..] == [Collect];
      QuietSteps(loads, Step(loads, before, ParseResponse), es[n + 1..]);
      RunConcat(loads, INITIAL, history, es[..n]);
      ParsedOwnAnswer(loads, history + es[..n], before);
    } else {
      NamedSteps(loads, start, es, testItem, itemType);
    }
  }

  lemma ParsedOwnAnswer(loads: Loader, es: seq<Event>, s: State)
    requires Reached(loads, es, s) && Enabled(loads, s, ParseResponse) && s.signal == "list_devices"
    ensures CachesOwnAnswer(loads, s, Step(loads, s, ParseResponse).devices)
  {
    hide Run, Last;
    ListingComesFromAnswer(loads, es, s);
  }

  /**
   * The gap is real: an answer to the previous item that arrives between the two halves of the setup ends the
   * next item's polling at once and is taken away as its matched response.
   */
  lemma StaleAnswerWins(loads: Loader, late: string) returns (es: seq<Event>, s: State)
    ensures Reached(loads, es, s)
    ensures s.phase == Parsed && s.flag == 1 && s.signal == "read_spec"
    ensures MatchedInWindow(s) == Some(0) && Window(s) == [late]
    ensures s.arrivals[s.matchedLogIndex].member == "get_binary"
    ensures !RaceFree(s) && !MatchIsLatestAnswer(s)
  {
    es, s := AnsweredItem(loads);
    es, s := Follow(loads, es, s, ResetFlag);
    es, s := Follow(loads, es, s, Deliver(1, late, "", "get_binary"));
    es, s := Follow(loads, es, s, OpenItem("read_spec", "zwave"));
    es, s := Follow(loads, es, s, Analyse);
    es, s := Follow(loads, es, s, ParseResponse);
    assert Window(s) == [late];
    assert s.arrivals[1] == Arrival(late, "get_binary", "get_binary");
  }

  /**
   * No race is needed: an answer to the previous item that arrives after that item was collected lies in the
   * next item's window, and when the next item times out it is taken away as its matched response.
   */
  lemma IdleAnswerIsTaken(loads: Loader, late: string) returns (es: seq<Event>, s: State)
    ensures Reached(loads, es, s)
    ensures s.phase == Parsed && s.flag == 0 && s.signal == "read_spec" && Enabled(loads, s, Collect)
    ensures MatchedInWindow(s) == Some(0) && Window(s) == [late]
    ensures s.arrivals[s.matchedLogIndex].member == "get_binary"
    ensures RaceFree(s) && !MatchIsLatestAnswer(s)
  {
    es, s := AnsweredItem(loads);
    es, s := Follow(loads, es, s, Deliver(1, late, "", "get_binary"));
    es, s := Follow(loads, es, s, ResetFlag);
    es, s := Follow(loads, es, s, OpenItem("read_spec", "zwave"));
    es, s := TimedOut(loads, es, s);
    assert Window(s) == [late];
    assert s.arrivals[1] == Arrival(late, "get_binary", "get_binary");
  }

  /** In the first window even a message the callback ignored is taken away as the match of a timed-out item. */
  lemma IgnoredMessageIsTaken(loads: Loader, stray: string) returns (es: seq<Event>, s: State)
    ensures Reached(loads, es, s)
    ensures s.phase == Parsed && s.flag == 0 && s.signal == "read_spec" && Enabled(loads, s, Collect)
    ensures MatchedInWindow(s) == Some(0) && Window(s) == [stray] && !Accepted(s.arrivals[0])
    ensures !MatchIsLatestAnswer(s)
  {
    es, s := [], INITIAL;
    es, s := Follow(loads, es, s, ResetFlag);
    es, s := Follow(loads, es, s, OpenItem("read_spec", "zwave"));
    es, s := Follow(loads, es, s, Deliver(1, stray, "", "notify"));
    es, s := TimedOut(loads, es, s);
    assert Window(s) == [stray];
  }

  /** All 300 sleeps pass without an answer. */
  lemma TimedOut(loads: Loader, es: seq<Event>, s: State) returns (fs: seq<Event>, t: State)
    requires Reached(loads, es, s) && s.phase == Polling(0) && s.flag != 1 && s.signal != "list_devices"
    ensures Reached(loads, fs, t) && t == s.(phase := Parsed)
  {
    fs, t := Sleep(loads, es, s, POLL_LIMIT);
    fs, t := Follow(loads, fs, t, Analyse);
    fs, t := Follow(loads, fs, t, ParseResponse);
  }

  /** One item from start to end, answered at once. */
  lemma AnsweredItem(loads: Loader) returns (es: seq<Event>, s: State)
    ensures Reached(loads, es, s)
    ensures s == State(Idle, "get_binary", "zwave", 0, 0, 0, NO_RESPONSE, 1, [],
                       [Arrival("first", "get_binary", "get_binary")], 0, 0, [["first"]])
  {
    es, s := [], INITIAL;
    es, s := Follow(loads, es, s, ResetFlag);
    es, s := Follow(loads, es, s, OpenItem("get_binary", "zwave"));
    es, s := Follow(loads, es, s, Deliver(1, "first", "", "get_binary"));
    es, s := Follow(loads, es, s, Analyse);
    es, s := Follow(loads, es, s, ParseResponse);
    assert Window(s) == ["first"];
    es, s := Follow(loads, es, s, Collect);
  }

  lemma Follow(loads: Loader, es: seq<Event>, s: State, e: Event) returns (fs: seq<Event>, t: State)
    requires Reached(loads, es, s) && Enabled(loads, s, e)
    ensures Reached(loads, fs, t) && t == Step(loads, s, e)
  {
    RunSnoc(loads, INITIAL, es, s, e);
    fs, t := es + [e], Step(loads, s, e);
  }
}
