/** What a finished test item hands to the verdict and to the learner: whether it has a matched message, and which. */
module CollectedItems {
  import opened Options
  import opened JsonTree
  import opened ItemProtocol
  import opened ItemRuns
  import opened References
  import opened TestCases

  /** The item took away the window and match of a finished poll; without a match its index is what memory held. */
  ghost predicate CollectedFrom(s: State, item: TestItem, junk: nat) {
    && s.startLogIndex <= |s.arrivals|
    && item.testItemLogPool == Window(s)
    && item.matchedRespMsgIndex == (var k := MatchedInWindow(s); if k.Some? then k.value else junk)
    && forall a :: a in item.testItemArg ==> a.value != []
  }

  /**
   * The verdict has a message to read exactly when the window holds an accepted message, or is the first one
   * and nothing was ever accepted, or the uninitialised index happens to fall inside the window. An item
   * answered after it was named is judged by its latest answer.
   */
  lemma CollectedMessage(loads: Loader, es: seq<Event>, s: State, item: TestItem, junk: nat)
    requires Reached(loads, es, s) && s.phase == Parsed && CollectedFrom(s, item, junk)
    ensures ItemDefined(item) <==>
            || Last(s.arrivals, s.startLogIndex, Accepted).Some?
            || (s.startLogIndex == 0 && s.arrivals != [] && Last(s.arrivals, 0, Accepted).None?)
            || junk < |Window(s)|
    ensures MatchIsLatestAnswer(s) ==>
              ItemDefined(item) && MatchedMessage(item) == s.arrivals[s.matchedLogIndex].message
    ensures Answered(s) ==>
              && ItemDefined(item)
              && MatchedMessage(item) == s.arrivals[Last(s.arrivals, s.openPoint, Answers).value].message
  {
    ReachedInvariant(loads, es, s);
    MatchedResponse(loads, es, s);
    if Answered(s) {
      AnsweredMatch(s);
    }
  }

  /** What is learned after an item: the message at the recorded position, looked up in the whole pool. */
  function LearnedMessage(s: State): string
    requires s.matchedLogIndex < |s.arrivals|
  {
    s.arrivals[s.matchedLogIndex].message
  }

  /** Whenever the learner looks, the recorded position is in the pool once anything has arrived. */
  lemma RecordedIsInPool(loads: Loader, es: seq<Event>, s: State)
    requires Reached(loads, es, s) && s.arrivals != []
    ensures s.matchedLogIndex < |s.arrivals|
  {
    ReachedInvariant(loads, es, s);
  }

  /**
   * The learner does not look at the window: it learns from the item's own latest answer exactly when the item
   * was answered after it was named, late answers after the collection included. An unanswered item learns
   * from the position recorded before it was named, whatever item that belonged to.
   */
  lemma LearnsOwnAnswerIff(loads: Loader, es: seq<Event>, s: State, file: Option<Json>, dumpOk: bool)
    requires Reached(loads, es, s) && IsReadSignal(s.signal) && s.arrivals != []
    ensures s.openPoint <= |s.arrivals| && s.matchedLogIndex < |s.arrivals|
    ensures s.openPoint <= s.matchedLogIndex && Answers(s.arrivals[s.matchedLogIndex]) <==> Answered(s)
    ensures Answered(s) ==>
              var answer := s.arrivals[Last(s.arrivals, s.openPoint, Answers).value].message;
              FileAfter(file, loads, Update(s.signal, LearnedMessage(s), dumpOk)) ==
              FileAfter(file, loads, Update(s.signal, answer, dumpOk))
    ensures !Answered(s) ==> s.matchedLogIndex == Recorded(s.arrivals[..s.openPoint])
  {
    ReachedInvariant(loads, es, s);
    RecordedIsInPool(loads, es, s);
    RecordedAfterNaming(s);
  }

  lemma RecordedAfterNaming(s: State)
    requires Invariant(s) && s.signal != "listen_notification"
    ensures s.openPoint <= |s.arrivals|
    ensures Answered(s) ==> s.matchedLogIndex == Last(s.arrivals, s.openPoint, Answers).value
    ensures !Answered(s) ==> s.matchedLogIndex == Recorded(s.arrivals[..s.openPoint])
    ensures !Answered(s) ==> !(s.openPoint <= s.matchedLogIndex < |s.arrivals| && Answers(s.arrivals[s.matchedLogIndex]))
  {
    hide Last;
    forall j | s.openPoint <= j < |s.arrivals|
      ensures Accepted(s.arrivals[j]) <==> Answers(s.arrivals[j])
    {
      assert s.arrivals[j].signal == s.signal;
    }
    if !Answered(s) {
      LastInPrefix(s.arrivals, s.openPoint, 0, Accepted);
    }
  }

  /** A silent read that times out learns from the answer to the item before it, which lies outside its window. */
  lemma SilentReadLearnsAgain(loads: Loader) returns (es: seq<Event>, s: State)
    ensures Reached(loads, es, s) && s.phase == Idle && s.signal == "read_spec" && !Answered(s)
    ensures s.matchedLogIndex < s.startLogIndex && s.windows == [["first"], []]
    ensures s.matchedLogIndex < |s.arrivals| && s.arrivals[s.matchedLogIndex].signal == "get_binary"
    ensures LearnedMessage(s) == "first"
  {
    es, s := AnsweredItem(loads);
    es, s := Follow(loads, es, s, ResetFlag);
    es, s := Follow(loads, es, s, OpenItem("read_spec", "zwave"));
    es, s := TimedOut(loads, es, s);
    assert Window(s) == [];
    es, s := Follow(loads, es, s, Collect);
  }
}
