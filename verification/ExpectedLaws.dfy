/** When expectation cases succeed, fail, or are left to chance. */
module ExpectedLaws {
  import opened Options
  import opened JsonTree
  import opened Numbers
  import opened TestCases
  import opened ReferenceVerdict
  import opened ExpectedVerdict

  /** Hexadecimal and decimal text of a number are read as that number, in whatever pieces they are given. */
  lemma WrittenNumberReadsPrinted(pieces: seq<string>, v: int)
    requires IsInt(v)
    requires Glue(pieces) == SignedDecimal(v) || (v >= 0 && Glue(pieces) == Hexadecimal(v))
    ensures WrittenNumber(pieces) == Some(v)
  {
    DecimalHasNoHexMark(v);
    DecimalRoundTrip(v);
    if v >= 0 {
      HexRoundTrip(v);
    }
  }

  /** How a text is cut into pieces changes nothing. */
  lemma OnlyTheGluedTextMatters(items: seq<TestItem>, others: seq<TestItem>, data: PrivateData)
    requires ItemsDefined(items) && ItemsDefined(others)
    requires WriteThenRead(items) && WriteThenRead(others)
    requires WrittenPieces(items) != [] && WrittenPieces(others) != []
    requires Glue(WrittenPieces(items)) == Glue(WrittenPieces(others))
    ensures InOut(items, data, "") == InOut(others, data, "")
  {
  }

  function LastMessage(loads: Loader, items: seq<TestItem>): Option<Json>
    requires items != [] && ItemsDefined(items)
  {
    loads(MatchedMessage(items[|items| - 1]))
  }

  /** The number a reply returns: its integer "value" as an int, or -1. */
  function ReturnedNumber(reply: Option<Json>): int {
    match Get(reply, "value")
    case Some(Integer(n)) => WrapToInt(n)
    case _ => -1
  }

  /** A configuration case with a numeric expectation, a final read reply and a readable written value. */
  predicate ConfigurationCase(loads: Loader, items: seq<TestItem>, expected: seq<JsonFormat>) {
    && items != [] && ItemsDefined(items)
    && ClassOf(items[0].testItemArg) == CONFIGURATION
    && IsReadReply(StringAt(LastMessage(loads, items), "method"))
    && FirstObject(expected, "value").Some? && FirstObject(expected, "value").value.value == []
    && IsInt(Truncate(FirstObject(expected, "value").value.numValue))
    && (WriteThenRead(items) ==> WrittenPieces(items) != [] && WrittenNumber(WrittenPieces(items)).Some?)
  }

  /**
   * The configuration verdict, sound and complete: success exactly when every status is good, the first
   * write is read back at once in its own flavour, and written, returned and expected value agree; unknown
   * exactly when all that is missing is the pairing of write and read; failure otherwise.
   */
  lemma ConfigurationVerdict(loads: Loader, items: seq<TestItem>, expected: seq<JsonFormat>, junk: Junk)
    requires ConfigurationCase(loads, items, expected)
    ensures var v := Evaluated(loads, items, Objects(expected), junk);
            var wanted := Truncate(FirstObject(expected, "value").value.numValue);
            var returned := ReturnedNumber(LastMessage(loads, items));
            && v.Some?
            && (v.value == VERDICT_RET_SUCCESS <==>
                && AllOk(loads, items) && WriteThenRead(items)
                && WrittenNumber(WrittenPieces(items)).value == returned == wanted)
            && (v.value == VERDICT_RET_UNKNOWN <==> AllOk(loads, items) && returned == wanted && !WriteThenRead(items))
            && v.value in {VERDICT_RET_SUCCESS, VERDICT_RET_UNKNOWN, VERDICT_RET_FAILED}
  {
    if AllOk(loads, items) {
      assert StatusOk(loads, items[|items| - 1]);
    }
  }

  /** An association case whose command, expected node and written node are all given. */
  predicate AssociationCase(loads: Loader, items: seq<TestItem>, expected: seq<JsonFormat>) {
    && items != [] && ItemsDefined(items)
    && ClassOf(items[0].testItemArg) == ASSOCIATION
    && CommandOf(items).Some? && CommandOf(items).value != ""
    && FirstValue(expected, "nodefollow") != []
    && WriteThenRead(items) && WrittenPieces(items) != []
    && AllTexts(ElementsAt(LastMessage(loads, items), "nodefollow"))
  }

  function ReturnedNodes(loads: Loader, items: seq<TestItem>): seq<string>
    requires items != [] && ItemsDefined(items)
    requires AllTexts(ElementsAt(LastMessage(loads, items), "nodefollow"))
  {
    TextsOf(ElementsAt(LastMessage(loads, items), "nodefollow"))
  }

  /** A plain read reply; only such a reply is searched for nodes. */
  predicate PlainReply(loads: Loader, items: seq<TestItem>)
    requires items != [] && ItemsDefined(items)
  {
    StringAt(LastMessage(loads, items), "method") == "read_specR"
  }

  /** What the command asks for: both nodes among the listed ones, or neither. */
  predicate CommandHolds(command: string, wanted: string, written: string, nodes: seq<string>) {
    if command == "SET" then wanted in nodes && written in nodes
    else command == "REMOVE" && wanted !in nodes && written !in nodes
  }

  /**
   * With all statuses good, SET succeeds exactly when both nodes are seen and REMOVE exactly when neither is;
   * the nodes seen are those returned by a plain read and none after a secure one. Other commands end unknown.
   */
  lemma AssociationVerdict(loads: Loader, items: seq<TestItem>, expected: seq<JsonFormat>, junk: Junk)
    requires AssociationCase(loads, items, expected)
    ensures var v := Evaluated(loads, items, Objects(expected), junk);
            var wanted, written := FirstValue(expected, "nodefollow")[0], WrittenPieces(items)[0];
            var seen := if PlainReply(loads, items) then ReturnedNodes(loads, items) else [];
            && v.Some?
            && (v.value == VERDICT_RET_SUCCESS <==>
                AllOk(loads, items) && CommandHolds(CommandOf(items).value, wanted, written, seen))
            && (v.value == VERDICT_RET_UNKNOWN <==> AllOk(loads, items) && CommandOf(items).value !in ["SET", "REMOVE"])
  {
    hide ResponseData, InOut, Expectation, CommandOf, AllOk, FirstValue, ElementsAt;
    AssociationComparisons(loads, items, expected, junk);
  }

  /** Both comparisons of an association look for their node among those seen. */
  lemma AssociationComparisons(loads: Loader, items: seq<TestItem>, expected: seq<JsonFormat>, junk: Junk)
    requires AssociationCase(loads, items, expected)
    ensures var command := CommandOf(items).value;
            var wanted, written := FirstValue(expected, "nodefollow")[0], WrittenPieces(items)[0];
            var seen := if PlainReply(loads, items) then ReturnedNodes(loads, items) else [];
            AllOk(loads, items) ==>
              Evaluated(loads, items, Objects(expected), junk) ==
              Some(Combine(NodeVerdict(command, wanted in seen), NodeVerdict(command, written in seen)))
  {
    hide FirstValue, CommandOf, WriteThenRead, WrittenPieces;
    assert AllOk(loads, items) ==> StatusOk(loads, items[|items| - 1]);
    var seen := if PlainReply(loads, items) then ReturnedNodes(loads, items) else [];
    assert AllOk(loads, items) ==> ResponseData(loads, items, junk) == Some(PrivateData(junk.value, seen, ASSOCIATION));
  }

  /** With good statuses and equal nodes exactly one of the two commands succeeds on any returned list. */
  lemma SetAndRemoveAreDual(
    loads: Loader, sets: seq<TestItem>, removes: seq<TestItem>, expected: seq<JsonFormat>, junk: Junk)
    requires AssociationCase(loads, sets, expected) && CommandOf(sets) == Some("SET")
    ensures && AssociationCase(loads, removes, expected) && CommandOf(removes) == Some("REMOVE")
            && AllOk(loads, sets) && AllOk(loads, removes)
            && LastMessage(loads, sets) == LastMessage(loads, removes)
            && WrittenPieces(sets)[0] == WrittenPieces(removes)[0] == FirstValue(expected, "nodefollow")[0] ==>
              (Evaluated(loads, sets, Objects(expected), junk) == Some(VERDICT_RET_SUCCESS)) !=
              (Evaluated(loads, removes, Objects(expected), junk) == Some(VERDICT_RET_SUCCESS))
  {
    AssociationVerdict(loads, sets, expected, junk);
    if AssociationCase(loads, removes, expected) {
      AssociationVerdict(loads, removes, expected, junk);
    }
  }

  /**
   * After a secure read the returned nodes are never looked at: with good statuses SET always fails and
   * REMOVE always succeeds.
   */
  lemma SecureAssociationIsBlind(loads: Loader, items: seq<TestItem>, expected: seq<JsonFormat>, junk: Junk)
    requires AssociationCase(loads, items, expected)
    requires StringAt(LastMessage(loads, items), "method") == "read_s_specR"
    ensures Evaluated(loads, items, Objects(expected), junk) == Some(VERDICT_RET_SUCCESS) <==>
            AllOk(loads, items) && CommandOf(items) == Some("REMOVE")
  {
    AssociationVerdict(loads, items, expected, junk);
  }

  /**
   * The verdict says what the returned node list says exactly when the reply is plain, a status is bad, or
   * the list could not have made a difference: a SET it does not meet, or a REMOVE it does.
   */
  lemma AssociationIsSoundIff(loads: Loader, items: seq<TestItem>, expected: seq<JsonFormat>, junk: Junk)
    requires AssociationCase(loads, items, expected)
    ensures var command, nodes := CommandOf(items).value, ReturnedNodes(loads, items);
            var wanted, written := FirstValue(expected, "nodefollow")[0], WrittenPieces(items)[0];
            (Evaluated(loads, items, Objects(expected), junk) == Some(VERDICT_RET_SUCCESS) <==>
             AllOk(loads, items) && CommandHolds(command, wanted, written, nodes)) <==>
            || PlainReply(loads, items) || !AllOk(loads, items)
            || (command == "SET" && (wanted !in nodes || written !in nodes))
            || (command == "REMOVE" && wanted !in nodes && written !in nodes)
            || command !in ["SET", "REMOVE"]
  {
    AssociationVerdict(loads, items, expected, junk);
  }

  /** For classes that are recognised but not compared, and for unknown ones, memory contents decide. */
  lemma UncomparedClassIsArbitrary(loads: Loader, items: seq<TestItem>, expected: Stored, verdict: int)
    requires items != [] && ItemsDefined(items) && AllOk(loads, items)
    requires ClassOf(items[0].testItemArg) in {SENSORMULTILEVEL, BATTERY, RESERVED}
    requires verdict in {VERDICT_RET_SUCCESS, VERDICT_RET_FAILED, VERDICT_RET_UNKNOWN}
    ensures exists junk :: Evaluated(loads, items, expected, junk) == Some(verdict)
  {
    var junk := Junk(0, BATTERY, verdict, verdict);
    assert Evaluated(loads, items, expected, junk) == Some(Combine(verdict, verdict));
  }

  /** The number that the suite expects: -1 without a "value", or with one given as text; none when it is left unwritten. */
  function GivenNumber(given: seq<SuiteFormat>): Option<int> {
    var o := FirstObject(given, "value");
    if o.None? || o.value.value != [] then Some(-1)
    else if o.value.numValue.Some? then Some(Truncate(o.value.numValue.value))
    else None
  }

  /** What was written can be read as a number, or is not looked at. */
  predicate WrittenIsReadable(items: seq<TestItem>)
    requires ItemsDefined(items)
  {
    WriteThenRead(items) && WrittenPieces(items) != [] ==> WrittenNumber(WrittenPieces(items)).Some?
  }

  /**
   * Comparing with the wanted number tells values of the unread `value` field apart: it is an int, and what
   * was written is either that number or not compared at all.
   */
  predicate ValueDecides(items: seq<TestItem>, wanted: int)
    requires ItemsDefined(items)
  {
    && IsInt(wanted)
    && (WriteThenRead(items) && WrittenPieces(items) != [] ==> WrittenNumber(WrittenPieces(items)) == Some(wanted))
  }

  /**
   * Comparing numbers gives one result for all memory: it throws, or the suite gives the number and the value
   * compared with it was read back or cannot agree.
   */
  predicate NumbersAreGiven(items: seq<TestItem>, given: Option<seq<SuiteFormat>>, readBack: bool)
    requires ItemsDefined(items)
  {
    || !WrittenIsReadable(items)
    || (given.Some? && GivenNumber(given.value).Some? &&
        (readBack || !ValueDecides(items, GivenNumber(given.value).value)))
  }

  /** The last message carries a node list that is looked at and holds something else than texts. */
  predicate NodesAreUnreadable(loads: Loader, items: seq<TestItem>)
    requires items != [] && ItemsDefined(items)
  {
    PlainReply(loads, items) && !AllTexts(ElementsAt(LastMessage(loads, items), "nodefollow"))
  }

  /** Evaluating the case reads nothing that was never written, or reads it without effect. */
  predicate MemoryIsIrrelevant(loads: Loader, items: seq<TestItem>, given: Option<seq<SuiteFormat>>)
    requires ItemsDefined(items)
  {
    || items == [] || !AllOk(loads, items)
    || match ClassOf(items[0].testItemArg)
       case CONFIGURATION =>
         NumbersAreGiven(items, given, IsReadReply(StringAt(LastMessage(loads, items), "method")))
       case ASSOCIATION =>
         || NodesAreUnreadable(loads, items) || CommandOf(items).None?
         || if CommandOf(items) == Some("") then NumbersAreGiven(items, given, false) else given.Some?
       case _ => false
  }

  /** The same outcome whatever the memory held, in the record of the case and in the evaluation's variables. */
  ghost predicate SameForAllMemory(loads: Loader, items: seq<TestItem>, given: Option<seq<SuiteFormat>>)
    requires ItemsDefined(items)
  {
    forall s, t, j, k :: Prepared(s, given) && Prepared(t, given) ==>
      Evaluated(loads, items, s, j) == Evaluated(loads, items, t, k)
  }

  /** In the record the first object with a key is the suite's, up to an unwritten number. */
  lemma {:induction false} FirstOfFilled(objs: seq<JsonFormat>, given: seq<SuiteFormat>, key: string)
    requires Fills(objs, given)
    ensures var o, g := FirstObject(objs, key), FirstObject(given, key);
            && (o.Some? <==> g.Some?)
            && (o.Some? ==>
                  && o.value.value == g.value.value
                  && (g.value.numValue.Some? ==> o.value.numValue == g.value.numValue.value))
    decreases |objs|
  {
    if objs != [] && objs[0].key != key {
      FirstOfFilled(objs[1..], given[1..], key);
    }
  }

  /** The numeric comparison as a function of the value it finds. */
  function ValueVerdict(items: seq<TestItem>, expected: Stored, data: PrivateData): Option<int>
    requires ItemsDefined(items)
  {
    var r1, r2 := Expectation(expected, data, ""), InOut(items, data, "");
    if r1.None? || r2.None? then None else Some(Combine(r1.value, r2.value))
  }

  lemma ValueVerdictVaries(items: seq<TestItem>, expected: Stored, a: PrivateData, b: PrivateData)
    requires ItemsDefined(items) && expected.Objects?
    ensures var wanted := ExpectedNumber(expected.objs);
            && (!ValueDecides(items, wanted) ==> ValueVerdict(items, expected, a) == ValueVerdict(items, expected, b))
            && (ValueDecides(items, wanted) && a.value == wanted != b.value ==>
                  ValueVerdict(items, expected, a) != ValueVerdict(items, expected, b))
  {
  }

  /** The comparison throws when the written text does, and only then if there is a number to compare with. */
  lemma ValueVerdictDefined(items: seq<TestItem>, expected: Stored, data: PrivateData)
    requires ItemsDefined(items)
    ensures ValueVerdict(items, expected, data).Some? <==>
            expected.Objects? && IsInt(ExpectedNumber(expected.objs)) && WrittenIsReadable(items)
  {
  }

  /** Numeric comparisons are made for a configuration case, and for an association whose command is empty. */
  lemma ComparedByValue(loads: Loader, items: seq<TestItem>, expected: Stored, junk: Junk)
    requires items != [] && ItemsDefined(items) && AllOk(loads, items)
    requires var c := ClassOf(items[0].testItemArg);
             c == CONFIGURATION || (c == ASSOCIATION && CommandOf(items) == Some(""))
    ensures var data := ResponseData(loads, items, junk);
            Evaluated(loads, items, expected, junk) ==
            if data.Some? then ValueVerdict(items, expected, data.value) else None
  {
  }

  /** The value compared: the one read back for a configuration read reply, otherwise the one in memory. */
  lemma ComparedValue(loads: Loader, items: seq<TestItem>, junk: Junk)
    requires items != [] && ItemsDefined(items) && AllOk(loads, items)
    ensures var data, c := ResponseData(loads, items, junk), ClassOf(items[0].testItemArg);
            && (c == CONFIGURATION ==>
                  && data.Some?
                  && data.value.value == if IsReadReply(StringAt(LastMessage(loads, items), "method"))
                                         then ReturnedNumber(LastMessage(loads, items)) else junk.value)
            && (c == ASSOCIATION ==>
                  && (data.None? <==> NodesAreUnreadable(loads, items))
                  && (data.Some? ==> data.value.value == junk.value))
  {
    assert StatusOk(loads, items[|items| - 1]);
  }

  /** The case compares numbers: those of a configuration, or of an association without a command. */
  predicate ComparesNumbers(loads: Loader, items: seq<TestItem>)
    requires ItemsDefined(items)
  {
    && items != [] && AllOk(loads, items)
    && var c := ClassOf(items[0].testItemArg);
       c == CONFIGURATION || (c == ASSOCIATION && CommandOf(items) == Some("") && !NodesAreUnreadable(loads, items))
  }

  /** The value compared was read back, not found in memory. */
  predicate ReadsBack(loads: Loader, items: seq<TestItem>)
    requires items != [] && ItemsDefined(items)
  {
    ClassOf(items[0].testItemArg) == CONFIGURATION && IsReadReply(StringAt(LastMessage(loads, items), "method"))
  }

  /** The outcome of a case that compares numbers. */
  lemma NumberOutcome(loads: Loader, items: seq<TestItem>, expected: Stored, junk: Junk) returns (data: PrivateData)
    requires ItemsDefined(items) && ComparesNumbers(loads, items)
    ensures Evaluated(loads, items, expected, junk) == ValueVerdict(items, expected, data)
    ensures data.value ==
            if ReadsBack(loads, items) then ReturnedNumber(LastMessage(loads, items)) else junk.value
  {
    hide Evaluated, ValueVerdict, ResponseData, ClassOf, AllOk;
    ComparedByValue(loads, items, expected, junk);
    ComparedValue(loads, items, junk);
    data := ResponseData(loads, items, junk).value;
  }

  /** In every memory that holds a suite's number the comparison is made with that number. */
  lemma GivenNumberIsStored(expected: Stored, given: seq<SuiteFormat>)
    requires Prepared(expected, Some(given)) && GivenNumber(given).Some?
    ensures ExpectedNumber(expected.objs) == GivenNumber(given).value
  {
    FirstOfFilled(expected.objs, given, "value");
  }

  lemma NumbersIgnored(loads: Loader, items: seq<TestItem>, given: Option<seq<SuiteFormat>>,
                       s: Stored, t: Stored, j: Junk, k: Junk)
    requires ItemsDefined(items) && ComparesNumbers(loads, items)
    requires NumbersAreGiven(items, given, ReadsBack(loads, items))
    requires Prepared(s, given) && Prepared(t, given)
    ensures Evaluated(loads, items, s, j) == Evaluated(loads, items, t, k)
  {
    hide Evaluated, ValueVerdict, ResponseData, ExpectedNumber, GivenNumber, ComparesNumbers, ReadsBack, Fills,
         WrittenIsReadable, ValueDecides;
    var a := NumberOutcome(loads, items, s, j);
    var b := NumberOutcome(loads, items, t, k);
    ValueVerdictDefined(items, s, a);
    ValueVerdictDefined(items, t, b);
    if WrittenIsReadable(items) {
      GivenNumberIsStored(s, given.value);
      GivenNumberIsStored(t, given.value);
      ValueVerdictVaries(items, s, a, b);
      SameNumberSameVerdict(items, s, if a.value == b.value then a else b, t, b);
    }
  }

  lemma SameNumberSameVerdict(items: seq<TestItem>, s: Stored, a: PrivateData, t: Stored, b: PrivateData)
    requires ItemsDefined(items) && s.Objects? && t.Objects?
    requires ExpectedNumber(s.objs) == ExpectedNumber(t.objs) && a.value == b.value
    ensures ValueVerdict(items, s, a) == ValueVerdict(items, t, b)
  {
  }

  lemma {:induction false} FilledNumber(given: seq<SuiteFormat>, number: real)
    ensures GivenNumber(given).None? ==> ExpectedNumber(Filled(given, number)) == Truncate(number)
    decreases |given|
  {
    if given != [] {
      assert Filled(given, number)[1..] == Filled(given[1..], number);
      FilledNumber(given[1..], number);
    }
  }

  /** Two memories that tell the outcomes of a numeric comparison apart. */
  lemma NumbersDecide(loads: Loader, items: seq<TestItem>, given: Option<seq<SuiteFormat>>)
    returns (s: Stored, t: Stored, j: Junk, k: Junk)
    requires ItemsDefined(items) && ComparesNumbers(loads, items)
    requires !NumbersAreGiven(items, given, ReadsBack(loads, items))
    ensures Prepared(s, given) && Prepared(t, given)
    ensures Evaluated(loads, items, s, j) != Evaluated(loads, items, t, k)
  {
    hide Evaluated, ValueVerdict, ResponseData, ExpectedNumber, GivenNumber, ComparesNumbers, ReadsBack, Fills,
         WrittenIsReadable;
    j, k := Junk(0, RESERVED, 0, 0), Junk(0, RESERVED, 0, 0);
    if given.None? {
      s, t := Unreadable, Objects([]);
      EmptyExpectation();
    } else if GivenNumber(given.value).None? {
      FilledNumber(given.value, 2147483648.0);
      FilledNumber(given.value, 0.0);
      s, t := Objects(Filled(given.value, 2147483648.0)), Objects(Filled(given.value, 0.0));
    } else {
      var wanted := GivenNumber(given.value).value;
      FilledNumber(given.value, 0.0);
      s, t := Objects(Filled(given.value, 0.0)), Objects(Filled(given.value, 0.0));
      GivenNumberIsStored(s, given.value);
      j := Junk(wanted, RESERVED, 0, 0);
      k := Junk(if wanted == INT_MAX then wanted - 1 else wanted + 1, RESERVED, 0, 0);
    }
    var a := NumberOutcome(loads, items, s, j);
    var b := NumberOutcome(loads, items, t, k);
    ValueVerdictDefined(items, s, a);
    ValueVerdictDefined(items, t, b);
    if s == t {
      ValueVerdictVaries(items, s, a, b);
    }
  }

  lemma EmptyExpectation()
    ensures ExpectedNumber([]) == -1
  {
  }

  /** An association with a command; the list it returned can be read. */
  predicate ComparesNodes(loads: Loader, items: seq<TestItem>)
    requires ItemsDefined(items)
  {
    && items != [] && AllOk(loads, items) && ClassOf(items[0].testItemArg) == ASSOCIATION
    && CommandOf(items).Some? && CommandOf(items).value != "" && !NodesAreUnreadable(loads, items)
  }

  /** The outcome of an association is decided by the expected nodes and the returned ones. */
  lemma NodesOutcome(loads: Loader, items: seq<TestItem>, expected: Stored, junk: Junk)
    returns (data: PrivateData, r2: int)
    requires ItemsDefined(items) && ComparesNodes(loads, items)
    ensures data.nodeFollow == if PlainReply(loads, items) then ReturnedNodes(loads, items) else []
    ensures InOut(items, data, CommandOf(items).value) == Some(r2)
    ensures var r1 := Expectation(expected, data, CommandOf(items).value);
            Evaluated(loads, items, expected, junk) == if r1.None? then None else Some(Combine(r1.value, r2))
  {
    hide InOut, Expectation, CommandOf;
    assert StatusOk(loads, items[|items| - 1]);
    data := ResponseData(loads, items, junk).value;
    InOutOfNodes(items, data, CommandOf(items).value);
    r2 := InOut(items, data, CommandOf(items).value).value;
  }

  lemma InOutOfNodes(items: seq<TestItem>, data: PrivateData, command: string)
    requires ItemsDefined(items) && command != ""
    ensures InOut(items, data, command).Some?
    ensures forall other: PrivateData :: other.nodeFollow == data.nodeFollow ==>
              InOut(items, other, command) == InOut(items, data, command)
  {
  }

  lemma SameNodesSameExpectation(
    given: seq<SuiteFormat>, s: Stored, a: PrivateData, t: Stored, b: PrivateData, command: string)
    requires Prepared(s, Some(given)) && Prepared(t, Some(given)) && a.nodeFollow == b.nodeFollow && command != ""
    ensures Expectation(s, a, command) == Expectation(t, b, command)
  {
    FirstOfFilled(s.objs, given, "nodefollow");
    FirstOfFilled(t.objs, given, "nodefollow");
  }

  lemma NodesIgnored(loads: Loader, items: seq<TestItem>, given: seq<SuiteFormat>, s: Stored, t: Stored, j: Junk, k: Junk)
    requires ItemsDefined(items) && ComparesNodes(loads, items)
    requires Prepared(s, Some(given)) && Prepared(t, Some(given))
    ensures Evaluated(loads, items, s, j) == Evaluated(loads, items, t, k)
  {
    hide Evaluated, Expectation, InOut, Prepared;
    var a, r := NodesOutcome(loads, items, s, j);
    var b, q := NodesOutcome(loads, items, t, k);
    InOutOfNodes(items, b, CommandOf(items).value);
    SameNodesSameExpectation(given, s, a, t, b, CommandOf(items).value);
  }

  /** Expected objects that were never written decide: reading them through a stray pointer is undefined. */
  lemma NodesDecide(loads: Loader, items: seq<TestItem>, junk: Junk)
    requires ItemsDefined(items) && ComparesNodes(loads, items)
    ensures Evaluated(loads, items, Unreadable, junk) != Evaluated(loads, items, NullPointer, junk)
  {
    hide Evaluated, InOut;
    var a, r := NodesOutcome(loads, items, Unreadable, junk);
    var b, q := NodesOutcome(loads, items, NullPointer, junk);
  }

  /** Nothing is compared: no item, a bad status, an unreadable node list, or no command to go by. */
  lemma NothingCompared(loads: Loader, items: seq<TestItem>, s: Stored, t: Stored, j: Junk, k: Junk)
    requires ItemsDefined(items)
    requires items != [] && AllOk(loads, items) ==>
               && ClassOf(items[0].testItemArg) == ASSOCIATION
               && (NodesAreUnreadable(loads, items) || CommandOf(items).None?)
    ensures Evaluated(loads, items, s, j) == Evaluated(loads, items, t, k)
  {
    if items != [] && AllOk(loads, items) {
      ComparedValue(loads, items, j);
      ComparedValue(loads, items, k);
    }
  }

  lemma MemoryIgnored(loads: Loader, items: seq<TestItem>, given: Option<seq<SuiteFormat>>,
                      s: Stored, t: Stored, j: Junk, k: Junk)
    requires ItemsDefined(items) && MemoryIsIrrelevant(loads, items, given)
    requires Prepared(s, given) && Prepared(t, given)
    ensures Evaluated(loads, items, s, j) == Evaluated(loads, items, t, k)
  {
    hide Evaluated, Prepared, NumbersAreGiven, NodesAreUnreadable, AllOk;
    if ComparesNumbers(loads, items) {
      NumbersIgnored(loads, items, given, s, t, j, k);
    } else if ComparesNodes(loads, items) {
      NodesIgnored(loads, items, given.value, s, t, j, k);
    } else {
      NothingCompared(loads, items, s, t, j, k);
    }
  }

  /** Two memories that tell the outcomes of a case apart, whenever they can be told apart. */
  lemma MemoryDecides(loads: Loader, items: seq<TestItem>, given: Option<seq<SuiteFormat>>)
    returns (s: Stored, t: Stored, j: Junk, k: Junk)
    requires ItemsDefined(items) && !MemoryIsIrrelevant(loads, items, given)
    ensures Prepared(s, given) && Prepared(t, given)
    ensures Evaluated(loads, items, s, j) != Evaluated(loads, items, t, k)
  {
    hide Evaluated, NumbersAreGiven, NodesAreUnreadable, AllOk, Fills;
    j, k := Junk(0, BATTERY, 0, 0), Junk(0, BATTERY, -1, -1);
    if ComparesNumbers(loads, items) {
      s, t, j, k := NumbersDecide(loads, items, given);
    } else if ComparesNodes(loads, items) {
      NodesDecide(loads, items, j);
      s, t, k := Unreadable, NullPointer, j;
    } else {
      s := AnyMemory(given);
      t := s;
      UncomparedVerdict(loads, items, s, j);
      UncomparedVerdict(loads, items, s, k);
    }
  }

  lemma AnyMemory(given: Option<seq<SuiteFormat>>) returns (s: Stored)
    ensures Prepared(s, given)
  {
    s := Unreadable;
    if given.Some? {
      FilledNumber(given.value, 0.0);
      s := Objects(Filled(given.value, 0.0));
    }
  }

  lemma UncomparedVerdict(loads: Loader, items: seq<TestItem>, expected: Stored, junk: Junk)
    requires items != [] && ItemsDefined(items) && AllOk(loads, items) && junk.cmdClass == BATTERY
    requires ClassOf(items[0].testItemArg) in {SENSORMULTILEVEL, BATTERY, RESERVED}
    ensures Evaluated(loads, items, expected, junk) == Some(Combine(junk.ret1, junk.ret2))
  {
  }

  /**
   * Exactly when the outcome of an expectation case does not depend on what the memory held: nothing is
   * compared; numbers are compared, the suite gives the expected one, and the other was read back or cannot
   * agree, or what was written throws; nodes are compared and the suite gives the expected ones. Every other
   * class depends on it.
   */
  lemma VerdictIgnoresMemoryIff(loads: Loader, items: seq<TestItem>, given: Option<seq<SuiteFormat>>)
    requires ItemsDefined(items)
    ensures SameForAllMemory(loads, items, given) <==> MemoryIsIrrelevant(loads, items, given)
  {
    hide Evaluated, MemoryIsIrrelevant, Prepared;
    if MemoryIsIrrelevant(loads, items, given) {
      forall s, t, j, k | Prepared(s, given) && Prepared(t, given)
        ensures Evaluated(loads, items, s, j) == Evaluated(loads, items, t, k)
      {
        MemoryIgnored(loads, items, given, s, t, j, k);
      }
    } else {
      var s, t, j, k := MemoryDecides(loads, items, given);
    }
  }
}
