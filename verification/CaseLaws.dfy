/** The outcome of expectation cases by what stands in their items, their expectation and their reply. */
module CaseLaws {
  import opened Options
  import opened JsonTree
  import opened Numbers
  import opened TestCases
  import opened ReferenceVerdict
  import opened ExpectedVerdict
  import opened ExpectedLaws

  const KNOWN_TYPES := ["zwave", "zigbee", "upnp"]

  const KNOWN_CLASSES := ["CONFIGURATION", "ASSOCIATION", "SENSOR_MULTILEVEL", "BATTERY"]

  /** The first argument of that key with a known name stands at position `k`. */
  predicate NamedAt(args: seq<JsonFormat>, key: string, known: seq<string>, k: nat) {
    && k < |args| && (forall i :: 0 <= i < |args| ==> args[i].value != [])
    && args[k].key == key && args[k].value[0] in known
    && forall j :: 0 <= j < k && args[j].key == key ==> args[j].value[0] !in known
  }

  ghost predicate Names(args: seq<JsonFormat>, key: string, known: seq<string>, name: string) {
    exists k: nat :: NamedAt(args, key, known, k) && args[k].value[0] == name
  }

  lemma {:induction false} SignalTypeAt(args: seq<JsonFormat>, k: nat)
    requires NamedAt(args, "devicetype", KNOWN_TYPES, k)
    ensures SignalTypeOf(args) == match args[k].value[0] case "zwave" => ZWAVE case "zigbee" => ZIGBEE case _ => UPNP
    decreases k
  {
    if k > 0 {
      SignalTypeAt(args[1..], k - 1);
    }
  }

  lemma {:induction false} SignalTypeIsNamed(args: seq<JsonFormat>) returns (k: nat)
    requires forall a :: a in args ==> a.value != []
    ensures SignalTypeOf(args) != UNKNOWN ==> NamedAt(args, "devicetype", KNOWN_TYPES, k)
    decreases |args|
  {
    k := 0;
    if args != [] && !(args[0].key == "devicetype" && SignalNamed(args[0].value[0]).Some?) {
      var j := SignalTypeIsNamed(args[1..]);
      k := j + 1;
      assert forall i :: 1 <= i < |args| ==> args[i] == args[1..][i - 1];
    }
  }

  lemma {:induction false} ClassAt(args: seq<JsonFormat>, k: nat)
    requires NamedAt(args, "class", KNOWN_CLASSES, k)
    ensures ClassOf(args) ==
            match args[k].value[0]
            case "CONFIGURATION" => CONFIGURATION
            case "ASSOCIATION" => ASSOCIATION
            case "SENSOR_MULTILEVEL" => SENSORMULTILEVEL
            case _ => BATTERY
    decreases k
  {
    if k > 0 {
      ClassAt(args[1..], k - 1);
    }
  }

  lemma {:induction false} ClassIsNamed(args: seq<JsonFormat>) returns (k: nat)
    requires forall a :: a in args ==> a.value != []
    ensures ClassOf(args) != RESERVED ==> NamedAt(args, "class", KNOWN_CLASSES, k)
    decreases |args|
  {
    k := 0;
    if args != [] && !(args[0].key == "class" && ClassNamed(args[0].value[0]).Some?) {
      var j := ClassIsNamed(args[1..]);
      k := j + 1;
      assert forall i :: 1 <= i < |args| ==> args[i] == args[1..][i - 1];
    }
  }

  /** An object is found exactly when its key is there, and where it first stands. */
  lemma {:induction false} ObjectIsFirst<Number>(objs: seq<Format<Number>>, key: string) returns (k: nat)
    ensures FirstObject(objs, key).None? <==> HasNo(objs, key)
    ensures FirstObject(objs, key).Some? ==> FirstAt(objs, key, k) && FirstObject(objs, key) == Some(objs[k])
    decreases |objs|
  {
    k := 0;
    if objs != [] && objs[0].key != key {
      var j := ObjectIsFirst(objs[1..], key);
      k := j + 1;
      assert forall i :: 1 <= i < |objs| ==> objs[i] == objs[1..][i - 1];
    }
  }

  /** The texts found for a key, taken from its last argument; none without one. */
  lemma {:induction false} ValueIsLast(args: seq<JsonFormat>, key: string) returns (k: nat)
    ensures HasNo(args, key) ==> LastValue(args, key) == []
    ensures !HasNo(args, key) ==>
              && k < |args| && args[k].key == key && LastValue(args, key) == args[k].value
              && forall j :: k < j < |args| ==> args[j].key != key
    decreases |args|
  {
    k := 0;
    if args != [] {
      if args[|args| - 1].key == key {
        k := |args| - 1;
      } else {
        k := ValueIsLast(args[..|args| - 1], key);
      }
    }
  }

  /** The first write stands at position `w`, and the read of its own flavour follows at once. */
  predicate PairedAt(items: seq<TestItem>, w: nat) {
    && w + 1 < |items|
    && ((items[w].name == "write_spec" && items[w + 1].name == "read_spec")
        || (items[w].name == "write_s_spec" && items[w + 1].name == "read_s_spec"))
    && forall j :: 0 <= j < w ==> items[j].name != "write_spec" && items[j].name != "write_s_spec"
  }

  lemma PairIsFound(items: seq<TestItem>, w: nat)
    requires PairedAt(items, w)
    ensures FirstWrite(items) == Some(w) && WriteThenRead(items)
  {
    FirstWriteFrom(items, w);
  }

  lemma {:induction false} NoWriteBefore(items: seq<TestItem>)
    ensures var r := FirstWrite(items);
            forall j :: 0 <= j < |items| && (r.Some? ==> j < r.value) ==> !IsWriteItem(items[j])
    decreases |items|
  {
    if items != [] && !IsWriteItem(items[0]) {
      NoWriteBefore(items[1..]);
      assert forall j :: 1 <= j < |items| ==> items[j] == items[1..][j - 1];
    }
  }

  lemma FoundIsPair(items: seq<TestItem>)
    requires WriteThenRead(items)
    ensures PairedAt(items, FirstWrite(items).value)
  {
    NoWriteBefore(items);
  }

  /** The texts of the first object with a key; none without one. */
  ghost predicate FirstTexts<Number>(objs: seq<Format<Number>>, key: string, texts: seq<string>) {
    || (HasNo(objs, key) && texts == [])
    || exists k: nat :: FirstAt(objs, key, k) && texts == objs[k].value
  }

  lemma FirstTextsAreFound<Number>(objs: seq<Format<Number>>, key: string, texts: seq<string>)
    requires FirstTexts(objs, key, texts)
    ensures FirstValue(objs, key) == texts
  {
    var k := ObjectIsFirst(objs, key);
  }

  /** What the case writes and then reads back: "data1" of a zwave write, "data0" of a zigbee write, else nothing. */
  ghost predicate Writes(items: seq<TestItem>, pieces: seq<string>)
    requires items != []
  {
    if exists w: nat :: PairedAt(items, w) then
      exists w: nat :: PairedAt(items, w) && WritesAt(items, w, pieces)
    else pieces == []
  }

  ghost predicate WritesAt(items: seq<TestItem>, w: nat, pieces: seq<string>)
    requires w < |items|
  {
    var first, args := items[0].testItemArg, items[w].testItemArg;
    || (Names(first, "devicetype", KNOWN_TYPES, "zwave") && FirstTexts(args, "data1", pieces))
    || (Names(first, "devicetype", KNOWN_TYPES, "zigbee") && FirstTexts(args, "data0", pieces))
    || (!Names(first, "devicetype", KNOWN_TYPES, "zwave") && !Names(first, "devicetype", KNOWN_TYPES, "zigbee")
        && pieces == [])
  }

  lemma WritesArePieces(items: seq<TestItem>, pieces: seq<string>)
    requires items != [] && ItemsDefined(items) && Writes(items, pieces)
    ensures pieces == if WriteThenRead(items) then WrittenPieces(items) else []
  {
    if WriteThenRead(items) {
      FoundIsPair(items);
      var w: nat :| PairedAt(items, w) && WritesAt(items, w, pieces);
      PairIsFound(items, w);
      PiecesAt(items, w, pieces);
    } else if w: nat :| PairedAt(items, w) {
      PairIsFound(items, w);
    }
  }

  lemma PiecesAt(items: seq<TestItem>, w: nat, pieces: seq<string>)
    requires ItemsDefined(items) && WriteThenRead(items) && FirstWrite(items) == Some(w)
    requires WritesAt(items, w, pieces)
    ensures pieces == WrittenPieces(items)
  {
    hide FirstTexts, FirstValue, SignalTypeOf;
    var first, args := items[0].testItemArg, items[w].testItemArg;
    if Names(first, "devicetype", KNOWN_TYPES, "zwave") && FirstTexts(args, "data1", pieces) {
      var k: nat :| NamedAt(first, "devicetype", KNOWN_TYPES, k) && first[k].value[0] == "zwave";
      SignalTypeAt(first, k);
      FirstTextsAreFound(args, "data1", pieces);
    } else if Names(first, "devicetype", KNOWN_TYPES, "zigbee") && FirstTexts(args, "data0", pieces) {
      var k: nat :| NamedAt(first, "devicetype", KNOWN_TYPES, k) && first[k].value[0] == "zigbee";
      SignalTypeAt(first, k);
      FirstTextsAreFound(args, "data0", pieces);
    } else {
      var k := SignalTypeIsNamed(first);
      if SignalTypeOf(first) != UNKNOWN {
        SignalTypeAt(first, k);
      }
    }
  }

  /** Every reply reports success. */
  predicate AllReportSuccess(loads: Loader, items: seq<TestItem>)
    requires ItemsDefined(items)
  {
    forall i :: 0 <= i < |items| ==> Says(loads(MatchedMessage(items[i])), "status", "successful")
  }

  lemma SuccessIsStatus(loads: Loader, items: seq<TestItem>)
    requires ItemsDefined(items)
    ensures AllReportSuccess(loads, items) <==> AllOk(loads, items)
  {
    forall i | 0 <= i < |items|
      ensures Says(loads(MatchedMessage(items[i])), "status", "successful") <==> StatusOk(loads, items[i])
    {
    }
  }

  /** The number an expectation gives: that of its first "value", or -1 if there is none or it is given as text. */
  ghost predicate ExpectsNumber(expected: seq<JsonFormat>, wanted: int) {
    if exists k: nat :: FirstAt(expected, "value", k) && expected[k].value == [] then
      exists k: nat :: FirstAt(expected, "value", k) && expected[k].value == [] && wanted == Truncate(expected[k].numValue)
    else wanted == -1
  }

  lemma ExpectedIsFound(expected: seq<JsonFormat>, wanted: int)
    requires ExpectsNumber(expected, wanted)
    ensures ExpectedNumber(expected) == wanted
  {
    var k := ObjectIsFirst(expected, "value");
  }

  /** The pieces spell a number in decimal, or in hexadecimal with its prefix. */
  predicate SpellsNumber(pieces: seq<string>, v: int) {
    Glue(pieces) == SignedDecimal(v) || (v >= 0 && Glue(pieces) == Hexadecimal(v))
  }

  lemma GlueIsConcatenation(pieces: seq<string>, p: string)
    ensures Glue([]) == "" && Glue(pieces + [p]) == Glue(pieces) + p
  {
    GlueSnoc(pieces, p);
  }

  /**
   * A configuration with a final read reply fails when a status is bad or the returned number is not the
   * expected one or not the written one; otherwise it succeeds if something was written and read back at
   * once, and ends unknown if not. Without an integer "value" the returned number is -1.
   */
  lemma ConfigurationByFields(
    loads: Loader, items: seq<TestItem>, expected: seq<JsonFormat>, junk: Junk,
    pieces: seq<string>, written: int, wanted: int)
    requires items != [] && ItemsDefined(items)
    requires Names(items[0].testItemArg, "class", KNOWN_CLASSES, "CONFIGURATION")
    requires var reply := loads(MatchedMessage(items[|items| - 1]));
             Says(reply, "method", "read_specR") || Says(reply, "method", "read_s_specR")
    requires ExpectsNumber(expected, wanted) && IsInt(wanted)
    requires Writes(items, pieces) && (pieces != [] ==> IsInt(written) && SpellsNumber(pieces, written))
    ensures var reply := loads(MatchedMessage(items[|items| - 1]));
            var returned := match Get(reply, "value") case Some(Integer(n)) => WrapToInt(n) case _ => -1;
            Evaluated(loads, items, Objects(expected), junk) ==
            Some(if !AllReportSuccess(loads, items) || returned != wanted || (pieces != [] && returned != written)
                 then VERDICT_RET_FAILED
                 else if pieces != [] then VERDICT_RET_SUCCESS else VERDICT_RET_UNKNOWN)
  {
    var args := items[0].testItemArg;
    var k: nat :| NamedAt(args, "class", KNOWN_CLASSES, k) && args[k].value[0] == "CONFIGURATION";
    ClassAt(args, k);
    SuccessIsStatus(loads, items);
    ExpectedIsFound(expected, wanted);
    WritesArePieces(items, pieces);
    if pieces != [] {
      WrittenNumberReadsPrinted(pieces, written);
    }
    hide ClassOf, AllOk, AllReportSuccess, ExpectedNumber, ExpectsNumber, Writes, WriteThenRead, WrittenPieces,
         WrittenNumber, Names, SpellsNumber, Evaluated, ValueVerdict;
    if AllOk(loads, items) {
      var data := NumberOutcome(loads, items, Objects(expected), junk);
      ValueVerdictOf(items, expected, data, pieces);
    } else {
      BadStatusFails(loads, items, Objects(expected), junk);
    }
  }

  lemma BadStatusFails(loads: Loader, items: seq<TestItem>, expected: Stored, junk: Junk)
    requires items != [] && ItemsDefined(items) && !AllOk(loads, items)
    ensures Evaluated(loads, items, expected, junk) == Some(VERDICT_RET_FAILED)
  {
  }

  lemma ValueVerdictOf(items: seq<TestItem>, expected: seq<JsonFormat>, data: PrivateData, pieces: seq<string>)
    requires ItemsDefined(items) && pieces == if WriteThenRead(items) then WrittenPieces(items) else []
    requires pieces != [] ==> WrittenNumber(pieces).Some?
    requires IsInt(ExpectedNumber(expected))
    ensures ValueVerdict(items, Objects(expected), data) ==
            Some(if data.value != ExpectedNumber(expected) || (pieces != [] && data.value != WrittenNumber(pieces).value)
                 then VERDICT_RET_FAILED
                 else if pieces != [] then VERDICT_RET_SUCCESS else VERDICT_RET_UNKNOWN)
  {
  }

  /** The nodes a plain reply lists; a secure reply is not looked at. */
  ghost predicate ListsNodes(reply: Option<Json>, nodes: seq<string>) {
    if !Says(reply, "method", "read_specR") then nodes == []
    else
      match Get(reply, "nodefollow")
      case Some(Array(elements)) =>
        |elements| == |nodes| && forall i :: 0 <= i < |nodes| ==> elements[i] == String(nodes[i])
      case _ => nodes == []
  }

  /** The command of the item before the last, from its last "writecommand". */
  ghost predicate Commands(items: seq<TestItem>, command: string) {
    && |items| >= 2
    && var args := items[|items| - 2].testItemArg;
       exists k: nat :: k < |args| && args[k].key == "writecommand" && args[k].value != [] && args[k].value[0] == command
                        && forall j :: k < j < |args| ==> args[j].key != "writecommand"
  }

  lemma CommandIsFound(items: seq<TestItem>, command: string)
    requires Commands(items, command)
    ensures CommandOf(items) == Some(command)
  {
    var k := ValueIsLast(items[|items| - 2].testItemArg, "writecommand");
  }

  /** Whether a node contradicts a command: SET wants it among the nodes, REMOVE does not. */
  predicate Contradicts(command: string, node: string, nodes: seq<string>) {
    if command == "SET" then node !in nodes else node in nodes
  }

  /**
   * An association with SET or REMOVE fails when a status is bad or the expected or the written node
   * contradicts the command; otherwise it succeeds if both nodes are given, and ends unknown if not.
   */
  lemma AssociationByFields(
    loads: Loader, items: seq<TestItem>, expected: seq<JsonFormat>, junk: Junk,
    command: string, pieces: seq<string>, wanted: seq<string>, nodes: seq<string>)
    requires items != [] && ItemsDefined(items)
    requires Names(items[0].testItemArg, "class", KNOWN_CLASSES, "ASSOCIATION")
    requires Commands(items, command) && command in ["SET", "REMOVE"]
    requires FirstTexts(expected, "nodefollow", wanted) && Writes(items, pieces)
    requires ListsNodes(loads(MatchedMessage(items[|items| - 1])), nodes)
    ensures Evaluated(loads, items, Objects(expected), junk) ==
            Some(if || !AllReportSuccess(loads, items)
                    || (wanted != [] && Contradicts(command, wanted[0], nodes))
                    || (pieces != [] && Contradicts(command, pieces[0], nodes))
                 then VERDICT_RET_FAILED
                 else if wanted != [] && pieces != [] then VERDICT_RET_SUCCESS else VERDICT_RET_UNKNOWN)
  {
    var args := items[0].testItemArg;
    var k: nat :| NamedAt(args, "class", KNOWN_CLASSES, k) && args[k].value[0] == "ASSOCIATION";
    ClassAt(args, k);
    SuccessIsStatus(loads, items);
    CommandIsFound(items, command);
    FirstTextsAreFound(expected, "nodefollow", wanted);
    WritesArePieces(items, pieces);
    NodesAreListed(loads, items, nodes);
    hide ClassOf, AllOk, AllReportSuccess, Commands, CommandOf, FirstTexts, FirstValue, Writes, WriteThenRead,
         WrittenPieces, Names, Evaluated, ListsNodes, Expectation, InOut;
    if AllOk(loads, items) {
      var data, r2 := NodesOutcome(loads, items, Objects(expected), junk);
      NodeVerdictOf(items, expected, data, command, pieces, wanted, nodes);
    } else {
      BadStatusFails(loads, items, Objects(expected), junk);
    }
  }

  lemma NodesAreListed(loads: Loader, items: seq<TestItem>, nodes: seq<string>)
    requires items != [] && ItemsDefined(items)
    requires ListsNodes(loads(MatchedMessage(items[|items| - 1])), nodes)
    ensures !NodesAreUnreadable(loads, items)
    ensures nodes == if PlainReply(loads, items) then ReturnedNodes(loads, items) else []
  {
    var reply := LastMessage(loads, items);
    if PlainReply(loads, items) {
      assert forall e :: e in ElementsAt(reply, "nodefollow") ==> e.String?;
    }
  }

  lemma NodeVerdictOf(items: seq<TestItem>, expected: seq<JsonFormat>, data: PrivateData, command: string,
                      pieces: seq<string>, wanted: seq<string>, nodes: seq<string>)
    requires ItemsDefined(items) && pieces == if WriteThenRead(items) then WrittenPieces(items) else []
    requires FirstValue(expected, "nodefollow") == wanted && command in ["SET", "REMOVE"] && data.nodeFollow == nodes
    ensures var r1, r2 := Expectation(Objects(expected), data, command), InOut(items, data, command);
            && r1.Some? && r2.Some?
            && Combine(r1.value, r2.value) ==
               if (wanted != [] && Contradicts(command, wanted[0], nodes))
                  || (pieces != [] && Contradicts(command, pieces[0], nodes))
               then VERDICT_RET_FAILED
               else if wanted != [] && pieces != [] then VERDICT_RET_SUCCESS else VERDICT_RET_UNKNOWN
  {
  }
}
