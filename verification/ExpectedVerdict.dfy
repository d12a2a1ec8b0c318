/** Judging configuration and association cases against expected values. */
module ExpectedVerdict {
  import opened Options
  import opened JsonTree
  import opened Text
  import opened Numbers
  import opened TestCases
  import opened ReferenceVerdict

  datatype CommandClass = CONFIGURATION | ASSOCIATION | SENSORMULTILEVEL | BATTERY | RESERVED

  datatype SignalType = ZWAVE | ZIGBEE | UPNP | UNKNOWN

  /** What the source reads before it was ever written: whatever the memory holds. */
  datatype Junk = Junk(value: Int, cmdClass: CommandClass, ret1: Int, ret2: Int)

  datatype PrivateData = PrivateData(value: int, nodeFollow: seq<string>, cmdClass: CommandClass)

  predicate ItemsDefined(items: seq<TestItem>) {
    forall i :: 0 <= i < |items| ==> ItemDefined(items[i])
  }

  function ClassNamed(name: string): Option<CommandClass> {
    match name
    case "CONFIGURATION" => Some(CONFIGURATION)
    case "ASSOCIATION" => Some(ASSOCIATION)
    case "SENSOR_MULTILEVEL" => Some(SENSORMULTILEVEL)
    case "BATTERY" => Some(BATTERY)
    case _ => None
  }

  function SignalNamed(name: string): Option<SignalType> {
    match name
    case "zwave" => Some(ZWAVE)
    case "zigbee" => Some(ZIGBEE)
    case "upnp" => Some(UPNP)
    case _ => None
  }

  /** The class of the first "class" argument with a known name. */
  function ClassOf(args: seq<JsonFormat>): CommandClass
    requires forall a :: a in args ==> a.value != []
  {
    if args == [] then RESERVED
    else if args[0].key == "class" && ClassNamed(args[0].value[0]).Some? then ClassNamed(args[0].value[0]).value
    else ClassOf(args[1..])
  }

  function SignalTypeOf(args: seq<JsonFormat>): SignalType
    requires forall a :: a in args ==> a.value != []
  {
    if args == [] then UNKNOWN
    else if args[0].key == "devicetype" && SignalNamed(args[0].value[0]).Some? then SignalNamed(args[0].value[0]).value
    else SignalTypeOf(args[1..])
  }

  method GetRWSpecsClass(item: TestItem) returns (r: CommandClass)
    requires ItemDefined(item)
    ensures r == ClassOf(item.testItemArg)
  {
    var args := item.testItemArg;
    for j := 0 to |args|
      invariant ClassOf(args) == ClassOf(args[j..])
    {
      if args[j].key != "class" {
        continue;
      }
      var named := ClassNamed(args[j].value[0]);
      if named.Some? {
        return named.value;
      }
    }
    r := RESERVED;
  }

  method GetSignalType(item: TestItem) returns (r: SignalType)
    requires ItemDefined(item)
    ensures r == SignalTypeOf(item.testItemArg)
  {
    var args := item.testItemArg;
    for i := 0 to |args|
      invariant SignalTypeOf(args) == SignalTypeOf(args[i..])
    {
      if args[i].key == "devicetype" {
        var named := SignalNamed(args[i].value[0]);
        if named.Some? {
          return named.value;
        }
      }
    }
    r := UNKNOWN;
  }

  function FirstObject<Number>(objs: seq<Format<Number>>, key: string): Option<Format<Number>> {
    if objs == [] then None else if objs[0].key == key then Some(objs[0]) else FirstObject(objs[1..], key)
  }

  /** The texts of the first object with a key; none when there is no such object. */
  function FirstValue<Number>(objs: seq<Format<Number>>, key: string): seq<string> {
    var o := FirstObject(objs, key);
    if o.Some? then o.value.value else []
  }

  /** The texts of the last argument with a key. */
  function LastValue(args: seq<JsonFormat>, key: string): seq<string> {
    if args == [] then []
    else if args[|args| - 1].key == key then args[|args| - 1].value
    else LastValue(args[..|args| - 1], key)
  }

  method GetValueOfTestItem(item: TestItem, key: string) returns (r: seq<string>)
    ensures r == LastValue(item.testItemArg, key)
  {
    r := [];
    var args := item.testItemArg;
    for i := 0 to |args|
      invariant r == LastValue(args[..i], key)
    {
      assert args[..i + 1][..i] == args[..i];
      if args[i].key == key {
        r := args[i].value;
      }
    }
    assert args[..|args|] == args;
  }

  /** An integer member as an int of the target; -1 when there is none. */
  function IntegerAt(j: Option<Json>, key: string): int {
    var v := Get(j, key);
    if v.Some? && v.value.Integer? then WrapToInt(v.value.number) else -1
  }

  /** The elements of an array member; the source copies each as a string. */
  function ElementsAt(j: Option<Json>, key: string): seq<Json> {
    var v := Get(j, key);
    if v.Some? && v.value.Array? then v.value.elements else []
  }

  predicate AllTexts(elements: seq<Json>) {
    forall e :: e in elements ==> e.String?
  }

  function TextsOf(elements: seq<Json>): (r: seq<string>)
    requires AllTexts(elements)
    ensures |r| == |elements|
  {
    seq(|elements|, i requires 0 <= i < |elements| => elements[i].text)
  }

  /** What the last response says, for the class of the first item; None when a node is not a text. */
  function ResponseData(loads: Loader, items: seq<TestItem>, junk: Junk): Option<PrivateData>
    requires items != [] && ItemsDefined(items)
  {
    var msg := loads(MatchedMessage(items[|items| - 1]));
    var method_, ok := StringAt(msg, "method"), StringAt(msg, "status") == "successful";
    match ClassOf(items[0].testItemArg)
    case CONFIGURATION =>
      Some(PrivateData(if IsReadReply(method_) && ok then IntegerAt(msg, "value") else junk.value, [], CONFIGURATION))
    case ASSOCIATION =>
      var nodes := if method_ == "read_specR" && ok then ElementsAt(msg, "nodefollow") else [];
      if AllTexts(nodes) then Some(PrivateData(junk.value, TextsOf(nodes), ASSOCIATION)) else None
    case RESERVED => Some(PrivateData(junk.value, [], junk.cmdClass))
    case c => Some(PrivateData(junk.value, [], c))
  }

  /** The verdict of a node being in the list, by the command that was sent. */
  function NodeVerdict(command: string, included: bool): int {
    if command == "REMOVE" then if included then VERDICT_RET_FAILED else VERDICT_RET_SUCCESS
    else if command == "SET" then if included then VERDICT_RET_SUCCESS else VERDICT_RET_FAILED
    else VERDICT_RET_UNKNOWN
  }

  /** The number a configuration case expects; -1 unless a "value" is given as a number. */
  function ExpectedNumber(objs: seq<JsonFormat>): int {
    var o := FirstObject(objs, "value");
    if o.Some? && o.value.value == [] then Truncate(o.value.numValue) else -1
  }

  /** Expected against returned; None for objects that cannot be read, or a number outside int. */
  function Expectation(expected: Stored, data: PrivateData, command: string): Option<int> {
    if command == "" then
      if !expected.Objects? || !IsInt(ExpectedNumber(expected.objs)) then None
      else Some(if ExpectedNumber(expected.objs) == data.value then VERDICT_RET_SUCCESS else VERDICT_RET_FAILED)
    else if expected.NullPointer? then Some(VERDICT_RET_INPUT_INVALID)
    else if expected.Unreadable? then None
    else
      var nodes := FirstValue(expected.objs, "nodefollow");
      Some(if nodes == [] then VERDICT_RET_INPUT_INVALID else NodeVerdict(command, nodes[0] in data.nodeFollow))
  }

  method ExpectationComparison(expected: Stored, data: PrivateData, command: string) returns (ret: int)
    requires Expectation(expected, data, command).Some?
    ensures ret == Expectation(expected, data, command).value
  {
    var isIncluded := false;
    if command == "" {
      var expectedNumVal := -1;
      var objs := expected.objs;
      var i := 0;
      while i < |objs|
        invariant 0 <= i <= |objs| && expectedNumVal == -1
        invariant FirstObject(objs, "value") == FirstObject(objs[i..], "value")
      {
        if objs[i].key == "value" {
          if |objs[i].value| == 0 {
            expectedNumVal := Truncate(objs[i].numValue);
          }
          break;
        }
        i := i + 1;
      }
      return if expectedNumVal != data.value then VERDICT_RET_FAILED else VERDICT_RET_SUCCESS;
    } else {
      if expected.NullPointer? {
        return VERDICT_RET_INPUT_INVALID;
      }
      var objs, expectedVal := expected.objs, [];
      var i := 0;
      while i < |objs|
        invariant 0 <= i <= |objs| && expectedVal == []
        invariant FirstObject(objs, "nodefollow") == FirstObject(objs[i..], "nodefollow")
      {
        if objs[i].key == "nodefollow" {
          expectedVal := objs[i].value;
          break;
        }
        i := i + 1;
      }
      if |expectedVal| == 0 {
        return VERDICT_RET_INPUT_INVALID;
      }
      isIncluded := Includes(data.nodeFollow, expectedVal[0]);
      ret := NodeVerdict(command, isIncluded);
    }
  }

  method Includes(nodes: seq<string>, node: string) returns (isIncluded: bool)
    ensures isIncluded <==> node in nodes
  {
    isIncluded := false;
    for i := 0 to |nodes|
      invariant isIncluded <==> node in nodes[..i]
    {
      if node == nodes[i] {
        isIncluded := true;
      }
    }
  }

  predicate IsWriteItem(item: TestItem) {
    item.name == "write_spec" || item.name == "write_s_spec"
  }

  function FirstWrite(items: seq<TestItem>): (r: Option<nat>)
    ensures r.Some? ==> r.value < |items| && IsWriteItem(items[r.value])
  {
    if items == [] then None
    else if IsWriteItem(items[0]) then Some(0)
    else
      var r := FirstWrite(items[1..]);
      if r.Some? then (assert items[1..][r.value] == items[r.value + 1]; Some(r.value + 1)) else None
  }

  /** What the search gives once everything before `i` has been passed over. */
  lemma {:induction false} FirstWriteFrom(items: seq<TestItem>, i: nat)
    requires i <= |items| && forall j :: 0 <= j < i ==> !IsWriteItem(items[j])
    ensures var r := FirstWrite(items[i..]);
            FirstWrite(items) == if r.Some? then Some(i + r.value) else None
    decreases i
  {
    if i == 0 {
      assert items[0..] == items;
    } else {
      FirstWriteFrom(items[1..], i - 1);
      assert items[1..][i - 1..] == items[i..];
    }
  }

  /** The first write item is followed at once by the read item of its own flavour, secure or plain. */
  predicate WriteThenRead(items: seq<TestItem>) {
    var w := FirstWrite(items);
    && w.Some? && w.value + 1 < |items|
    && items[w.value + 1].name == if items[w.value].name == "write_s_spec" then "read_s_spec" else "read_spec"
  }

  /** The text pieces written: one argument slot for zwave, another for zigbee. */
  function WrittenPieces(items: seq<TestItem>): seq<string>
    requires ItemsDefined(items) && WriteThenRead(items)
  {
    var args := items[FirstWrite(items).value].testItemArg;
    match SignalTypeOf(items[0].testItemArg)
    case ZWAVE => FirstValue(args, "data1")
    case ZIGBEE => FirstValue(args, "data0")
    case _ => []
  }

  function Glue(pieces: seq<string>): string {
    if pieces == [] then "" else pieces[0] + Glue(pieces[1..])
  }

  /** The number written, hexadecimal when "0x" occurs in it; None when the conversion throws. */
  function WrittenNumber(pieces: seq<string>): Option<int> {
    Stoi(Glue(pieces), if Contains(Glue(pieces), "0x") then 16 else 10)
  }

  /** Written against read back; None when the written text is no int. */
  function InOut(items: seq<TestItem>, data: PrivateData, command: string): Option<int>
    requires ItemsDefined(items)
  {
    if !WriteThenRead(items) || WrittenPieces(items) == [] then Some(VERDICT_RET_UNKNOWN)
    else if command == "" then
      var written := WrittenNumber(WrittenPieces(items));
      if written.None? then None
      else Some(if written.value == data.value then VERDICT_RET_SUCCESS else VERDICT_RET_FAILED)
    else Some(NodeVerdict(command, WrittenPieces(items)[0] in data.nodeFollow))
  }

  lemma {:induction false} GlueSnoc(pieces: seq<string>, p: string)
    ensures Glue(pieces + [p]) == Glue(pieces) + p
  {
    if pieces == [] {
      assert pieces + [p] == [p];
    } else {
      assert (pieces + [p])[1..] == pieces[1..] + [p];
      GlueSnoc(pieces[1..], p);
    }
  }

  method InOutTestCaseComparison(items: seq<TestItem>, data: PrivateData, addOrRemove: string) returns (ret: int)
    requires ItemsDefined(items) && InOut(items, data, addOrRemove).Some?
    ensures ret == InOut(items, data, addOrRemove).value
  {
    if |items| < 1 {
      return VERDICT_RET_UNKNOWN;
    }
    var indexOfWrite, isSecureRWSpec := FindWrite(items);
    var indexOfRead := indexOfWrite + 1;
    if indexOfRead >= |items| {
      return VERDICT_RET_UNKNOWN;
    }
    if isSecureRWSpec {
      if items[indexOfRead].name != "read_s_spec" {
        return VERDICT_RET_UNKNOWN;
      }
    } else if items[indexOfRead].name != "read_spec" {
      return VERDICT_RET_UNKNOWN;
    }
    if indexOfWrite == -1 {
      return VERDICT_RET_UNKNOWN;
    }
    var signalType := GetSignalType(items[0]);
    var valInput := FindWritten(items[indexOfWrite].testItemArg, signalType);
    if |valInput| == 0 {
      return VERDICT_RET_UNKNOWN;
    }
    if addOrRemove == "" {
      var inputVal := ReadWritten(valInput);
      return if inputVal == data.value then VERDICT_RET_SUCCESS else VERDICT_RET_FAILED;
    } else {
      var isIncluded := Includes(data.nodeFollow, valInput[0]);
      return NodeVerdict(addOrRemove, isIncluded);
    }
  }

  method FindWrite(items: seq<TestItem>) returns (index: int, isSecure: bool)
    ensures var w := FirstWrite(items);
            index == (if w.Some? then w.value else -1) && (isSecure <==> w.Some? && items[w.value].name == "write_s_spec")
  {
    index, isSecure := -1, false;
    var i := 0;
    while i < |items|
      invariant 0 <= i <= |items| && index == -1 && !isSecure
      invariant forall j :: 0 <= j < i ==> !IsWriteItem(items[j])
    {
      if items[i].name == "write_spec" {
        index := i;
        break;
      }
      if items[i].name == "write_s_spec" {
        isSecure := true;
        index := i;
        break;
      }
      i := i + 1;
    }
    FirstWriteFrom(items, i);
  }

  method FindWritten(args: seq<JsonFormat>, signalType: SignalType) returns (valInput: seq<string>)
    ensures valInput ==
            match signalType
            case ZWAVE => FirstValue(args, "data1")
            case ZIGBEE => FirstValue(args, "data0")
            case _ => []
  {
    valInput := [];
    var i := 0;
    while i < |args|
      invariant 0 <= i <= |args| && valInput == []
      invariant signalType == ZWAVE ==> FirstObject(args, "data1") == FirstObject(args[i..], "data1")
      invariant signalType == ZIGBEE ==> FirstObject(args, "data0") == FirstObject(args[i..], "data0")
    {
      if signalType == ZWAVE {
        if args[i].key == "data1" {
          valInput := args[i].value;
          break;
        }
      } else if signalType == ZIGBEE {
        if args[i].key == "data0" {
          valInput := args[i].value;
          break;
        }
      }
      i := i + 1;
    }
  }

  method ReadWritten(valInput: seq<string>) returns (inputVal: int)
    requires WrittenNumber(valInput).Some?
    ensures inputVal == WrittenNumber(valInput).value
  {
    var sInput := "";
    for i := 0 to |valInput|
      invariant sInput == Glue(valInput[..i])
    {
      assert valInput[..i + 1] == valInput[..i] + [valInput[i]];
      GlueSnoc(valInput[..i], valInput[i]);
      sInput := sInput + valInput[i];
    }
    assert valInput[..|valInput|] == valInput;
    if Find(sInput, "0x", 0).Some? {
      inputVal := Stoi(sInput, 16).value;
    } else {
      inputVal := Stoi(sInput, 10).value;
    }
  }

  predicate StatusOk(loads: Loader, item: TestItem)
    requires ItemDefined(item)
  {
    StringAt(loads(MatchedMessage(item)), "status") == "successful"
  }

  predicate AllOk(loads: Loader, items: seq<TestItem>)
    requires ItemsDefined(items)
  {
    forall i :: 0 <= i < |items| ==> StatusOk(loads, items[i])
  }

  /** The association command: the last "writecommand" of the item before the last. */
  function CommandOf(items: seq<TestItem>): Option<string> {
    if |items| < 2 then None
    else
      var v := LastValue(items[|items| - 2].testItemArg, "writecommand");
      if v == [] then None else Some(v[0])
  }

  /** The two comparisons whose results make the verdict; None where the source throws or reads nothing. */
  function Comparisons(loads: Loader, items: seq<TestItem>, expected: Stored, junk: Junk): Option<(int, int)>
    requires items != [] && ItemsDefined(items)
  {
    var data := ResponseData(loads, items, junk);
    if data.None? then None
    else if data.value.cmdClass.CONFIGURATION? || data.value.cmdClass.ASSOCIATION? then
      var command := if data.value.cmdClass.CONFIGURATION? then Some("") else CommandOf(items);
      if command.None? then None
      else
        var r1 := Expectation(expected, data.value, command.value);
        var r2 := InOut(items, data.value, command.value);
        if r1.None? || r2.None? then None else Some((r1.value, r2.value))
    else Some((junk.ret1, junk.ret2))
  }

  function Combine(ret1: int, ret2: int): int {
    if ret1 == VERDICT_RET_FAILED || ret2 == VERDICT_RET_FAILED then VERDICT_RET_FAILED
    else if ret1 == VERDICT_RET_SUCCESS && ret2 == VERDICT_RET_SUCCESS then VERDICT_RET_SUCCESS
    else VERDICT_RET_UNKNOWN
  }

  /** The verdict of a whole case; None where evaluating it throws or is undefined. */
  function Evaluated(loads: Loader, items: seq<TestItem>, expected: Stored, junk: Junk): Option<int>
    requires ItemsDefined(items)
  {
    if items == [] then Some(VERDICT_RET_UNKNOWN)
    else if !AllOk(loads, items) then Some(VERDICT_RET_FAILED)
    else
      var c := Comparisons(loads, items, expected, junk);
      if c.None? then None else Some(Combine(c.value.0, c.value.1))
  }

  /** Reads the last response under the class of the first item. */
  method GetMsgRespRWSpec(loads: Loader, items: seq<TestItem>, junk: Junk) returns (data: PrivateData)
    requires items != [] && ItemsDefined(items) && ResponseData(loads, items, junk).Some?
    ensures data == ResponseData(loads, items, junk).value
  {
    data := PrivateData(junk.value, [], junk.cmdClass);
    var msg := loads(MatchedMessage(items[|items| - 1]));
    var rwspecCmdClass := GetRWSpecsClass(items[0]);
    match rwspecCmdClass {
      case CONFIGURATION =>
        data := data.(cmdClass := CONFIGURATION);
        var reply := StringAt(msg, "method");
        if (reply == "read_specR" || reply == "read_s_specR") && StringAt(msg, "status") == "successful" {
          data := data.(value := IntegerAt(msg, "value"));
        }
      case ASSOCIATION =>
        data := data.(cmdClass := ASSOCIATION);
        if StringAt(msg, "method") == "read_specR" && StringAt(msg, "status") == "successful" {
          data := data.(nodeFollow := TextsOf(ElementsAt(msg, "nodefollow")));
        }
      case SENSORMULTILEVEL => data := data.(cmdClass := SENSORMULTILEVEL);
      case BATTERY => data := data.(cmdClass := BATTERY);
      case RESERVED =>
    }
  }

  /** Stores each item's status verdict, then compares written, returned and expected values. */
  method EvaluationTestCase(loads: Loader, tc: TestCase, junk: Junk) returns (ret: int)
    requires ItemsDefined(tc.testItemInfo[..])
    requires Evaluated(loads, tc.testItemInfo[..], tc.expectedObjs, junk).Some?
    modifies tc.testItemInfo
    ensures ret == Evaluated(loads, old(tc.testItemInfo[..]), tc.expectedObjs, junk).value
    ensures tc.testItemInfo.Length == 0 ==> ret == VERDICT_RET_UNKNOWN
    ensures SameButVerdicts(tc.testItemInfo[..], old(tc.testItemInfo[..]))
    ensures forall i :: 0 <= i < tc.testItemInfo.Length ==>
              tc.testItemInfo[i].verdictResult ==
              if StatusOk(loads, old(tc.testItemInfo[..])[i]) then VERDICT_RET_SUCCESS else VERDICT_RET_FAILED
  {
    ghost var before := tc.testItemInfo[..];
    if tc.testItemInfo.Length < 1 {
      return VERDICT_RET_UNKNOWN;
    }
    var isTrue := MarkStatus(loads, tc.testItemInfo);
    if !isTrue {
      return VERDICT_RET_FAILED;
    }
    var items := tc.testItemInfo[..];
    VerdictsDoNotMatter(loads, items, before, tc.expectedObjs, junk);
    ret := CompareAll(loads, items, tc.expectedObjs, junk);
  }

  method MarkStatus(loads: Loader, items: array<TestItem>) returns (isTrue: bool)
    requires ItemsDefined(items[..])
    modifies items
    ensures SameButVerdicts(items[..], old(items[..])) && ItemsDefined(items[..])
    ensures isTrue <==> AllOk(loads, old(items[..]))
    ensures forall i :: 0 <= i < items.Length ==>
              items[i].verdictResult ==
              if StatusOk(loads, old(items[..])[i]) then VERDICT_RET_SUCCESS else VERDICT_RET_FAILED
  {
    ghost var before := items[..];
    isTrue := true;
    for i := 0 to items.Length
      invariant ItemsDefined(items[..])
      invariant forall k :: i <= k < items.Length ==> items[k] == before[k]
      invariant forall k :: 0 <= k < i ==>
                  items[k] == before[k].(verdictResult :=
                    if StatusOk(loads, before[k]) then VERDICT_RET_SUCCESS else VERDICT_RET_FAILED)
      invariant isTrue <==> forall k :: 0 <= k < i ==> StatusOk(loads, before[k])
    {
      var matched := items[i].testItemLogPool[items[i].matchedRespMsgIndex];
      if StringAt(loads(matched), "status") != "successful" {
        items[i] := items[i].(verdictResult := VERDICT_RET_FAILED);
        isTrue := false;
      } else {
        items[i] := items[i].(verdictResult := VERDICT_RET_SUCCESS);
      }
    }
  }

  lemma SameWrites(a: seq<TestItem>, b: seq<TestItem>)
    requires SameButVerdicts(a, b) && ItemsDefined(a) && ItemsDefined(b)
    ensures WriteThenRead(a) <==> WriteThenRead(b)
    ensures WriteThenRead(a) ==> WrittenPieces(a) == WrittenPieces(b)
    ensures CommandOf(a) == CommandOf(b)
  {
    SameFirstWrite(a, b);
  }

  lemma {:induction false} SameFirstWrite(a: seq<TestItem>, b: seq<TestItem>)
    requires SameButVerdicts(a, b)
    ensures FirstWrite(a) == FirstWrite(b)
    decreases |a|
  {
    if a != [] {
      SameFirstWrite(a[1..], b[1..]);
    }
  }

  lemma SameComparisons(loads: Loader, a: seq<TestItem>, b: seq<TestItem>, expected: Stored, junk: Junk)
    requires a != [] && SameButVerdicts(a, b) && ItemsDefined(a) && ItemsDefined(b)
    ensures Comparisons(loads, a, expected, junk) == Comparisons(loads, b, expected, junk)
  {
    hide ResponseData, Expectation, InOut, CommandOf, WriteThenRead, WrittenPieces;
    SameResponse(loads, a, b, junk);
    SameWrites(a, b);
    var data := ResponseData(loads, a, junk);
    if data.Some? {
      SameInOut(a, b, data.value, "");
      if CommandOf(a).Some? {
        SameInOut(a, b, data.value, CommandOf(a).value);
      }
    }
  }

  lemma SameResponse(loads: Loader, a: seq<TestItem>, b: seq<TestItem>, junk: Junk)
    requires a != [] && SameButVerdicts(a, b) && ItemsDefined(a) && ItemsDefined(b)
    ensures ResponseData(loads, a, junk) == ResponseData(loads, b, junk)
  {
  }

  lemma SameInOut(a: seq<TestItem>, b: seq<TestItem>, data: PrivateData, command: string)
    requires SameButVerdicts(a, b) && ItemsDefined(a) && ItemsDefined(b)
    ensures InOut(a, data, command) == InOut(b, data, command)
  {
    SameWrites(a, b);
  }

  /** Evaluation never looks at stored verdicts. */
  lemma VerdictsDoNotMatter(loads: Loader, a: seq<TestItem>, b: seq<TestItem>, expected: Stored, junk: Junk)
    requires SameButVerdicts(a, b) && ItemsDefined(a) && ItemsDefined(b)
    ensures Evaluated(loads, a, expected, junk) == Evaluated(loads, b, expected, junk)
    ensures AllOk(loads, a) <==> AllOk(loads, b)
  {
    assert forall i :: 0 <= i < |a| ==> StatusOk(loads, a[i]) == StatusOk(loads, b[i]);
    if a != [] {
      SameComparisons(loads, a, b, expected, junk);
    }
  }

  method CompareAll(loads: Loader, items: seq<TestItem>, expected: Stored, junk: Junk) returns (ret: int)
    requires items != [] && ItemsDefined(items) && Comparisons(loads, items, expected, junk).Some?
    ensures var c := Comparisons(loads, items, expected, junk).value;
            ret == Combine(c.0, c.1)
  {
    var ret1, ret2 := junk.ret1, junk.ret2;
    var respData := GetMsgRespRWSpec(loads, items, junk);
    if respData.cmdClass.CONFIGURATION? {
      ret1 := ExpectationComparison(expected, respData, "");
      ret2 := InOutTestCaseComparison(items, respData, "");
    } else if respData.cmdClass.ASSOCIATION? {
      var commandVal := GetValueOfTestItem(items[|items| - 2], "writecommand");
      ret1 := ExpectationComparison(expected, respData, commandVal[0]);
      ret2 := InOutTestCaseComparison(items, respData, commandVal[0]);
    }
    ret := VERDICT_RET_UNKNOWN;
    if ret1 == VERDICT_RET_FAILED || ret2 == VERDICT_RET_FAILED {
      ret := VERDICT_RET_FAILED;
    } else if ret1 == VERDICT_RET_SUCCESS && ret2 == VERDICT_RET_SUCCESS {
      ret := VERDICT_RET_SUCCESS;
    }
  }

  /** The verdict of a case by its kind; an expectation case of another device type passes unexamined. */
  method VerdictResult(loads: Loader, tc: TestCase, refFile: Option<Json>, junk: Junk) returns (ret: int)
    requires tc.verdictType == VERDICT_REFERENCE && refFile.Some? ==>
               AllJudgeable(loads, tc.testItemInfo[..], tc.referenceUnits)
    requires tc.verdictType == VERDICT_EXPECTED ==>
               && tc.testItemInfo.Length > 0 && ItemDefined(tc.testItemInfo[0])
               && (SignalTypeOf(tc.testItemInfo[0].testItemArg) in {ZWAVE, ZIGBEE} ==>
                     ItemsDefined(tc.testItemInfo[..]) && Evaluated(loads, tc.testItemInfo[..], tc.expectedObjs, junk).Some?)
    modifies tc`verdictResult, tc.testItemInfo
    ensures SameButVerdicts(tc.testItemInfo[..], old(tc.testItemInfo[..]))
    ensures tc.verdictType == VERDICT_REFERENCE && refFile.Some? ==>
              var vs := ItemVerdicts(loads, old(tc.testItemInfo[..]), refFile.value, UnitsOf(tc.referenceUnits), tc.margin);
              && ret == LastFailure(vs)
              && forall i :: 0 <= i < tc.testItemInfo.Length ==> tc.testItemInfo[i].verdictResult == vs[i]
    ensures tc.verdictType == VERDICT_REFERENCE && refFile.None? ==> ret == VERDICT_RET_UNKNOWN
    ensures tc.verdictType == VERDICT_EXPECTED ==>
              if SignalTypeOf(old(tc.testItemInfo[0]).testItemArg) in {ZWAVE, ZIGBEE}
              then ret == tc.verdictResult == Evaluated(loads, old(tc.testItemInfo[..]), tc.expectedObjs, junk).value
              else ret == VERDICT_RET_SUCCESS && tc.verdictResult == old(tc.verdictResult)
    ensures tc.verdictType != VERDICT_REFERENCE && tc.verdictType != VERDICT_EXPECTED ==> ret == VERDICT_RET_SUCCESS
    ensures tc.verdictType != VERDICT_EXPECTED ==> tc.verdictResult == old(tc.verdictResult)
    ensures tc.verdictType == VERDICT_EXPECTED && SignalTypeOf(old(tc.testItemInfo[0]).testItemArg) in {ZWAVE, ZIGBEE} ==>
              forall i :: 0 <= i < tc.testItemInfo.Length ==>
                tc.testItemInfo[i].verdictResult ==
                if StatusOk(loads, old(tc.testItemInfo[..])[i]) then VERDICT_RET_SUCCESS else VERDICT_RET_FAILED
    ensures (tc.verdictType == VERDICT_REFERENCE && refFile.Some?)
            || (tc.verdictType == VERDICT_EXPECTED && SignalTypeOf(old(tc.testItemInfo[0]).testItemArg) in {ZWAVE, ZIGBEE})
            || tc.testItemInfo[..] == old(tc.testItemInfo[..])
  {
    ret := VERDICT_RET_SUCCESS;
    if tc.verdictType == VERDICT_REFERENCE {
      ret := VerdictByReference(loads, tc, refFile);
    } else if tc.verdictType == VERDICT_EXPECTED {
      var sigtype := GetSignalType(tc.testItemInfo[0]);
      if sigtype == ZWAVE || sigtype == ZIGBEE {
        var verdict := EvaluationTestCase(loads, tc, junk);
        tc.verdictResult := verdict;
        ret := verdict;
      }
    }
  }
}
