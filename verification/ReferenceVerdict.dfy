/** Judging sensor readings against learned references. */
module ReferenceVerdict {
  import opened Options
  import opened JsonTree
  import opened TestCases

  /** The tolerance band around a reference; empty unless reference and margin have the same sign. */
  predicate InBand(sensingRef: real, margin: real, sensingResp: real) {
    var differential := sensingRef * margin;
    sensingRef - differential < sensingResp && sensingRef + differential > sensingResp
  }

  function BandVerdict(sensingRef: real, margin: real, sensingResp: real): int {
    if InBand(sensingRef, margin, sensingResp) then VERDICT_RET_SUCCESS else VERDICT_RET_FAILED
  }

  /** What distinguishes the zwave from the zigbee check. */
  datatype Profile = Profile(deviceType: string, cls: string, subArg: string, subField: string)

  const ZWAVE_PROFILE := Profile("zwave", "SENSOR_MULTILEVEL", "type", "data0")
  const ZIGBEE_PROFILE := Profile("zigbee", "SENSOR", "readcommand", "cmd")

  /** How far a response gets: refused, of a class without checks, compared under a sub-key, or a null argument read. */
  datatype Header = Refused(verdict: int) | Unchecked | Compared(sub: string) | Fault

  predicate IsReadReply(method_: string) {
    method_ == "read_specR" || method_ == "read_s_specR"
  }

  function HeaderOf(p: Profile, args: seq<JsonFormat>, resp: Json): Header
    requires forall a :: a in args ==> a.value != []
  {
    var root := Some(resp);
    var info := Get(root, "commandinfo");
    var cls := ArgumentValue(args, "class");
    if StringAt(root, "type") != p.deviceType || !IsReadReply(StringAt(root, "method"))
    then Refused(VERDICT_RET_RESP_INVALID)
    else if StringAt(root, "status") != "successful" then Refused(VERDICT_RET_FAILED)
    else if info.None? then Refused(VERDICT_RET_RESP_INVALID)
    else if cls.None? || ArgumentValue(args, "readcommand").None? then Refused(VERDICT_RET_UNKNOWN)
    else if cls.value != p.cls then Unchecked
    else if StringAt(info, "class") != p.cls then Refused(VERDICT_RET_RESP_INVALID)
    else
      var sub := ArgumentValue(args, p.subArg);
      if sub.None? then Fault
      else if StringAt(info, p.subField) != sub.value then Refused(VERDICT_RET_RESP_INVALID)
      else Compared(sub.value)
  }

  /** The learned value of a unit. */
  function ReferenceOf(refRoot: Json, cls: string, sub: string, key: string): Option<Json> {
    Get(Get(Get(Some(refRoot), cls), sub), key)
  }

  predicate IsReal(j: Option<Json>) {
    j.Some? && j.value.Real?
  }

  /** One unit's verdict, from the response or from the value fixed in the suite; None when it is not comparable. */
  function UnitVerdict(refRoot: Json, resp: Json, cls: string, sub: string, margin: real, unit: JsonFormat): Option<int> {
    var reference := ReferenceOf(refRoot, cls, sub, unit.key);
    var reading := Get(Some(resp), unit.key);
    if !IsReal(reference) || (unit.value != [] && !IsReal(reading)) then None
    else
      var sensed := if unit.value != [] then reading.value.amount else unit.numValue;
      Some(BandVerdict(reference.value.amount, margin, sensed))
  }

  /** The last comparable unit decides; success when there is none. */
  function FoldUnits(refRoot: Json, resp: Json, cls: string, sub: string, margin: real, units: seq<JsonFormat>): int {
    if units == [] then VERDICT_RET_SUCCESS
    else
      var v := UnitVerdict(refRoot, resp, cls, sub, margin, units[|units| - 1]);
      if v.Some? then v.value else FoldUnits(refRoot, resp, cls, sub, margin, units[..|units| - 1])
  }

  /** The check that both device types share. */
  function Judge(p: Profile, args: seq<JsonFormat>, resp: Json, refRoot: Json, units: seq<JsonFormat>, margin: real): int
    requires forall a :: a in args ==> a.value != []
    requires HeaderOf(p, args, resp) != Fault
  {
    match HeaderOf(p, args, resp)
    case Refused(v) => v
    case Unchecked => VERDICT_RET_SUCCESS
    case Compared(sub) => FoldUnits(refRoot, resp, p.cls, sub, margin, units)
  }

  function ProfileOf(deviceType: string): Option<Profile> {
    if deviceType == "zwave" then Some(ZWAVE_PROFILE)
    else if deviceType == "zigbee" then Some(ZIGBEE_PROFILE)
    else None
  }

  predicate IsReadItem(item: TestItem) {
    item.name == "read_spec" || item.name == "read_s_spec"
  }

  /** The profile an item is judged by, once its message has parsed. */
  function ItemProfile(item: TestItem): Option<Profile>
    requires ItemDefined(item)
  {
    var deviceType := ArgumentValue(item.testItemArg, "devicetype");
    if IsReadItem(item) && deviceType.Some? then ProfileOf(deviceType.value) else None
  }

  /** The item is well formed and no absent argument is read as text. */
  predicate Judgeable(loads: Loader, item: TestItem) {
    && ItemDefined(item)
    && (loads(MatchedMessage(item)).Some? && ItemProfile(item).Some? ==>
          HeaderOf(ItemProfile(item).value, item.testItemArg, loads(MatchedMessage(item)).value) != Fault)
  }

  function ItemVerdict(loads: Loader, item: TestItem, refRoot: Json, units: seq<JsonFormat>, margin: real): int
    requires Judgeable(loads, item)
  {
    var resp := loads(MatchedMessage(item));
    if resp.None? then VERDICT_RET_UNKNOWN
    else if !IsReadItem(item) then VERDICT_RET_SUCCESS
    else if ArgumentValue(item.testItemArg, "devicetype").None? then VERDICT_RET_UNKNOWN
    else if ItemProfile(item).None? then VERDICT_RET_SUCCESS
    else Judge(ItemProfile(item).value, item.testItemArg, resp.value, refRoot, units, margin)
  }

  /** The zwave branch. */
  method JudgeZwave(item: TestItem, resp: Json, refRoot: Json, units: seq<JsonFormat>, margin: real) returns (ret: int)
    requires ItemDefined(item) && HeaderOf(ZWAVE_PROFILE, item.testItemArg, resp) != Fault
    ensures ret == Judge(ZWAVE_PROFILE, item.testItemArg, resp, refRoot, units, margin)
  {
    ret := VERDICT_RET_SUCCESS;
    var respMethod := StringAt(Some(resp), "method");
    if StringAt(Some(resp), "type") != "zwave" || (respMethod != "read_specR" && respMethod != "read_s_specR") {
      return VERDICT_RET_RESP_INVALID;
    }
    if StringAt(Some(resp), "status") != "successful" {
      return VERDICT_RET_FAILED;
    }
    var info := Get(Some(resp), "commandinfo");
    if info.None? {
      return VERDICT_RET_RESP_INVALID;
    }
    var cmdClass := GetTIArgumentValueByKey(item, "class");
    var command := GetTIArgumentValueByKey(item, "readcommand");
    if cmdClass.None? || command.None? {
      return VERDICT_RET_UNKNOWN;
    }
    if cmdClass.value == "SENSOR_MULTILEVEL" {
      var type_ := GetTIArgumentValueByKey(item, "type");
      if cmdClass.value != StringAt(info, "class") || type_.value != StringAt(info, "data0") {
        return VERDICT_RET_RESP_INVALID;
      }
      for i := 0 to |units|
        invariant ret == FoldUnits(refRoot, resp, "SENSOR_MULTILEVEL", type_.value, margin, units[..i])
      {
        assert units[..i + 1][..i] == units[..i];
        var reference := Get(Get(Get(Some(refRoot), "SENSOR_MULTILEVEL"), type_.value), units[i].key);
        if |units[i].value| > 0 {
          var reading := Get(Some(resp), units[i].key);
          if reading.Some? && reference.Some? && reading.value.Real? && reference.value.Real? {
            ret := BandVerdict(reference.value.amount, margin, reading.value.amount);
          }
        } else if reference.Some? && reference.value.Real? {
          ret := BandVerdict(reference.value.amount, margin, units[i].numValue);
        }
      }
      assert units[..|units|] == units;
    }
  }

  /** The zigbee branch. */
  method JudgeZigbee(item: TestItem, resp: Json, refRoot: Json, units: seq<JsonFormat>, margin: real) returns (ret: int)
    requires ItemDefined(item)
    ensures HeaderOf(ZIGBEE_PROFILE, item.testItemArg, resp) != Fault
    ensures ret == Judge(ZIGBEE_PROFILE, item.testItemArg, resp, refRoot, units, margin)
  {
    ret := VERDICT_RET_SUCCESS;
    var respMethod := StringAt(Some(resp), "method");
    if StringAt(Some(resp), "type") != "zigbee" || (respMethod != "read_specR" && respMethod != "read_s_specR") {
      return VERDICT_RET_RESP_INVALID;
    }
    if StringAt(Some(resp), "status") != "successful" {
      return VERDICT_RET_FAILED;
    }
    var info := Get(Some(resp), "commandinfo");
    if info.None? {
      return VERDICT_RET_RESP_INVALID;
    }
    var cmdClass := GetTIArgumentValueByKey(item, "class");
    var command := GetTIArgumentValueByKey(item, "readcommand");
    if cmdClass.None? || command.None? {
      return VERDICT_RET_UNKNOWN;
    }
    if cmdClass.value == "SENSOR" {
      if cmdClass.value != StringAt(info, "class") || command.value != StringAt(info, "cmd") {
        return VERDICT_RET_RESP_INVALID;
      }
      for i := 0 to |units|
        invariant ret == FoldUnits(refRoot, resp, "SENSOR", command.value, margin, units[..i])
      {
        assert units[..i + 1][..i] == units[..i];
        var reference := Get(Get(Get(Some(refRoot), "SENSOR"), command.value), units[i].key);
        if |units[i].value| > 0 {
          var reading := Get(Some(resp), units[i].key);
          if reading.Some? && reference.Some? && reading.value.Real? && reference.value.Real? {
            ret := BandVerdict(reference.value.amount, margin, reading.value.amount);
          }
        } else if reference.Some? && reference.value.Real? {
          ret := BandVerdict(reference.value.amount, margin, units[i].numValue);
        }
      }
      assert units[..|units|] == units;
    }
  }

  method ValidateTestItemResult(loads: Loader, units: seq<JsonFormat>, margin: real, item: TestItem, refRoot: Json)
    returns (ret: int)
    requires Judgeable(loads, item)
    ensures ret == ItemVerdict(loads, item, refRoot, units, margin)
  {
    ret := VERDICT_RET_SUCCESS;
    var respRoot := loads(item.testItemLogPool[item.matchedRespMsgIndex]);
    if respRoot.None? {
      return VERDICT_RET_UNKNOWN;
    }
    if item.name == "read_spec" || item.name == "read_s_spec" {
      var deviceType := GetTIArgumentValueByKey(item, "devicetype");
      if deviceType.None? {
        ret := VERDICT_RET_UNKNOWN;
      } else if deviceType.value == "zwave" {
        ret := JudgeZwave(item, respRoot.value, refRoot, units, margin);
      } else if deviceType.value == "zigbee" {
        ret := JudgeZigbee(item, respRoot.value, refRoot, units, margin);
      }
    }
  }

  /** The units that can be read. */
  function UnitsOf(stored: Stored): seq<JsonFormat> {
    if stored.Objects? then stored.objs else []
  }

  /** Judging the item compares units. */
  predicate ComparesUnits(loads: Loader, item: TestItem)
    requires ItemDefined(item)
  {
    var resp := loads(MatchedMessage(item));
    && resp.Some? && ItemProfile(item).Some?
    && HeaderOf(ItemProfile(item).value, item.testItemArg, resp.value).Compared?
  }

  /** Nothing undefined is read in any item: no absent argument, and no units where there are none. */
  predicate AllJudgeable(loads: Loader, items: seq<TestItem>, units: Stored) {
    forall t :: t in items ==> Judgeable(loads, t) && (ComparesUnits(loads, t) ==> units.Objects?)
  }

  /** The verdicts of all items. */
  function ItemVerdicts(loads: Loader, items: seq<TestItem>, refRoot: Json, units: seq<JsonFormat>, margin: real): (vs: seq<int>)
    requires forall t :: t in items ==> Judgeable(loads, t)
    ensures |vs| == |items|
  {
    seq(|items|, i requires 0 <= i < |items| => ItemVerdict(loads, items[i], refRoot, units, margin))
  }

  /** The verdict of the last item that did not succeed. */
  function LastFailure(vs: seq<int>): int {
    if vs == [] then VERDICT_RET_SUCCESS
    else if vs[|vs| - 1] != VERDICT_RET_SUCCESS then vs[|vs| - 1]
    else LastFailure(vs[..|vs| - 1])
  }

  /** The reference branch of the case verdict; `refFile` is the parsed reference file, if it loads. */
  method VerdictByReference(loads: Loader, tc: TestCase, refFile: Option<Json>) returns (ret: int)
    requires refFile.Some? ==> AllJudgeable(loads, tc.testItemInfo[..], tc.referenceUnits)
    modifies tc.testItemInfo
    ensures refFile.None? ==> ret == VERDICT_RET_UNKNOWN && tc.testItemInfo[..] == old(tc.testItemInfo[..])
    ensures refFile.Some? ==>
              var vs := ItemVerdicts(loads, old(tc.testItemInfo[..]), refFile.value, UnitsOf(tc.referenceUnits), tc.margin);
              && ret == LastFailure(vs)
              && SameButVerdicts(tc.testItemInfo[..], old(tc.testItemInfo[..]))
              && forall i :: 0 <= i < tc.testItemInfo.Length ==> tc.testItemInfo[i].verdictResult == vs[i]
  {
    ret := VERDICT_RET_SUCCESS;
    if refFile.None? {
      return VERDICT_RET_UNKNOWN;
    }
    var items := tc.testItemInfo;
    ghost var vs := ItemVerdicts(loads, items[..], refFile.value, UnitsOf(tc.referenceUnits), tc.margin);
    for i := 0 to items.Length
      invariant forall k :: i <= k < items.Length ==> items[k] == old(items[k])
      invariant forall k :: 0 <= k < i ==> items[k] == old(items[k]).(verdictResult := vs[k])
      invariant ret == LastFailure(vs[..i])
    {
      assert vs[..i + 1][..i] == vs[..i];
      var refVerdict := ValidateTestItemResult(loads, UnitsOf(tc.referenceUnits), tc.margin, items[i], refFile.value);
      items[i] := items[i].(verdictResult := refVerdict);
      if refVerdict != VERDICT_RET_SUCCESS {
        ret := refVerdict;
      }
    }
    assert vs[..items.Length] == vs;
  }
}
