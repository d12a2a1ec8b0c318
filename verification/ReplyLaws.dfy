/** What an item of a reference case gets for every reply it may find, by the fields of the reply itself. */
module ReplyLaws {
  import opened Options
  import opened JsonTree
  import opened TestCases
  import opened ReferenceVerdict
  import opened VerdictLaws

  /** The member's text is the wanted one; a member that is no text counts as empty. */
  predicate ReadsAs(j: Option<Json>, key: string, wanted: string) {
    match Get(j, key)
    case Some(String(text)) => text == wanted
    case _ => wanted == ""
  }

  /** A reply to a read, from a device of the given type. */
  predicate IsReadReplyOf(resp: Json, deviceType: string) {
    var r := Some(resp);
    Says(r, "type", deviceType) && (Says(r, "method", "read_specR") || Says(r, "method", "read_s_specR"))
  }

  /** The verdict on a reading that is compared: the last comparable one has to be inside its band. */
  function ReadingVerdict(refRoot: Json, resp: Json, cls: string, sub: string, units: seq<JsonFormat>, margin: real): int {
    var k := LastComparable(refRoot, resp, cls, sub, units);
    if k.None? || Inside(refRoot, resp, cls, sub, margin, units[k.value]) then VERDICT_RET_SUCCESS else VERDICT_RET_FAILED
  }

  /** A read of a device of some type whose message parses. */
  predicate ReadOf(loads: Loader, item: TestItem, deviceType: string) {
    && Judgeable(loads, item) && loads(MatchedMessage(item)).Some?
    && item.name in ["read_spec", "read_s_spec"]
    && ArgumentValue(item.testItemArg, "devicetype") == Some(deviceType)
  }

  /** The header check by the reply's fields. */
  lemma HeaderByFields(p: Profile, args: seq<JsonFormat>, resp: Json)
    requires p == ZWAVE_PROFILE || p == ZIGBEE_PROFILE
    requires forall a :: a in args ==> a.value != []
    ensures var r, cls, sub := Some(resp), ArgumentValue(args, "class"), ArgumentValue(args, p.subArg);
            var info := Get(r, "commandinfo");
            HeaderOf(p, args, resp) ==
            if !IsReadReplyOf(resp, p.deviceType) then Refused(VERDICT_RET_RESP_INVALID)
            else if !Says(r, "status", "successful") then Refused(VERDICT_RET_FAILED)
            else if info.None? then Refused(VERDICT_RET_RESP_INVALID)
            else if cls.None? || ArgumentValue(args, "readcommand").None? then Refused(VERDICT_RET_UNKNOWN)
            else if cls.value != p.cls then Unchecked
            else if !Says(info, "class", p.cls) then Refused(VERDICT_RET_RESP_INVALID)
            else if sub.None? then Fault
            else if !ReadsAs(info, p.subField, sub.value) then Refused(VERDICT_RET_RESP_INVALID)
            else Compared(sub.value)
  {
    hide ArgumentValue;
  }

  /** Reads of zwave devices: the verdict for each way a reply can be wrong, and for one that is right. */
  lemma ZwaveReply(loads: Loader, item: TestItem, refRoot: Json, units: seq<JsonFormat>, margin: real)
    requires ReadOf(loads, item, "zwave")
    ensures var resp, args := loads(MatchedMessage(item)).value, item.testItemArg;
            var r, cls, type_ := Some(resp), ArgumentValue(args, "class"), ArgumentValue(args, "type");
            var info := Get(r, "commandinfo");
            var v := ItemVerdict(loads, item, refRoot, units, margin);
            if !IsReadReplyOf(resp, "zwave") then v == VERDICT_RET_RESP_INVALID
            else if !Says(r, "status", "successful") then v == VERDICT_RET_FAILED
            else if info.None? then v == VERDICT_RET_RESP_INVALID
            else if cls.None? || ArgumentValue(args, "readcommand").None? then v == VERDICT_RET_UNKNOWN
            else if cls.value != "SENSOR_MULTILEVEL" then v == VERDICT_RET_SUCCESS
            else if !Says(info, "class", "SENSOR_MULTILEVEL") then v == VERDICT_RET_RESP_INVALID
            else type_.Some? &&
                 if !ReadsAs(info, "data0", type_.value) then v == VERDICT_RET_RESP_INVALID
                 else v == ReadingVerdict(refRoot, resp, "SENSOR_MULTILEVEL", type_.value, units, margin)
  {
    hide FoldUnits, LastComparable, Inside, ArgumentValue, HeaderOf, Says, ReadsAs, IsReadReplyOf;
    HeaderByFields(ZWAVE_PROFILE, item.testItemArg, loads(MatchedMessage(item)).value);
    var resp, type_ := loads(MatchedMessage(item)).value, ArgumentValue(item.testItemArg, "type");
    if type_.Some? {
      LastComparableDecides(refRoot, resp, "SENSOR_MULTILEVEL", type_.value, margin, units);
    }
  }

  /** Reads of zigbee devices, where the command itself names the sensor. */
  lemma ZigbeeReply(loads: Loader, item: TestItem, refRoot: Json, units: seq<JsonFormat>, margin: real)
    requires ReadOf(loads, item, "zigbee")
    ensures var resp, args := loads(MatchedMessage(item)).value, item.testItemArg;
            var r, cls, command := Some(resp), ArgumentValue(args, "class"), ArgumentValue(args, "readcommand");
            var info := Get(r, "commandinfo");
            var v := ItemVerdict(loads, item, refRoot, units, margin);
            if !IsReadReplyOf(resp, "zigbee") then v == VERDICT_RET_RESP_INVALID
            else if !Says(r, "status", "successful") then v == VERDICT_RET_FAILED
            else if info.None? then v == VERDICT_RET_RESP_INVALID
            else if cls.None? || command.None? then v == VERDICT_RET_UNKNOWN
            else if cls.value != "SENSOR" then v == VERDICT_RET_SUCCESS
            else if !Says(info, "class", "SENSOR") || !ReadsAs(info, "cmd", command.value)
            then v == VERDICT_RET_RESP_INVALID
            else v == ReadingVerdict(refRoot, resp, "SENSOR", command.value, units, margin)
  {
    hide FoldUnits, LastComparable, Inside, ArgumentValue, HeaderOf, Says, ReadsAs, IsReadReplyOf;
    HeaderByFields(ZIGBEE_PROFILE, item.testItemArg, loads(MatchedMessage(item)).value);
    var resp, command := loads(MatchedMessage(item)).value, ArgumentValue(item.testItemArg, "readcommand");
    if command.Some? {
      LastComparableDecides(refRoot, resp, "SENSOR", command.value, margin, units);
    }
  }

  /** Items whose reply is not examined: what does not parse, what reads nothing, and other device types. */
  lemma UnexaminedReply(loads: Loader, item: TestItem, refRoot: Json, units: seq<JsonFormat>, margin: real)
    requires Judgeable(loads, item)
    ensures var deviceType := ArgumentValue(item.testItemArg, "devicetype");
            var v := ItemVerdict(loads, item, refRoot, units, margin);
            && (loads(MatchedMessage(item)).None? ==> v == VERDICT_RET_UNKNOWN)
            && (loads(MatchedMessage(item)).Some? ==>
                  && (item.name !in ["read_spec", "read_s_spec"] ==> v == VERDICT_RET_SUCCESS)
                  && (item.name in ["read_spec", "read_s_spec"] && deviceType.None? ==> v == VERDICT_RET_UNKNOWN)
                  && (deviceType.Some? && deviceType.value !in ["zwave", "zigbee"] ==> v == VERDICT_RET_SUCCESS))
  {
    hide ArgumentValue;
  }

  /** No read of a known device type passes without a complete reply that reports success. */
  lemma PassNeedsReply(
    loads: Loader, item: TestItem, refRoot: Json, units: seq<JsonFormat>, margin: real, deviceType: string)
    requires deviceType in ["zwave", "zigbee"] && ReadOf(loads, item, deviceType)
    requires ItemVerdict(loads, item, refRoot, units, margin) == VERDICT_RET_SUCCESS
    ensures var resp := loads(MatchedMessage(item)).value;
            && IsReadReplyOf(resp, deviceType) && Says(Some(resp), "status", "successful")
            && Get(Some(resp), "commandinfo").Some?
            && ArgumentValue(item.testItemArg, "class").Some? && ArgumentValue(item.testItemArg, "readcommand").Some?
  {
    hide ItemVerdict, ReadingVerdict, IsReadReplyOf, ArgumentValue, Judgeable;
    if deviceType == "zwave" {
      ZwaveReply(loads, item, refRoot, units, margin);
    } else {
      ZigbeeReply(loads, item, refRoot, units, margin);
    }
  }
}
