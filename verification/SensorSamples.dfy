/** Well-formed sensor reads and replies of both device types, to show that the inputs of a law exist. */
module SensorSamples {
  import opened Options
  import opened JsonTree
  import opened TestCases
  import opened ReferenceVerdict

  /** A sensor read with the arguments of its template; zigbee names the sensor in the command itself. */
  function SensorItem(p: Profile, sensor: string): TestItem {
    TestItem("read_spec",
             [JsonFormat("devicetype", [p.deviceType], 0.0), JsonFormat("class", [p.cls], 0.0),
              JsonFormat("readcommand", [if p == ZIGBEE_PROFILE then sensor else "GET"], 0.0),
              JsonFormat("type", [sensor], 0.0)],
             ["response"], 0, VERDICT_RET_UNKNOWN)
  }

  /** A successful reply about a sensor with some readings. */
  function SensorReply(p: Profile, sensor: string, readings: map<string, Json>): Json {
    var info := Object(map["class" := String(p.cls), p.subField := String(sensor)]);
    Object(readings + map["type" := String(p.deviceType), "method" := String("read_specR"),
                          "status" := String("successful"), "commandinfo" := info])
  }

  lemma ArgumentHere(args: seq<JsonFormat>, i: nat)
    requires forall a :: a in args ==> a.value != []
    requires i < |args| && FirstAt(args, args[i].key, i)
    ensures ArgumentValue(args, args[i].key) == Some(args[i].value[0])
  {
    var k := ArgumentIsFirst(args, args[i].key);
  }

  lemma SampleArguments(p: Profile, sensor: string)
    ensures var item := SensorItem(p, sensor);
            && ItemDefined(item)
            && ArgumentValue(item.testItemArg, "devicetype") == Some(p.deviceType)
            && ArgumentValue(item.testItemArg, "class") == Some(p.cls)
            && ArgumentValue(item.testItemArg, "readcommand") == Some(if p == ZIGBEE_PROFILE then sensor else "GET")
            && ArgumentValue(item.testItemArg, "type") == Some(sensor)
  {
    hide ArgumentValue;
    var args := SensorItem(p, sensor).testItemArg;
    ArgumentHere(args, 0);
    ArgumentHere(args, 1);
    ArgumentHere(args, 2);
    ArgumentHere(args, 3);
  }

  lemma SampleHeader(p: Profile, sensor: string, readings: map<string, Json>)
    requires p == ZWAVE_PROFILE || p == ZIGBEE_PROFILE
    ensures ItemDefined(SensorItem(p, sensor))
    ensures HeaderOf(p, SensorItem(p, sensor).testItemArg, SensorReply(p, sensor, readings)) == Compared(sensor)
  {
    hide ArgumentValue, SensorReply, StringAt, Get;
    SampleArguments(p, sensor);
    SampleFields(p, sensor, readings);
  }

  lemma SampleFields(p: Profile, sensor: string, readings: map<string, Json>)
    requires p == ZWAVE_PROFILE || p == ZIGBEE_PROFILE
    ensures var root := Some(SensorReply(p, sensor, readings));
            && StringAt(root, "type") == p.deviceType && StringAt(root, "method") == "read_specR"
            && StringAt(root, "status") == "successful"
            && Get(root, "commandinfo").Some?
            && StringAt(Get(root, "commandinfo"), "class") == p.cls
            && StringAt(Get(root, "commandinfo"), p.subField) == sensor
  {
  }

  /** The reply passes every header check of the read and is compared under the sensor's name. */
  lemma SampleIsCompared(loads: Loader, p: Profile, sensor: string, readings: map<string, Json>)
    requires p == ZWAVE_PROFILE || p == ZIGBEE_PROFILE
    requires loads("response") == Some(SensorReply(p, sensor, readings))
    ensures var item := SensorItem(p, sensor);
            && Judgeable(loads, item) && ItemProfile(item) == Some(p)
            && HeaderOf(p, item.testItemArg, SensorReply(p, sensor, readings)) == Compared(sensor)
  {
    hide ArgumentValue, HeaderOf;
    SampleArguments(p, sensor);
    SampleHeader(p, sensor, readings);
  }
}
