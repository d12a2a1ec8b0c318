/** Learning reference values: a multi-field update of a JSON tree that is written back only as a whole. */
module References {
  import opened Options
  import opened JsonTree

  const OK := 0
  const ERROR := -1

  /** The fields a response contributes, and the object below which they are kept. */
  datatype Plan = Plan(path: seq<string>, targets: seq<string>)

  predicate IsReadSignal(signal: string) {
    signal == "read_spec" || signal == "read_s_spec"
  }

  /** What a class and sensor type learn; None for a class that is not learned at all. */
  function PlanFor(cls: string, data0: string, cmd: string): Option<Plan> {
    if cls == "BATTERY" then Some(Plan(["BATTERY"], ["batterylevel"]))
    else if cls == "SENSOR_MULTILEVEL" then
      Some(Plan(["SENSOR_MULTILEVEL", data0],
                if data0 == "TEMP" then ["fahrenheit", "celsius"]
                else if data0 == "HUMI" then ["percentage", "absolute_humidity"]
                else if data0 == "LUMI" then ["luminance"]
                else if data0 == "UV" then ["ultraviolet"]
                else []))
    else if cls == "METER" then Some(Plan(["METER"], ["unit", "time", "electricmeter"]))
    else if cls == "SENSOR" then
      Some(Plan(["SENSOR", cmd],
                if cmd == "TEMP" then ["celsius"] else if cmd == "HUMI" then ["relative_humidity"] else []))
    else None
  }

  /** Replaces the value at a key of the object found at `path`; None when there is no such object. */
  function SetAt(tree: Json, path: seq<string>, key: string, value: Json): Option<Json>
    decreases |path|
  {
    if !tree.Object? then None
    else if path == [] then Some(Object(tree.members[key := value]))
    else if path[0] !in tree.members then None
    else
      var sub := SetAt(tree.members[path[0]], path[1..], key, value);
      if sub.None? then None else Some(Object(tree.members[path[0] := sub.value]))
  }

  lemma SetAtOne(tree: Json, a: string, key: string, value: Json)
    ensures SetAt(tree, [a], key, value) ==
            var sub := Get(Some(tree), a);
            if sub.Some? && sub.value.Object?
            then Some(Object(tree.members[a := Object(sub.value.members[key := value])])) else None
  {
    assert [a][1..] == [];
  }

  lemma SetAtTwo(tree: Json, a: string, b: string, key: string, value: Json)
    ensures SetAt(tree, [a, b], key, value) ==
            var sub := Get(Some(tree), a);
            var leaf := Get(sub, b);
            if leaf.Some? && leaf.value.Object?
            then
              var updated := Object(sub.value.members[b := Object(leaf.value.members[key := value])]);
              Some(Object(tree.members[a := updated]))
            else None
  {
    assert [a, b][1..] == [b];
    if tree.Object? && a in tree.members {
      SetAtOne(tree.members[a], b, key, value);
    }
  }

  /** One field copied from the response; None when it is missing there or has no place in the tree. */
  function CopyField(tree: Json, resp: Json, path: seq<string>, target: string): Option<Json> {
    var source := Get(Some(resp), target);
    if source.None? then None else SetAt(tree, path, target, source.value)
  }

  function CopyFields(tree: Json, resp: Json, path: seq<string>, targets: seq<string>): Option<Json>
    decreases |targets|
  {
    if targets == [] then Some(tree)
    else
      var next := CopyField(tree, resp, path, targets[0]);
      if next.None? then None else CopyFields(next.value, resp, path, targets[1..])
  }

  /** A response that reports success with command information naming a learned class. */
  function PlanOf(resp: Json): Option<Plan> {
    var info := Get(Some(resp), "commandinfo");
    var cls := TextOf(Get(info, "class"));
    if info.None? || cls.None? then None
    else PlanFor(cls.value, StringAt(info, "data0"), StringAt(info, "cmd"))
  }

  predicate Successful(resp: Json) {
    TextOf(Get(Some(resp), "status")) == Some("successful")
  }

  /** The null pointers the source would compare as text: no status, or command information without a class. */
  predicate ResponseDefined(resp: Json) {
    && TextOf(Get(Some(resp), "status")).Some?
    && (Successful(resp) && Get(Some(resp), "commandinfo").Some? ==>
          TextOf(Get(Get(Some(resp), "commandinfo"), "class")).Some?)
  }

  /** The tree a reading turns the reference tree into; None when the update is refused. */
  function Learned(tree: Json, resp: Json): Option<Json> {
    if !Successful(resp) then Some(tree)
    else
      var plan := PlanOf(resp);
      if plan.None? then None else CopyFields(tree, resp, plan.value.path, plan.value.targets)
  }

  /** Where readings of a class are kept: sensors have one object for each sensor type. */
  function TargetPath(cmdClass: string, sensorType: string): seq<string> {
    if cmdClass == "SENSOR_MULTILEVEL" || cmdClass == "SENSOR" then [cmdClass, sensorType] else [cmdClass]
  }

  /** The part of the parser that learns: the in-memory tree and the reference file. */
  class Learner {
    var mRefJsonRoot: Json
    /** The parsed reference file; None when it cannot be loaded. */
    var referenceFile: Option<Json>

    constructor (file: Option<Json>)
      ensures referenceFile == file
    {
      mRefJsonRoot, referenceFile := Null, file;
    }

    /** Copies one field of the response into the in-memory tree, two levels down for sensors. */
    method ReplaceValueSensorMultilevel(respRoot: Json, cmdClass: string, sensorType: string, targetName: string)
      returns (status: int)
      modifies this`mRefJsonRoot
      ensures var r := CopyField(old(mRefJsonRoot), respRoot, TargetPath(cmdClass, sensorType), targetName);
              if r.Some? then status == OK && mRefJsonRoot == r.value
              else status == ERROR && mRefJsonRoot == old(mRefJsonRoot)
    {
      if Get(Some(respRoot), targetName).Some? {
        SetAtOne(mRefJsonRoot, cmdClass, targetName, Get(Some(respRoot), targetName).value);
        SetAtTwo(mRefJsonRoot, cmdClass, sensorType, targetName, Get(Some(respRoot), targetName).value);
      }
      var classObj := Get(Some(mRefJsonRoot), cmdClass);
      if classObj.None? {
        return ERROR;
      }
      var targetObj := classObj;
      var nested := cmdClass == "SENSOR_MULTILEVEL" || cmdClass == "SENSOR";
      if nested {
        targetObj := Get(classObj, sensorType);
      }
      var source := Get(Some(respRoot), targetName);
      if targetObj.None? || source.None? {
        return ERROR;
      }
      if !targetObj.value.Object? {
        return ERROR;
      }
      var updated := Object(targetObj.value.members[targetName := source.value]);
      if nested {
        mRefJsonRoot := Object(mRefJsonRoot.members[cmdClass := Object(classObj.value.members[sensorType := updated])]);
      } else {
        mRefJsonRoot := Object(mRefJsonRoot.members[cmdClass := updated]);
      }
      status := OK;
    }

    /** The fields of the response's class, one after the other, stopping at the first failure. */
    method CopyAll(respRoot: Json, cmdClass: string, sensorType: string, targets: seq<string>) returns (status: int)
      modifies this`mRefJsonRoot
      ensures var r := CopyFields(old(mRefJsonRoot), respRoot, TargetPath(cmdClass, sensorType), targets);
              if r.Some? then status == OK && mRefJsonRoot == r.value else status == ERROR
      decreases |targets|
    {
      status := OK;
      if targets != [] {
        status := ReplaceValueSensorMultilevel(respRoot, cmdClass, sensorType, targets[0]);
        if status != ERROR {
          status := CopyAll(respRoot, cmdClass, sensorType, targets[1..]);
        }
      }
    }

    /** Learns from one response; `dumpOk` is the outcome of writing the file, which stays as it was on failure. */
    method UpdateReferenceValue(loads: Loader, signal: string, responseMsg: string, dumpOk: bool) returns (status: int)
      requires IsReadSignal(signal) && referenceFile.Some? && loads(responseMsg).Some? ==>
                 ResponseDefined(loads(responseMsg).value)
      modifies this
      ensures referenceFile == FileAfter(old(referenceFile), loads, Update(signal, responseMsg, dumpOk))
      ensures status == OK || status == ERROR
      ensures status == OK <==>
                signal !in ["read_spec", "read_s_spec"]
                || (loads(responseMsg).Some? && old(referenceFile).Some? && dumpOk
                    && Learned(old(referenceFile).value, loads(responseMsg).value).Some?)
      ensures status == ERROR ==> referenceFile == old(referenceFile)
    {
      status := OK;
      if signal == "read_spec" || signal == "read_s_spec" {
        if referenceFile.None? {
          return ERROR;
        }
        mRefJsonRoot := referenceFile.value;
        var loaded := loads(responseMsg);
        if loaded.None? {
          return ERROR;
        }
        var response := loaded.value;
        if TextOf(Get(Some(response), "status")).value == "successful" {
          var commandInfo := Get(Some(response), "commandinfo");
          if commandInfo.None? {
            status := ERROR;
          } else {
            var cls := TextOf(Get(commandInfo, "class")).value;
            if cls == "BATTERY" {
              status := CopyAll(response, cls, "", ["batterylevel"]);
            } else if cls == "SENSOR_MULTILEVEL" {
              var sensorType := StringAt(commandInfo, "data0");
              if sensorType == "TEMP" {
                status := CopyAll(response, cls, sensorType, ["fahrenheit", "celsius"]);
              } else if sensorType == "HUMI" {
                status := CopyAll(response, cls, sensorType, ["percentage", "absolute_humidity"]);
              } else if sensorType == "LUMI" {
                status := CopyAll(response, cls, sensorType, ["luminance"]);
              } else if sensorType == "UV" {
                status := CopyAll(response, cls, sensorType, ["ultraviolet"]);
              }
            } else if cls == "METER" {
              status := CopyAll(response, cls, "", ["unit", "time", "electricmeter"]);
            } else if cls == "SENSOR" {
              var sensorType := StringAt(commandInfo, "cmd");
              if sensorType == "TEMP" {
                status := CopyAll(response, cls, sensorType, ["celsius"]);
              } else if sensorType == "HUMI" {
                status := CopyAll(response, cls, sensorType, ["relative_humidity"]);
              }
            } else {
              return ERROR;
            }
          }
        }
        if status != ERROR {
          if dumpOk {
            referenceFile := Some(mRefJsonRoot);
          } else {
            status := ERROR;
          }
        }
      }
    }
  }

  /** One call of the update. */
  datatype Update = Update(signal: string, message: string, dumpOk: bool)

  function FileAfter(file: Option<Json>, loads: Loader, u: Update): Option<Json> {
    if !IsReadSignal(u.signal) || file.None? || loads(u.message).None? || !u.dumpOk then file
    else
      var r := Learned(file.value, loads(u.message).value);
      if r.Some? then r else file
  }
}
