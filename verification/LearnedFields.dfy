/** Which fields of the reference file each kind of reading is learned into. */
module LearnedFields {
  import opened Options
  import opened JsonTree
  import opened References
  import opened ReferenceLaws

  /** Following keys is looking them up one after the other. */
  lemma LookupSteps(j: Option<Json>, a: string, b: string, c: string)
    ensures Lookup(j, [a]) == Get(j, a)
    ensures Lookup(j, [a, b]) == Get(Get(j, a), b)
    ensures Lookup(j, [a, b, c]) == Get(Get(Get(j, a), b), c)
  {
    LookupStep(j, a, []);
    LookupStep(j, a, [b]);
    LookupStep(j, a, [b, c]);
    LookupStep(Get(j, a), b, []);
    LookupStep(Get(j, a), b, [c]);
    LookupStep(Get(Get(j, a), b), c, []);
    assert [a] + [] == [a] && [b] + [] == [b] && [c] + [] == [c];
    assert [a] + [b] == [a, b] && [b] + [c] == [b, c] && [a] + [b, c] == [a, b, c];
  }

  lemma LookupStep(j: Option<Json>, a: string, rest: seq<string>)
    ensures Lookup(j, [a] + rest) == Lookup(Get(j, a), rest)
    ensures Lookup(j, []) == j
  {
    assert ([a] + rest)[1..] == rest;
  }

  /** The response has all the keys, and there is an object to keep them. */
  ghost predicate CanKeep(tree: Json, resp: Json, path: seq<string>, keys: seq<string>) {
    (forall k :: k in keys ==> Get(Some(resp), k).Some?) && IsObjectAt(tree, path)
  }

  /**
   * The reading is kept as a whole or not at all: with all its keys in the response and an object to keep them,
   * each key at that object takes the response's value and everything else stays; otherwise the file stays.
   */
  ghost predicate Kept(after: Option<Json>, tree: Json, resp: Json, path: seq<string>, keys: seq<string>) {
    if CanKeep(tree, resp, path, keys) then
      && after.Some?
      && (forall k :: k in keys ==> Lookup(after, path + [k]) == Get(Some(resp), k))
      && (forall k :: k !in keys ==> Lookup(after, path + [k]) == Lookup(Some(tree), path + [k]))
      && (forall p :: !(p <= path) && !(path <= p) ==> Lookup(after, p) == Lookup(Some(tree), p))
    else after == Some(tree)
  }

  lemma KeptByPlan(loads: Loader, tree: Json, u: Update, path: seq<string>, keys: seq<string>)
    requires IsReadSignal(u.signal) && loads(u.message).Some? && u.dumpOk && Successful(loads(u.message).value)
    requires PlanOf(loads(u.message).value) == Some(Plan(path, keys)) && keys != []
    ensures Kept(FileAfter(Some(tree), loads, u), tree, loads(u.message).value, path, keys)
  {
    var after, resp := FileAfter(Some(tree), loads, u), loads(u.message).value;
    hide FileAfter, PlanOf, Learned, Successful;
    UpdateIsTransaction(loads, tree, u, []);
    if Learned(tree, resp).Some? {
      assert after.Some? by { CommitIsFile(loads, tree, u); }
      forall p | !(p <= path) && !(path <= p)
        ensures Lookup(after, p) == Lookup(Some(tree), p)
      {
        UpdateIsTransaction(loads, tree, u, p);
      }
      forall k: string
        ensures Lookup(after, path + [k]) == if k in keys then Get(Some(resp), k) else Lookup(Some(tree), path + [k])
      {
        UpdateIsTransaction(loads, tree, u, path + [k]);
        LookupNothing(Get(Some(resp), k));
      }
    }
  }

  lemma CommitIsFile(loads: Loader, tree: Json, u: Update)
    ensures FileAfter(Some(tree), loads, u).Some?
  {
  }

  lemma LookupNothing(j: Option<Json>)
    ensures Lookup(j, []) == j
  {
  }

  /** A call that can learn something: a read, a response that parses, a file that can be written. */
  predicate CanLearn(loads: Loader, u: Update) {
    u.signal in ["read_spec", "read_s_spec"] && u.dumpOk && loads(u.message).Some?
  }

  /** Every kind of reading that is learned, its place and its keys; all other responses leave the file alone. */
  lemma ReadingsAreKept(loads: Loader, tree: Json, u: Update)
    requires CanLearn(loads, u)
    ensures var resp, after := loads(u.message).value, FileAfter(Some(tree), loads, u);
            var info := Get(Some(resp), "commandinfo");
            if !Says(Some(resp), "status", "successful") then after == Some(tree)
            else if Says(info, "class", "BATTERY") then Kept(after, tree, resp, ["BATTERY"], ["batterylevel"])
            else if Says(info, "class", "METER") then Kept(after, tree, resp, ["METER"], ["unit", "time", "electricmeter"])
            else if Says(info, "class", "SENSOR_MULTILEVEL") then
              if Says(info, "data0", "TEMP") then
                Kept(after, tree, resp, ["SENSOR_MULTILEVEL", "TEMP"], ["fahrenheit", "celsius"])
              else if Says(info, "data0", "HUMI") then
                Kept(after, tree, resp, ["SENSOR_MULTILEVEL", "HUMI"], ["percentage", "absolute_humidity"])
              else if Says(info, "data0", "LUMI") then
                Kept(after, tree, resp, ["SENSOR_MULTILEVEL", "LUMI"], ["luminance"])
              else if Says(info, "data0", "UV") then
                Kept(after, tree, resp, ["SENSOR_MULTILEVEL", "UV"], ["ultraviolet"])
              else after == Some(tree)
            else if Says(info, "class", "SENSOR") then
              if Says(info, "cmd", "TEMP") then Kept(after, tree, resp, ["SENSOR", "TEMP"], ["celsius"])
              else if Says(info, "cmd", "HUMI") then Kept(after, tree, resp, ["SENSOR", "HUMI"], ["relative_humidity"])
              else after == Some(tree)
            else after == Some(tree)
  {
    hide Kept, CopyFields;
    var resp := loads(u.message).value;
    if Successful(resp) && PlanOf(resp).Some? {
      var plan := PlanOf(resp).value;
      if plan.targets != [] {
        KeptByPlan(loads, tree, u, plan.path, plan.targets);
      } else {
        NoFields(tree, resp, plan.path);
      }
    }
  }

  /** The response names a kind of reading, by its class and by a member of its command information. */
  predicate IsReading(resp: Json, cls: string, member: string, sensor: string) {
    var info := Get(Some(resp), "commandinfo");
    Says(info, "class", cls) && Says(info, member, sensor)
  }

  /**
   * A call is accepted for a response that does not report success, which changes nothing; otherwise exactly
   * when its class is a learned one, and its kind, if it is learned, can be kept.
   */
  lemma AcceptedIff(tree: Json, resp: Json)
    ensures !Says(Some(resp), "status", "successful") ==> Learned(tree, resp) == Some(tree)
    ensures Says(Some(resp), "status", "successful") ==>
              var info := Get(Some(resp), "commandinfo");
              (Learned(tree, resp).Some? <==>
               if Says(info, "class", "BATTERY") then CanKeep(tree, resp, ["BATTERY"], ["batterylevel"])
               else if Says(info, "class", "METER") then CanKeep(tree, resp, ["METER"], ["unit", "time", "electricmeter"])
               else if IsReading(resp, "SENSOR_MULTILEVEL", "data0", "TEMP") then
                 CanKeep(tree, resp, ["SENSOR_MULTILEVEL", "TEMP"], ["fahrenheit", "celsius"])
               else if IsReading(resp, "SENSOR_MULTILEVEL", "data0", "HUMI") then
                 CanKeep(tree, resp, ["SENSOR_MULTILEVEL", "HUMI"], ["percentage", "absolute_humidity"])
               else if IsReading(resp, "SENSOR_MULTILEVEL", "data0", "LUMI") then
                 CanKeep(tree, resp, ["SENSOR_MULTILEVEL", "LUMI"], ["luminance"])
               else if IsReading(resp, "SENSOR_MULTILEVEL", "data0", "UV") then
                 CanKeep(tree, resp, ["SENSOR_MULTILEVEL", "UV"], ["ultraviolet"])
               else if IsReading(resp, "SENSOR", "cmd", "TEMP") then CanKeep(tree, resp, ["SENSOR", "TEMP"], ["celsius"])
               else if IsReading(resp, "SENSOR", "cmd", "HUMI") then
                 CanKeep(tree, resp, ["SENSOR", "HUMI"], ["relative_humidity"])
               else Says(info, "class", "SENSOR_MULTILEVEL") || Says(info, "class", "SENSOR"))
  {
    hide CopyFields, CanKeep;
    if Successful(resp) && PlanOf(resp).Some? {
      var plan := PlanOf(resp).value;
      if plan.targets != [] {
        KeepsIff(tree, resp, plan.path, plan.targets);
      } else {
        NoFields(tree, resp, plan.path);
      }
    }
  }

  lemma KeepsIff(tree: Json, resp: Json, path: seq<string>, keys: seq<string>)
    requires keys != []
    ensures CopyFields(tree, resp, path, keys).Some? <==> CanKeep(tree, resp, path, keys)
  {
    CopyCommits(tree, resp, path, keys);
  }

  lemma NoFields(tree: Json, resp: Json, path: seq<string>)
    ensures CopyFields(tree, resp, path, []) == Some(tree)
  {
  }

  /** Other calls leave the file alone: no read, no response that parses, a file that cannot be written. */
  lemma NothingIsKept(loads: Loader, file: Option<Json>, u: Update)
    requires !CanLearn(loads, u)
    ensures FileAfter(file, loads, u) == file
  {
  }

  /** A zwave temperature in both units, read back from the file. */
  lemma TemperatureIsKept(loads: Loader, tree: Json, u: Update, fahrenheit: Json, celsius: Json)
    requires CanLearn(loads, u) && IsObjectAt(tree, ["SENSOR_MULTILEVEL", "TEMP"])
    requires var r := loads(u.message);
             && Says(r, "status", "successful") && Says(Get(r, "commandinfo"), "class", "SENSOR_MULTILEVEL")
             && Says(Get(r, "commandinfo"), "data0", "TEMP")
             && Get(r, "fahrenheit") == Some(fahrenheit) && Get(r, "celsius") == Some(celsius)
    ensures var temp := Get(Get(FileAfter(Some(tree), loads, u), "SENSOR_MULTILEVEL"), "TEMP");
            Get(temp, "fahrenheit") == Some(fahrenheit) && Get(temp, "celsius") == Some(celsius)
  {
    var after := FileAfter(Some(tree), loads, u);
    ReadingsAreKept(loads, tree, u);
    hide FileAfter;
    var path := ["SENSOR_MULTILEVEL", "TEMP"];
    assert path + ["fahrenheit"] == ["SENSOR_MULTILEVEL", "TEMP", "fahrenheit"];
    assert path + ["celsius"] == ["SENSOR_MULTILEVEL", "TEMP", "celsius"];
    LookupSteps(after, "SENSOR_MULTILEVEL", "TEMP", "fahrenheit");
    LookupSteps(after, "SENSOR_MULTILEVEL", "TEMP", "celsius");
  }
}
