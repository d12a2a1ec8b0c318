/** Learning a reading and then judging that same reading. */
module Calibration {
  import opened Options
  import opened JsonTree
  import opened TestCases
  import opened References
  import opened ReferenceLaws
  import opened ReferenceVerdict
  import opened VerdictLaws
  import opened SensorSamples

  /** The response's own description of what it measured is what the judged item asked for. */
  lemma HeaderMatchesPlan(p: Profile, args: seq<JsonFormat>, resp: Json)
    requires p == ZWAVE_PROFILE || p == ZIGBEE_PROFILE
    requires forall a :: a in args ==> a.value != []
    requires HeaderOf(p, args, resp).Compared? && PlanOf(resp).Some?
    ensures Successful(resp) && PlanOf(resp).value.path == [p.cls, HeaderOf(p, args, resp).sub]
  {
  }

  /** The units are references by name, drawn from what the response's class learns. */
  predicate UnitsFromTargets(units: seq<JsonFormat>, targets: seq<string>) {
    forall u :: u in units ==> u.value != [] && u.key in targets
  }

  /** In the learned tree each target field refers to the response's own reading. */
  lemma LearnedReference(tree: Json, resp: Json, cls: string, sub: string, key: string)
    requires Successful(resp) && Learned(tree, resp).Some?
    requires PlanOf(resp).value.path == [cls, sub] && key in PlanOf(resp).value.targets
    ensures ReferenceOf(Learned(tree, resp).value, cls, sub, key) == Get(Some(resp), key)
  {
    var after := Learned(tree, resp);
    PlanShape(resp);
    FieldAfter(tree, resp, [cls, sub], key);
    var path := [cls, sub] + [key];
    assert path[0] == cls && path[1..] == [sub, key] && [sub, key][1..] == [key] && [key][1..] == [];
    assert Lookup(after, path) == Lookup(Get(after, cls), [sub, key]);
    assert Lookup(Get(after, cls), [sub, key]) == Lookup(Get(Get(after, cls), sub), [key]);
  }

  /** The last unit with a real-valued reading has a positive one, or there is none. */
  function LastReading(resp: Json, units: seq<JsonFormat>): Option<real> {
    if units == [] then None
    else
      var r := Get(Some(resp), units[|units| - 1].key);
      if IsReal(r) then Some(r.value.amount) else LastReading(resp, units[..|units| - 1])
  }

  lemma ExactReadingInBand(x: real, margin: real)
    requires margin > 0.0
    ensures InBand(x, margin, x) <==> x > 0.0
  {
    if x > 0.0 {
      assert x * margin > 0.0;
    } else {
      NonPositiveProduct(x, margin);
    }
  }

  lemma {:induction false} FoldOfOwnReadings(
    tree: Json, resp: Json, cls: string, sub: string, margin: real, units: seq<JsonFormat>)
    requires Successful(resp) && Learned(tree, resp).Some? && margin > 0.0
    requires PlanOf(resp).value.path == [cls, sub] && UnitsFromTargets(units, PlanOf(resp).value.targets)
    ensures FoldUnits(Learned(tree, resp).value, resp, cls, sub, margin, units) == VERDICT_RET_SUCCESS <==>
            (LastReading(resp, units).Some? ==> LastReading(resp, units).value > 0.0)
    decreases |units|
  {
    if units != [] {
      var u := units[|units| - 1];
      assert u in units;
      LearnedReference(tree, resp, cls, sub, u.key);
      if IsReal(Get(Some(resp), u.key)) {
        ExactReadingInBand(Get(Some(resp), u.key).value.amount, margin);
      } else {
        FoldOfOwnReadings(tree, resp, cls, sub, margin, units[..|units| - 1]);
      }
    }
  }

  /**
   * A reading that has just been learned, judged against the file it was learned into at any positive margin
   * and over any list of learned units, passes exactly when the last real-valued reading among the units is
   * positive. Readings that are not real numbers are never compared.
   */
  lemma CalibrateThenJudge(loads: Loader, tree: Json, item: TestItem, units: seq<JsonFormat>, margin: real, signal: string)
    requires Judgeable(loads, item) && IsReadSignal(signal) && margin > 0.0
    requires loads(MatchedMessage(item)).Some? && ItemProfile(item).Some?
    requires HeaderOf(ItemProfile(item).value, item.testItemArg, loads(MatchedMessage(item)).value).Compared?
    requires Commits(loads, tree, Update(signal, MatchedMessage(item), true))
    requires UnitsFromTargets(units, PlanOf(loads(MatchedMessage(item)).value).value.targets)
    ensures var resp := loads(MatchedMessage(item)).value;
            var file := FileAfter(Some(tree), loads, Update(signal, MatchedMessage(item), true));
            && file.Some?
            && (ItemVerdict(loads, item, file.value, units, margin) == VERDICT_RET_SUCCESS <==>
                (LastReading(resp, units).Some? ==> LastReading(resp, units).value > 0.0))
  {
    var resp, p := loads(MatchedMessage(item)).value, ItemProfile(item).value;
    HeaderMatchesPlan(p, item.testItemArg, resp);
    FoldOfOwnReadings(tree, resp, p.cls, HeaderOf(p, item.testItemArg, resp).sub, margin, units);
  }

  /** With all real readings positive, learning and then judging succeeds. */
  lemma {:induction false} PositiveReadingsPass(resp: Json, units: seq<JsonFormat>)
    requires forall u :: u in units && IsReal(Get(Some(resp), u.key)) ==> Get(Some(resp), u.key).value.amount > 0.0
    ensures LastReading(resp, units).Some? ==> LastReading(resp, units).value > 0.0
    decreases |units|
  {
    if units != [] {
      assert units[|units| - 1] in units;
      PositiveReadingsPass(resp, units[..|units| - 1]);
    }
  }

  /** A temperature below freezing, learned in Celsius, never passes against itself. */
  lemma FrostFailsAgainstItself(loads: Loader, tree: Json, item: TestItem, margin: real, celsius: real)
    requires Judgeable(loads, item) && margin > 0.0 && celsius <= 0.0
    requires loads(MatchedMessage(item)).Some? && ItemProfile(item).Some?
    requires HeaderOf(ItemProfile(item).value, item.testItemArg, loads(MatchedMessage(item)).value).Compared?
    requires Commits(loads, tree, Update("read_spec", MatchedMessage(item), true))
    requires "celsius" in PlanOf(loads(MatchedMessage(item)).value).value.targets
    requires Get(loads(MatchedMessage(item)), "celsius") == Some(Real(celsius))
    ensures ItemVerdict(loads, item, FileAfter(Some(tree), loads, Update("read_spec", MatchedMessage(item), true)).value,
                        [JsonFormat("celsius", ["ref"], 0.0)], margin) != VERDICT_RET_SUCCESS
  {
    CalibrateThenJudge(loads, tree, item, [JsonFormat("celsius", ["ref"], 0.0)], margin, "read_spec");
  }

  const EMPTY_REFERENCES := Object(map["SENSOR" := Object(map["TEMP" := Object(map[])])])

  const FROST_READINGS: map<string, Json> := map["celsius" := Real(-5.0)]

  lemma FrostIsLearned()
    ensures var resp := SensorReply(ZIGBEE_PROFILE, "TEMP", FROST_READINGS);
            && Get(Some(resp), "celsius") == Some(Real(-5.0))
            && PlanOf(resp) == Some(Plan(["SENSOR", "TEMP"], ["celsius"]))
            && Learned(EMPTY_REFERENCES, resp).Some?
  {
    SetAtTwo(EMPTY_REFERENCES, "SENSOR", "TEMP", "celsius", Real(-5.0));
  }

  /** A zigbee sensor that reports -5.0 degrees is learned, and then fails against what was learned. */
  lemma FrostExample(loads: Loader, margin: real)
    requires margin > 0.0
    requires loads("response") == Some(SensorReply(ZIGBEE_PROFILE, "TEMP", FROST_READINGS))
    ensures var item, u := SensorItem(ZIGBEE_PROFILE, "TEMP"), Update("read_spec", "response", true);
            var file := FileAfter(Some(EMPTY_REFERENCES), loads, u);
            && Judgeable(loads, item) && MatchedMessage(item) == u.message
            && Commits(loads, EMPTY_REFERENCES, u) && file.Some?
            && ItemVerdict(loads, item, file.value, [JsonFormat("celsius", ["ref"], 0.0)], margin) != VERDICT_RET_SUCCESS
  {
    hide Learned, PlanOf, SetAt, FoldUnits;
    SampleIsCompared(loads, ZIGBEE_PROFILE, "TEMP", FROST_READINGS);
    FrostIsLearned();
    FrostFailsAgainstItself(loads, EMPTY_REFERENCES, SensorItem(ZIGBEE_PROFILE, "TEMP"), margin, -5.0);
  }
}
