/** Laws of the reference verdict: which unit decides, which item decides, and how the margin matters. */
module VerdictLaws {
  import opened Options
  import opened JsonTree
  import opened TestCases
  import opened ReferenceVerdict
  import opened SensorSamples

  function Abs(x: real): real {
    if x < 0.0 then -x else x
  }

  /** The distance is below the margin's share of the reference. */
  predicate Within(sensingRef: real, margin: real, sensed: real) {
    Abs(sensed - sensingRef) < sensingRef * margin
  }

  /** The band is a bound on the distance; no reading is inside it when reference times margin is not positive. */
  lemma BandIsDistance(sensingRef: real, margin: real, sensed: real)
    ensures InBand(sensingRef, margin, sensed) <==> Within(sensingRef, margin, sensed)
    ensures sensingRef * margin <= 0.0 ==> !InBand(sensingRef, margin, sensed)
  {
  }

  /** The reading a unit is judged by: the response's, or the number fixed in the suite. */
  function Sensed(resp: Json, unit: JsonFormat): real {
    var reading := Get(Some(resp), unit.key);
    if unit.value != [] && IsReal(reading) then reading.value.amount else unit.numValue
  }

  /** A unit can be compared: its reference is a real number, and so is its reading in the response. */
  predicate Comparable<Number>(refRoot: Json, resp: Json, cls: string, sub: string, unit: Format<Number>) {
    && var reference, reading := Get(Get(Get(Some(refRoot), cls), sub), unit.key), Get(Some(resp), unit.key);
       && reference.Some? && reference.value.Real?
       && (unit.value != [] ==> reading.Some? && reading.value.Real?)
  }

  /** The learned value of a unit that can be compared. */
  function Reference<Number>(refRoot: Json, resp: Json, cls: string, sub: string, unit: Format<Number>): real
    requires Comparable(refRoot, resp, cls, sub, unit)
  {
    Get(Get(Get(Some(refRoot), cls), sub), unit.key).value.amount
  }

  /** The reading lies in the band around the unit's reference. */
  predicate Inside(refRoot: Json, resp: Json, cls: string, sub: string, margin: real, unit: JsonFormat)
    requires Comparable(refRoot, resp, cls, sub, unit)
  {
    Within(Reference(refRoot, resp, cls, sub, unit), margin, Sensed(resp, unit))
  }

  /** A comparable unit's verdict is whether its reading is inside; the others have none. */
  lemma UnitVerdictIsBand(refRoot: Json, resp: Json, cls: string, sub: string, margin: real, unit: JsonFormat)
    ensures UnitVerdict(refRoot, resp, cls, sub, margin, unit).Some? <==> Comparable(refRoot, resp, cls, sub, unit)
    ensures Comparable(refRoot, resp, cls, sub, unit) ==>
              UnitVerdict(refRoot, resp, cls, sub, margin, unit) ==
              Some(if Inside(refRoot, resp, cls, sub, margin, unit) then VERDICT_RET_SUCCESS else VERDICT_RET_FAILED)
  {
    if Comparable(refRoot, resp, cls, sub, unit) {
      BandIsDistance(Reference(refRoot, resp, cls, sub, unit), margin, Sensed(resp, unit));
    }
  }

  /** The position of the last unit that can be compared. */
  function LastComparable<Number>(refRoot: Json, resp: Json, cls: string, sub: string, units: seq<Format<Number>>)
    : (r: Option<nat>)
    ensures r.Some? ==> r.value < |units| && Comparable(refRoot, resp, cls, sub, units[r.value])
    ensures forall i :: 0 <= i < |units| && (r.Some? ==> r.value < i) ==> !Comparable(refRoot, resp, cls, sub, units[i])
  {
    if units == [] then None
    else if Comparable(refRoot, resp, cls, sub, units[|units| - 1]) then Some(|units| - 1)
    else LastComparable(refRoot, resp, cls, sub, units[..|units| - 1])
  }

  /** The last comparable unit alone decides, success without one; it is no conjunction. */
  lemma {:induction false} LastComparableDecides(
    refRoot: Json, resp: Json, cls: string, sub: string, margin: real, units: seq<JsonFormat>)
    ensures var k := LastComparable(refRoot, resp, cls, sub, units);
            FoldUnits(refRoot, resp, cls, sub, margin, units) ==
            if k.None? || Inside(refRoot, resp, cls, sub, margin, units[k.value])
            then VERDICT_RET_SUCCESS else VERDICT_RET_FAILED
    decreases |units|
  {
    if units != [] {
      UnitVerdictIsBand(refRoot, resp, cls, sub, margin, units[|units| - 1]);
      LastComparableDecides(refRoot, resp, cls, sub, margin, units[..|units| - 1]);
    }
  }

  /** Every reading that can be compared is inside its band: what a sensor check is meant to ask for. */
  predicate AllInside(refRoot: Json, resp: Json, cls: string, sub: string, margin: real, units: seq<JsonFormat>) {
    forall i :: 0 <= i < |units| && Comparable(refRoot, resp, cls, sub, units[i]) ==>
      Inside(refRoot, resp, cls, sub, margin, units[i])
  }

  /** Some reading before position `k` is outside its band. */
  predicate OutsideBefore(
    refRoot: Json, resp: Json, cls: string, sub: string, margin: real, units: seq<JsonFormat>, k: nat)
    requires k <= |units|
  {
    exists i :: 0 <= i < k && Comparable(refRoot, resp, cls, sub, units[i])
                && !Inside(refRoot, resp, cls, sub, margin, units[i])
  }

  lemma HiddenFailureIff(refRoot: Json, resp: Json, cls: string, sub: string, margin: real, units: seq<JsonFormat>)
    ensures var k := LastComparable(refRoot, resp, cls, sub, units);
            !AllInside(refRoot, resp, cls, sub, margin, units) <==>
            && k.Some?
            && (Inside(refRoot, resp, cls, sub, margin, units[k.value]) ==>
                  OutsideBefore(refRoot, resp, cls, sub, margin, units, k.value))
  {
    hide Comparable, Inside;
    var k := LastComparable(refRoot, resp, cls, sub, units);
  }

  /** What an item's reply is compared under: the class and the sensor. */
  function ComparedAs(loads: Loader, item: TestItem): (string, string)
    requires Judgeable(loads, item) && ComparesUnits(loads, item)
  {
    var p := ItemProfile(item).value;
    (p.cls, HeaderOf(p, item.testItemArg, loads(MatchedMessage(item)).value).sub)
  }

  /** An item whose reply is compared gets the verdict of its units. */
  lemma ItemVerdictIsFold(loads: Loader, item: TestItem, refRoot: Json, units: seq<JsonFormat>, margin: real)
    requires Judgeable(loads, item) && ComparesUnits(loads, item)
    ensures var (cls, sub) := ComparedAs(loads, item);
            ItemVerdict(loads, item, refRoot, units, margin) ==
            FoldUnits(refRoot, loads(MatchedMessage(item)).value, cls, sub, margin, units)
  {
    hide FoldUnits;
  }

  /**
   * An item whose reply is compared passes when all its comparable readings are inside their bands. It also
   * passes although one is outside exactly when the last one is inside and an earlier one is not.
   */
  lemma VerdictIsConjunctionIff(loads: Loader, item: TestItem, refRoot: Json, units: seq<JsonFormat>, margin: real)
    requires Judgeable(loads, item) && ComparesUnits(loads, item)
    ensures var resp := loads(MatchedMessage(item)).value;
            var (cls, sub) := ComparedAs(loads, item);
            var k := LastComparable(refRoot, resp, cls, sub, units);
            var passes := ItemVerdict(loads, item, refRoot, units, margin) == VERDICT_RET_SUCCESS;
            && (AllInside(refRoot, resp, cls, sub, margin, units) ==> passes)
            && (passes && !AllInside(refRoot, resp, cls, sub, margin, units) <==>
                && k.Some? && Inside(refRoot, resp, cls, sub, margin, units[k.value])
                && OutsideBefore(refRoot, resp, cls, sub, margin, units, k.value))
  {
    var resp := loads(MatchedMessage(item)).value;
    var (cls, sub) := ComparedAs(loads, item);
    hide Judgeable, ComparesUnits, ItemVerdict, FoldUnits, Comparable, Inside, AllInside, OutsideBefore, ComparedAs;
    ItemVerdictIsFold(loads, item, refRoot, units, margin);
    LastComparableDecides(refRoot, resp, cls, sub, margin, units);
    HiddenFailureIff(refRoot, resp, cls, sub, margin, units);
  }

  /** References and readings of two units, the first far off and the second exact. */
  function HiddenReferences(cls: string, sensor: string): Json {
    Object(map[cls := Object(map[sensor := Object(map["fahrenheit" := Real(90.0), "celsius" := Real(32.0)])])])
  }

  const HIDDEN_READINGS: map<string, Json> := map["fahrenheit" := Real(50.0), "celsius" := Real(32.0)]

  const HIDDEN_UNITS := [JsonFormat("fahrenheit", ["ref"], 0.0), JsonFormat("celsius", ["ref"], 0.0)]

  /**
   * For either device type and any sensor, a well-formed reply whose first unit fails passes as an item,
   * because the second unit comes last.
   */
  lemma FailureCanBeHidden(loads: Loader, p: Profile, sensor: string)
    requires p == ZWAVE_PROFILE || p == ZIGBEE_PROFILE
    requires loads("response") == Some(SensorReply(p, sensor, HIDDEN_READINGS))
    ensures var item, refRoot := SensorItem(p, sensor), HiddenReferences(p.cls, sensor);
            && Judgeable(loads, item)
            && UnitVerdict(refRoot, loads(MatchedMessage(item)).value, p.cls, sensor, 0.1, HIDDEN_UNITS[0])
               == Some(VERDICT_RET_FAILED)
            && ItemVerdict(loads, item, refRoot, HIDDEN_UNITS, 0.1) == VERDICT_RET_SUCCESS
  {
    SampleIsCompared(loads, p, sensor, HIDDEN_READINGS);
    var item, refRoot := SensorItem(p, sensor), HiddenReferences(p.cls, sensor);
    var resp := SensorReply(p, sensor, HIDDEN_READINGS);
    HiddenVerdicts(p, sensor);
    assert FoldUnits(refRoot, resp, p.cls, sensor, 0.1, HIDDEN_UNITS) == VERDICT_RET_SUCCESS;
  }

  lemma HiddenVerdicts(p: Profile, sensor: string)
    ensures var refRoot, resp := HiddenReferences(p.cls, sensor), SensorReply(p, sensor, HIDDEN_READINGS);
            && UnitVerdict(refRoot, resp, p.cls, sensor, 0.1, HIDDEN_UNITS[0]) == Some(VERDICT_RET_FAILED)
            && UnitVerdict(refRoot, resp, p.cls, sensor, 0.1, HIDDEN_UNITS[1]) == Some(VERDICT_RET_SUCCESS)
  {
    var refRoot := HiddenReferences(p.cls, sensor);
    assert ReferenceOf(refRoot, p.cls, sensor, "celsius") == Some(Real(32.0));
    assert ReferenceOf(refRoot, p.cls, sensor, "fahrenheit") == Some(Real(90.0));
    assert InBand(32.0, 0.1, 32.0) && !InBand(90.0, 0.1, 50.0);
  }

  lemma BandGrows(sensingRef: real, m: real, wider: real, sensed: real)
    requires 0.0 <= m <= wider && InBand(sensingRef, m, sensed)
    ensures InBand(sensingRef, wider, sensed)
  {
    BandIsDistance(sensingRef, m, sensed);
    BandIsDistance(sensingRef, wider, sensed);
    if sensingRef <= 0.0 {
      NonPositiveProduct(sensingRef, m);
    } else {
      ProductGrows(sensingRef, m, wider);
    }
  }

  lemma NonPositiveProduct(x: real, m: real)
    requires x <= 0.0 <= m
    ensures x * m <= 0.0
  {
  }

  lemma ProductGrows(x: real, m: real, wider: real)
    requires 0.0 < x && m <= wider
    ensures x * m <= x * wider
  {
    assert x * (wider - m) >= 0.0;
  }

  lemma {:induction false} FoldGrows(
    refRoot: Json, resp: Json, cls: string, sub: string, m: real, wider: real, units: seq<JsonFormat>)
    requires 0.0 <= m <= wider
    requires FoldUnits(refRoot, resp, cls, sub, m, units) == VERDICT_RET_SUCCESS
    ensures FoldUnits(refRoot, resp, cls, sub, wider, units) == VERDICT_RET_SUCCESS
    decreases |units|
  {
    if units != [] {
      var u := units[|units| - 1];
      var v := UnitVerdict(refRoot, resp, cls, sub, m, u);
      if v.Some? {
        var sensed := if u.value != [] then Get(Some(resp), u.key).value.amount else u.numValue;
        BandGrows(ReferenceOf(refRoot, cls, sub, u.key).value.amount, m, wider, sensed);
      } else {
        FoldGrows(refRoot, resp, cls, sub, m, wider, units[..|units| - 1]);
      }
    }
  }

  /** A failing last item decides; success means that all succeeded. */
  lemma {:induction false} LastFailureDecides(vs: seq<int>)
    ensures LastFailure(vs) == VERDICT_RET_SUCCESS <==> forall i :: 0 <= i < |vs| ==> vs[i] == VERDICT_RET_SUCCESS
    ensures LastFailure(vs) != VERDICT_RET_SUCCESS ==>
              exists k :: 0 <= k < |vs| && LastFailure(vs) == vs[k] &&
                          forall j :: k < j < |vs| ==> vs[j] == VERDICT_RET_SUCCESS
  {
    if vs != [] && vs[|vs| - 1] == VERDICT_RET_SUCCESS {
      LastFailureDecides(vs[..|vs| - 1]);
      assert forall i :: 0 <= i < |vs| - 1 ==> vs[..|vs| - 1][i] == vs[i];
    }
  }

  /** A test case that passes at some margin passes at every wider one. */
  lemma CaseMarginMonotone(
    loads: Loader, items: seq<TestItem>, refRoot: Json, units: seq<JsonFormat>, m: real, wider: real)
    requires forall t :: t in items ==> Judgeable(loads, t)
    requires 0.0 <= m <= wider
    requires LastFailure(ItemVerdicts(loads, items, refRoot, units, m)) == VERDICT_RET_SUCCESS
    ensures LastFailure(ItemVerdicts(loads, items, refRoot, units, wider)) == VERDICT_RET_SUCCESS
  {
    var vs, ws := ItemVerdicts(loads, items, refRoot, units, m), ItemVerdicts(loads, items, refRoot, units, wider);
    LastFailureDecides(vs);
    LastFailureDecides(ws);
    forall i | 0 <= i < |items|
      ensures ws[i] == VERDICT_RET_SUCCESS
    {
      assert vs[i] == VERDICT_RET_SUCCESS;
      ItemMarginMonotone(loads, items[i], refRoot, units, m, wider);
    }
  }

  lemma ItemMarginMonotone(loads: Loader, item: TestItem, refRoot: Json, units: seq<JsonFormat>, m: real, wider: real)
    requires Judgeable(loads, item) && 0.0 <= m <= wider
    requires ItemVerdict(loads, item, refRoot, units, m) == VERDICT_RET_SUCCESS
    ensures ItemVerdict(loads, item, refRoot, units, wider) == VERDICT_RET_SUCCESS
  {
    var resp := loads(MatchedMessage(item));
    if resp.Some? && ItemProfile(item).Some? {
      var p := ItemProfile(item).value;
      var h := HeaderOf(p, item.testItemArg, resp.value);
      if h.Compared? {
        FoldGrows(refRoot, resp.value, p.cls, h.sub, m, wider, units);
      }
    }
  }
}
