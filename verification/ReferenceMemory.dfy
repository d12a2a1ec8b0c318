/** When the verdict of a reference case depends on what its record held before the suite was read. */
module ReferenceMemory {
  import opened Options
  import opened JsonTree
  import opened TestCases
  import opened ReferenceVerdict
  import opened SensorSamples
  import opened VerdictLaws

  /** The margin in memory is the suite's, if the suite gives a "diff". */
  predicate HoldsMargin(margin: real, given: Option<real>) {
    given.Some? ==> margin == given.value
  }

  /** The outcome of judging an item; None where units are read that are not there. */
  function Outcome(loads: Loader, item: TestItem, refRoot: Json, units: Stored, margin: real): Option<int>
    requires Judgeable(loads, item)
  {
    if ComparesUnits(loads, item) && !units.Objects? then None
    else Some(ItemVerdict(loads, item, refRoot, UnitsOf(units), margin))
  }

  /**
   * A unit is judged by what the suite gives: with a margin, either the unit has a reading or a number of its
   * own, or its band is empty; without one, the reference is zero and no band holds anything.
   */
  predicate UnitIsGiven(reference: real, given: SuiteFormat, margin: Option<real>) {
    if margin.None? then reference == 0.0
    else given.value != [] || given.numValue.Some? || reference * margin.value <= 0.0
  }

  /** The last comparable unit is judged by what the suite gives, or there is none. */
  predicate LastUnitIsGiven(
    refRoot: Json, resp: Json, cls: string, sub: string, given: seq<SuiteFormat>, margin: Option<real>)
  {
    var k := LastComparable(refRoot, resp, cls, sub, given);
    k.Some? ==>
      UnitIsGiven(Reference(refRoot, resp, cls, sub, given[k.value]), given[k.value], margin)
  }

  /** Judging the item reads nothing that was never written, or reads it without effect. */
  predicate MemoryIsIrrelevant(
    loads: Loader, item: TestItem, refRoot: Json, given: Option<seq<SuiteFormat>>, margin: Option<real>)
    requires Judgeable(loads, item)
  {
    ComparesUnits(loads, item) ==>
      && given.Some?
      && var (cls, sub) := ComparedAs(loads, item);
         LastUnitIsGiven(refRoot, loads(MatchedMessage(item)).value, cls, sub, given.value, margin)
  }

  /** The same outcome whatever the record held. */
  ghost predicate SameForAllMemory(
    loads: Loader, item: TestItem, refRoot: Json, given: Option<seq<SuiteFormat>>, margin: Option<real>)
    requires Judgeable(loads, item)
  {
    forall s, t, m, n :: Prepared(s, given) && Prepared(t, given) && HoldsMargin(m, margin) && HoldsMargin(n, margin) ==>
      Outcome(loads, item, refRoot, s, m) == Outcome(loads, item, refRoot, t, n)
  }

  /** A unit in memory holds what the suite gives for it. */
  predicate HoldsUnit(unit: JsonFormat, given: SuiteFormat) {
    && unit.key == given.key && unit.value == given.value
    && (given.numValue.Some? ==> unit.numValue == given.numValue.value)
  }

  lemma SameComparable(refRoot: Json, resp: Json, cls: string, sub: string, unit: JsonFormat, given: SuiteFormat)
    requires HoldsUnit(unit, given)
    ensures Comparable(refRoot, resp, cls, sub, unit) == Comparable(refRoot, resp, cls, sub, given)
    ensures Comparable(refRoot, resp, cls, sub, unit) ==>
              Reference(refRoot, resp, cls, sub, unit) == Reference(refRoot, resp, cls, sub, given)
  {
    hide ReferenceOf, Get;
  }

  /** Which unit is the last comparable one does not depend on memory. */
  lemma SameLastComparable(
    refRoot: Json, resp: Json, cls: string, sub: string, objs: seq<JsonFormat>, given: seq<SuiteFormat>)
    requires Fills(objs, given)
    ensures LastComparable(refRoot, resp, cls, sub, objs) == LastComparable(refRoot, resp, cls, sub, given)
  {
    hide Comparable, LastComparable;
    forall i | 0 <= i < |given|
      ensures Comparable(refRoot, resp, cls, sub, objs[i]) == Comparable(refRoot, resp, cls, sub, given[i])
    {
      SameComparable(refRoot, resp, cls, sub, objs[i], given[i]);
    }
    var a, b := LastComparable(refRoot, resp, cls, sub, objs), LastComparable(refRoot, resp, cls, sub, given);
    assert a.Some? && b.Some? ==> !(a.value < b.value) && !(b.value < a.value);
  }

  /** The verdict over the units as they stand in memory, by the last comparable unit of the suite. */
  lemma FoldInMemory(
    refRoot: Json, resp: Json, cls: string, sub: string, margin: real, objs: seq<JsonFormat>, given: seq<SuiteFormat>)
    requires Fills(objs, given)
    ensures var k := LastComparable(refRoot, resp, cls, sub, given);
            && (k.Some? ==> Comparable(refRoot, resp, cls, sub, objs[k.value]))
            && FoldUnits(refRoot, resp, cls, sub, margin, objs) ==
               if k.None? || Inside(refRoot, resp, cls, sub, margin, objs[k.value])
               then VERDICT_RET_SUCCESS else VERDICT_RET_FAILED
  {
    SameLastComparable(refRoot, resp, cls, sub, objs, given);
    LastComparableDecides(refRoot, resp, cls, sub, margin, objs);
  }

  /** Distances are never negative, so an empty band holds nothing. */
  lemma EmptyBand(reference: real, margin: real, sensed: real)
    requires reference == 0.0 || reference * margin <= 0.0
    ensures !Within(reference, margin, sensed)
  {
    assert reference == 0.0 ==> reference * margin == 0.0;
  }

  /** A positive band holds its reference and not its own upper end. */
  lemma BandEnds(reference: real, margin: real)
    requires reference * margin > 0.0
    ensures Within(reference, margin, reference) && !Within(reference, margin, reference + reference * margin)
  {
  }

  /** Around any reference but zero there is a margin whose band holds a given reading. */
  lemma WideMargin(reference: real, sensed: real) returns (margin: real)
    requires reference != 0.0
    ensures Within(reference, margin, sensed)
  {
    margin := (Abs(sensed - reference) + 1.0) / reference;
  }

  lemma SameSensed(refRoot: Json, resp: Json, cls: string, sub: string, given: SuiteFormat, a: JsonFormat, b: JsonFormat)
    requires HoldsUnit(a, given) && HoldsUnit(b, given) && Comparable(refRoot, resp, cls, sub, given)
    requires given.value != [] || given.numValue.Some?
    ensures Sensed(resp, a) == Sensed(resp, b)
  {
    hide ReferenceOf, Get;
  }

  lemma UnitIgnored(refRoot: Json, resp: Json, cls: string, sub: string, given: SuiteFormat, margin: Option<real>,
                    a: JsonFormat, m: real, b: JsonFormat, n: real)
    requires HoldsUnit(a, given) && HoldsUnit(b, given) && HoldsMargin(m, margin) && HoldsMargin(n, margin)
    requires Comparable(refRoot, resp, cls, sub, given)
    requires UnitIsGiven(Reference(refRoot, resp, cls, sub, given), given, margin)
    ensures Comparable(refRoot, resp, cls, sub, a) && Comparable(refRoot, resp, cls, sub, b)
    ensures Inside(refRoot, resp, cls, sub, m, a) == Inside(refRoot, resp, cls, sub, n, b)
  {
    hide Comparable, Reference, Sensed, Within, HoldsUnit;
    SameComparable(refRoot, resp, cls, sub, a, given);
    SameComparable(refRoot, resp, cls, sub, b, given);
    var r := Reference(refRoot, resp, cls, sub, given);
    if r == 0.0 || (margin.Some? && r * margin.value <= 0.0) {
      EmptyBand(r, m, Sensed(resp, a));
      EmptyBand(r, n, Sensed(resp, b));
    } else {
      SameSensed(refRoot, resp, cls, sub, given, a, b);
    }
  }

  lemma FoldIgnored(
    refRoot: Json, resp: Json, cls: string, sub: string, given: seq<SuiteFormat>, margin: Option<real>,
    a: seq<JsonFormat>, m: real, b: seq<JsonFormat>, n: real)
    requires LastUnitIsGiven(refRoot, resp, cls, sub, given, margin)
    requires Fills(a, given) && Fills(b, given) && HoldsMargin(m, margin) && HoldsMargin(n, margin)
    ensures FoldUnits(refRoot, resp, cls, sub, m, a) == FoldUnits(refRoot, resp, cls, sub, n, b)
  {
    hide FoldUnits, Comparable, Inside, Reference, LastComparable, UnitIsGiven, HoldsMargin;
    FoldInMemory(refRoot, resp, cls, sub, m, a, given);
    FoldInMemory(refRoot, resp, cls, sub, n, b, given);
    var k := LastComparable(refRoot, resp, cls, sub, given);
    if k.Some? {
      UnitIgnored(refRoot, resp, cls, sub, given[k.value], margin, a[k.value], m, b[k.value], n);
    }
  }

  /** Two memories that tell the verdicts apart: one with the reading inside the band, one with it outside. */
  lemma FoldDecides(refRoot: Json, resp: Json, cls: string, sub: string, given: seq<SuiteFormat>, margin: Option<real>)
    returns (a: seq<JsonFormat>, m: real, b: seq<JsonFormat>, n: real)
    requires !LastUnitIsGiven(refRoot, resp, cls, sub, given, margin)
    ensures Fills(a, given) && Fills(b, given) && HoldsMargin(m, margin) && HoldsMargin(n, margin)
    ensures FoldUnits(refRoot, resp, cls, sub, m, a) == VERDICT_RET_SUCCESS
    ensures FoldUnits(refRoot, resp, cls, sub, n, b) == VERDICT_RET_FAILED
  {
    hide FoldUnits, Comparable, Reference, LastComparable, Sensed;
    var k := LastComparable(refRoot, resp, cls, sub, given).value;
    var x, y: real;
    x, m, y, n := UnitDecides(refRoot, resp, cls, sub, given[k], margin);
    a, b := Filled(given, x), Filled(given, y);
    FoldInMemory(refRoot, resp, cls, sub, m, a, given);
    FoldInMemory(refRoot, resp, cls, sub, n, b, given);
  }

  /** A unit in memory, with a number of one's choice where the suite gives none. */
  function FilledUnit(given: SuiteFormat, number: real): JsonFormat {
    JsonFormat(given.key, given.value, if given.numValue.Some? then given.numValue.value else number)
  }

  lemma UnitDecides(refRoot: Json, resp: Json, cls: string, sub: string, given: SuiteFormat, margin: Option<real>)
    returns (x: real, m: real, y: real, n: real)
    requires Comparable(refRoot, resp, cls, sub, given)
    requires !UnitIsGiven(Reference(refRoot, resp, cls, sub, given), given, margin)
    ensures HoldsMargin(m, margin) && HoldsMargin(n, margin)
    ensures var a, b := FilledUnit(given, x), FilledUnit(given, y);
            && Comparable(refRoot, resp, cls, sub, a) && Inside(refRoot, resp, cls, sub, m, a)
            && Comparable(refRoot, resp, cls, sub, b) && !Inside(refRoot, resp, cls, sub, n, b)
  {
    var r := Reference(refRoot, resp, cls, sub, given);
    hide Comparable, Reference, Within;
    if margin.None? {
      x, y, n := 0.0, 0.0, 0.0;
      m := WideMargin(r, Sensed(resp, FilledUnit(given, x)));
      EmptyBand(r, n, Sensed(resp, FilledUnit(given, y)));
    } else {
      m, n := margin.value, margin.value;
      x, y := r, r + r * m;
      BandEnds(r, m);
    }
    SameComparable(refRoot, resp, cls, sub, FilledUnit(given, x), given);
    SameComparable(refRoot, resp, cls, sub, FilledUnit(given, y), given);
  }

  /**
   * Exactly when an item of a reference case is judged alike whatever the record held: no units are compared;
   * or the suite gives units, and their last comparable one is judged by given values or cannot pass.
   */
  lemma ReferenceIgnoresMemoryIff(
    loads: Loader, item: TestItem, refRoot: Json, given: Option<seq<SuiteFormat>>, margin: Option<real>)
    requires Judgeable(loads, item)
    ensures SameForAllMemory(loads, item, refRoot, given, margin) <==>
            MemoryIsIrrelevant(loads, item, refRoot, given, margin)
  {
    if MemoryIsIrrelevant(loads, item, refRoot, given, margin) {
      forall s, t, m, n | Prepared(s, given) && Prepared(t, given) && HoldsMargin(m, margin) && HoldsMargin(n, margin)
        ensures Outcome(loads, item, refRoot, s, m) == Outcome(loads, item, refRoot, t, n)
      {
        ReferenceMemoryIgnored(loads, item, refRoot, given, margin, s, m, t, n);
      }
    } else {
      var s, m, t, n := ReferenceMemoryDecides(loads, item, refRoot, given, margin);
    }
  }

  lemma ReferenceMemoryIgnored(
    loads: Loader, item: TestItem, refRoot: Json, given: Option<seq<SuiteFormat>>, margin: Option<real>,
    s: Stored, m: real, t: Stored, n: real)
    requires Judgeable(loads, item) && MemoryIsIrrelevant(loads, item, refRoot, given, margin)
    requires Prepared(s, given) && Prepared(t, given) && HoldsMargin(m, margin) && HoldsMargin(n, margin)
    ensures Outcome(loads, item, refRoot, s, m) == Outcome(loads, item, refRoot, t, n)
  {
    hide FoldUnits, LastUnitIsGiven, Fills, HoldsMargin;
    if ComparesUnits(loads, item) {
      var (cls, sub) := ComparedAs(loads, item);
      ItemVerdictIsFold(loads, item, refRoot, s.objs, m);
      ItemVerdictIsFold(loads, item, refRoot, t.objs, n);
      FoldIgnored(refRoot, loads(MatchedMessage(item)).value, cls, sub, given.value, margin, s.objs, m, t.objs, n);
    }
  }

  lemma ReferenceMemoryDecides(
    loads: Loader, item: TestItem, refRoot: Json, given: Option<seq<SuiteFormat>>, margin: Option<real>)
    returns (s: Stored, m: real, t: Stored, n: real)
    requires Judgeable(loads, item) && !MemoryIsIrrelevant(loads, item, refRoot, given, margin)
    ensures Prepared(s, given) && Prepared(t, given) && HoldsMargin(m, margin) && HoldsMargin(n, margin)
    ensures Outcome(loads, item, refRoot, s, m) != Outcome(loads, item, refRoot, t, n)
    ensures given.Some? ==> Outcome(loads, item, refRoot, s, m) == Some(VERDICT_RET_SUCCESS)
    ensures given.Some? ==> Outcome(loads, item, refRoot, t, n) == Some(VERDICT_RET_FAILED)
  {
    var resp := loads(MatchedMessage(item)).value;
    hide FoldUnits, LastUnitIsGiven, Fills, ItemVerdict, HeaderOf;
    if given.None? {
      s, t := Unreadable, Objects([]);
      m := if margin.Some? then margin.value else 0.0;
      n := m;
    } else {
      var (cls, sub) := ComparedAs(loads, item);
      var a, x, b, y := FoldDecides(refRoot, resp, cls, sub, given.value, margin);
      s, m, t, n := Objects(a), x, Objects(b), y;
      ItemVerdictIsFold(loads, item, refRoot, a, m);
      ItemVerdictIsFold(loads, item, refRoot, b, n);
    }
  }

  /** The temperature check of two shipped control suites: both readings by reference, and no "diff". */
  const TEMPERATURE_UNITS: seq<SuiteFormat> :=
    [JsonFormat("fahrenheit", ["ref"], None), JsonFormat("celsius", ["ref"], None)]

  lemma CelsiusIsLast(refRoot: Json, resp: Json, cls: string, sub: string)
    requires IsReal(ReferenceOf(refRoot, cls, sub, "celsius")) && IsReal(Get(Some(resp), "celsius"))
    ensures LastComparable(refRoot, resp, cls, sub, TEMPERATURE_UNITS) == Some(1)
  {
  }

  lemma SampleComparesUnits(loads: Loader, p: Profile, sensor: string, readings: map<string, Json>)
    requires p == ZWAVE_PROFILE || p == ZIGBEE_PROFILE
    requires loads("response") == Some(SensorReply(p, sensor, readings))
    ensures var item := SensorItem(p, sensor);
            && Judgeable(loads, item) && MatchedMessage(item) == "response"
            && ComparesUnits(loads, item) && ComparedAs(loads, item) == (p.cls, sensor)
  {
    hide HeaderOf, ItemProfile, SensorReply;
    SampleIsCompared(loads, p, sensor, readings);
  }

  lemma CelsiusVerdict(loads: Loader, refRoot: Json, readings: map<string, Json>, units: seq<JsonFormat>, margin: real)
    requires loads("response") == Some(SensorReply(ZWAVE_PROFILE, "TEMP", readings))
    requires "celsius" in readings && readings["celsius"].Real?
    requires IsReal(ReferenceOf(refRoot, "SENSOR_MULTILEVEL", "TEMP", "celsius")) && Fills(units, TEMPERATURE_UNITS)
    ensures var item, r := SensorItem(ZWAVE_PROFILE, "TEMP"), ReferenceOf(refRoot, "SENSOR_MULTILEVEL", "TEMP", "celsius");
            && Judgeable(loads, item)
            && ItemVerdict(loads, item, refRoot, units, margin) ==
               if Within(r.value.amount, margin, readings["celsius"].amount) then VERDICT_RET_SUCCESS else VERDICT_RET_FAILED
  {
    var item, resp := SensorItem(ZWAVE_PROFILE, "TEMP"), SensorReply(ZWAVE_PROFILE, "TEMP", readings);
    assert Get(Some(resp), "celsius") == Some(readings["celsius"]);
    hide FoldUnits, HeaderOf, LastComparable, Within, ItemVerdict, SensorItem, SensorReply, ComparesUnits, Judgeable;
    SampleComparesUnits(loads, ZWAVE_PROFILE, "TEMP", readings);
    CelsiusIsLast(refRoot, resp, "SENSOR_MULTILEVEL", "TEMP");
    FoldInMemory(refRoot, resp, "SENSOR_MULTILEVEL", "TEMP", margin, units, TEMPERATURE_UNITS);
    ItemVerdictIsFold(loads, item, refRoot, units, margin);
  }

  /**
   * Whatever a temperature sensor reports and whatever non-zero Celsius reference was learned, one margin in
   * memory lets the shipped case pass and another fails it.
   */
  lemma TemperatureCaseIsArbitrary(loads: Loader, refRoot: Json, readings: map<string, Json>, units: seq<JsonFormat>)
    returns (m: real, n: real)
    requires loads("response") == Some(SensorReply(ZWAVE_PROFILE, "TEMP", readings))
    requires "celsius" in readings && readings["celsius"].Real?
    requires var r := ReferenceOf(refRoot, "SENSOR_MULTILEVEL", "TEMP", "celsius"); IsReal(r) && r.value.amount != 0.0
    requires Fills(units, TEMPERATURE_UNITS)
    ensures var item := SensorItem(ZWAVE_PROFILE, "TEMP");
            && AllJudgeable(loads, [item], Objects(units))
            && LastFailure(ItemVerdicts(loads, [item], refRoot, units, m)) == VERDICT_RET_SUCCESS
            && LastFailure(ItemVerdicts(loads, [item], refRoot, units, n)) == VERDICT_RET_FAILED
  {
    hide ItemVerdict, SensorReply, SensorItem, Within, ComparesUnits, Judgeable;
    var r := ReferenceOf(refRoot, "SENSOR_MULTILEVEL", "TEMP", "celsius").value.amount;
    n := 0.0;
    m := WideMargin(r, readings["celsius"].amount);
    EmptyBand(r, n, readings["celsius"].amount);
    CelsiusVerdict(loads, refRoot, readings, units, m);
    CelsiusVerdict(loads, refRoot, readings, units, n);
  }
}
