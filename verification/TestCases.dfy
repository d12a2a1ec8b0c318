/** The records a test case is made of, and the verdict codes. */
module TestCases {
  import opened Options

  const VERDICT_RET_INPUT_INVALID := -4
  const VERDICT_RET_RESP_INVALID := -3
  const VERDICT_RET_UNKNOWN := -2
  const VERDICT_RET_FAILED := -1
  const VERDICT_RET_SUCCESS := 0

  const VERDICT_EXPECTED := 0
  const VERDICT_REFERENCE := 1

  /** A key with texts or a number. */
  datatype Format<Number> = JsonFormat(key: string, value: seq<string>, numValue: Number)

  /** As it stands in memory. */
  type JsonFormat = Format<real>

  /** As the suite gives it; a value that holds neither text nor number leaves the number unwritten. */
  type SuiteFormat = Format<Option<real>>

  /**
   * A counted array of keys in memory. A pointer that was never written may be null or point nowhere; with a
   * count of zero nothing is read through it, as through no objects.
   */
  datatype Stored = Unreadable | NullPointer | Objects(objs: seq<JsonFormat>)

  /** The objects hold what the suite gives, and whatever the memory held for the numbers it leaves out. */
  ghost predicate Fills(objs: seq<JsonFormat>, given: seq<SuiteFormat>) {
    |objs| == |given| &&
    forall i :: 0 <= i < |given| ==>
      && objs[i].key == given[i].key && objs[i].value == given[i].value
      && (given[i].numValue.Some? ==> objs[i].numValue == given[i].numValue.value)
  }

  /** What the record may hold of the given objects, with some number wherever the suite gives none. */
  function Filled(given: seq<SuiteFormat>, number: real): (objs: seq<JsonFormat>)
    ensures Fills(objs, given)
  {
    seq(|given|, i requires 0 <= i < |given| =>
      JsonFormat(given[i].key, given[i].value, if given[i].numValue.Some? then given[i].numValue.value else number))
  }

  /** The array holds what the suite gives; without a "value" in the suite it is never written. */
  ghost predicate Prepared(stored: Stored, given: Option<seq<SuiteFormat>>) {
    given.Some? ==> stored.Objects? && Fills(stored.objs, given.value)
  }

  datatype TestItem = TestItem(
    name: string,
    testItemArg: seq<JsonFormat>,
    testItemLogPool: seq<string>,
    matchedRespMsgIndex: nat,
    verdictResult: int)

  /** The matched message exists and every argument carries its text. */
  predicate ItemDefined(item: TestItem) {
    && item.matchedRespMsgIndex < |item.testItemLogPool|
    && forall a :: a in item.testItemArg ==> a.value != []
  }

  function MatchedMessage(item: TestItem): string
    requires ItemDefined(item)
  {
    item.testItemLogPool[item.matchedRespMsgIndex]
  }

  /** The text of the first argument with a key. */
  function ArgumentValue(args: seq<JsonFormat>, key: string): Option<string>
    requires forall a :: a in args ==> a.value != []
  {
    if args == [] then None
    else if args[0].key == key then Some(args[0].value[0])
    else ArgumentValue(args[1..], key)
  }

  /** The key stands at position `k` and nowhere before. */
  predicate FirstAt<Number>(objs: seq<Format<Number>>, key: string, k: nat) {
    && k < |objs| && objs[k].key == key
    && forall j :: 0 <= j < k ==> objs[j].key != key
  }

  predicate HasNo<Number>(objs: seq<Format<Number>>, key: string) {
    forall i :: 0 <= i < |objs| ==> objs[i].key != key
  }

  /** An argument is found exactly when its key is there, and where it first stands. */
  lemma {:induction false} ArgumentIsFirst(args: seq<JsonFormat>, key: string) returns (k: nat)
    requires forall a :: a in args ==> a.value != []
    ensures ArgumentValue(args, key).None? <==> HasNo(args, key)
    ensures ArgumentValue(args, key).Some? ==> FirstAt(args, key, k) && ArgumentValue(args, key) == Some(args[k].value[0])
    decreases |args|
  {
    k := 0;
    if args != [] && args[0].key != key {
      var j := ArgumentIsFirst(args[1..], key);
      k := j + 1;
      assert forall i :: 1 <= i < |args| ==> args[i] == args[1..][i - 1];
    }
  }

  method GetTIArgumentValueByKey(item: TestItem, key: string) returns (r: Option<string>)
    requires ItemDefined(item)
    ensures r == ArgumentValue(item.testItemArg, key)
  {
    var args := item.testItemArg;
    for i := 0 to |args|
      invariant ArgumentValue(args, key) == ArgumentValue(args[i..], key)
    {
      if args[i].key == key {
        return Some(args[i].value[0]);
      }
    }
    r := None;
  }

  /**
   * The record of a test case as it stands in memory: what the suite does not give was never written. Verdicts
   * are stored in its items in place.
   */
  class TestCase {
    const verdictType: int
    const testItemInfo: array<TestItem>
    const expectedObjs: Stored
    const referenceUnits: Stored
    const margin: real
    var verdictResult: int

    constructor (verdictType: int, items: array<TestItem>, expectedObjs: Stored, referenceUnits: Stored,
                 margin: real, verdictResult: int)
      ensures this.verdictType == verdictType && testItemInfo == items && this.expectedObjs == expectedObjs
      ensures this.referenceUnits == referenceUnits && this.margin == margin && this.verdictResult == verdictResult
    {
      this.verdictType, testItemInfo, this.expectedObjs := verdictType, items, expectedObjs;
      this.referenceUnits, this.margin, this.verdictResult := referenceUnits, margin, verdictResult;
    }
  }

  /** Items that differ at most in their stored verdicts. */
  ghost predicate SameButVerdicts(a: seq<TestItem>, b: seq<TestItem>) {
    |a| == |b| && forall i :: 0 <= i < |a| ==> a[i] == b[i].(verdictResult := a[i].verdictResult)
  }
}
