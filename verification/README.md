# Verification of the AllJoyn device tester

The tester drives a Z-Wave/Zigbee hub: it sends test items, collects responses that a callback
thread logs, learns sensor references, and judges test cases. This project models the parts of it
that hold state, loops and arithmetic, and proves what they keep, undo and decide.

## How the model is laid out

- `Json.dfy`, `Text.dfy`, `Tokens.dfy`, `Numbers.dfy`, `NumberLaws.dfy` - JSON values, substring search and
  replace-all, the reentrant C tokenizer (C11 section 7.24.5.8 for the family it belongs to), and
  the C conversions (C11 sections 7.22.1.2 and 7.22.1.4). Doubles are `real`; a JSON integer becomes
  an int by 32-bit wrap-around, the throwing conversion refuses what is no int.
- `Actions.dfy`, `Devices.dfy` - the splice that puts a device into a rule action, the device cache,
  the "ID n" condition, and the substitution of arguments in the caller's array.
- `ItemProtocol.dfy`, `ItemRuns.dfy`, `TestWorker.dfy` - the execution of test items. The first is a
  state machine whose events are the main thread's steps and the callback's deliveries, in any order;
  the second has the properties of its runs, and `CollectedItems.dfy` what a finished item hands to
  the verdict and to the learner; the third is the class with the source's fields, whose
  methods are proved to perform runs of that machine while a bus schedule delivers messages at every
  point where the main thread can be interrupted.
- `References.dfy`, `ReferenceLaws.dfy`, `LearnedFields.dfy` - learning reference values from a
  response, what that does to the reference file, and which fields each kind of reading goes to.
- `TestCases.dfy`, `ReferenceVerdict.dfy`, `VerdictLaws.dfy`, `Calibration.dfy` - judging against
  learned references, and the theorem that joins learning and judging; `ReplyLaws.dfy` has the verdict
  for every reply by the reply's own fields, `ReferenceMemory.dfy` what
  the suite must give for such a verdict not to depend on memory contents, and `SensorSamples.dfy`
  well-formed reads and replies that show the inputs of a law exist.
- `ExpectedVerdict.dfy`, `ExpectedLaws.dfy`, `CaseLaws.dfy` - judging configuration and association
  cases; the last gives the outcome by what stands in the items, the expectation and the reply.
- `ClaimMonitor.dfy`, `ClientPCL.dfy` - the lock and condition variable of the claim listener, as
  interleaved steps and as the listener's own methods.

Text becomes JSON through a parameter `loads` that may be any function, so every result holds for
every parser. Uninitialised variables of the source are a parameter `junk`. The record of a test case is
never initialised either (src/parsing/JsonParser.cc:361): it is modelled as it stands in memory, and
`Prepared` relates it to what the suite gives, so a result that holds for every prepared record and all
`junk` does not depend on memory contents. An array that was never written may be null, or a pointer
that cannot be followed. What the source leaves undefined (an out-of-range
vector access, a null pointer read as text, an exception of the integer conversion) is a precondition,
or the outcome `Undefined` where it depends on what arrives.

Every argument of a test item carries its text, as the item processor fills it
(src/parsing/JsonParser.cc:603-629); the verdict methods take this as given.

Atomicity: each event is one step. Setup is two of them, clearing the flag (line 103) and naming the
item (lines 106-113), because a callback may run in between. The callback itself is one step.
The claim monitor assumes that CLAIMED is stable; failed state reads and spurious wake-ups are events,
and their effect is recorded in the state.

## Where the code and its intent part

- A learned reading passes against itself only if it is positive: the band `ref +- ref * margin` is
  empty for a reference of zero or below (`CalibrateThenJudge`; `FrostExample` has -5.0 degrees).
- The last comparable unit decides an item; an earlier failing unit is forgotten (`FailureCanBeHidden`).
  An item passes with a reading outside its band exactly when the last comparable reading is inside its
  own and an earlier one is not (`VerdictIsConjunctionIff`).
- The matched index is never reset, so an item can take away a message that is not its own. This happens
  when a late answer to the previous item slips between the two halves of setup (`StaleAnswerWins`), when
  such an answer arrives after the previous item was collected and the item times out
  (`IdleAnswerIsTaken`), and in the first window even with a message the callback ignored
  (`IgnoredMessageIsTaken`). The match is right when an answer came after the item was named; the exact
  condition for every item that polled is `MatchedResponse`, and after an item that collected it is the
  same name (`StaleMatchIsRightIff`). An answer during the last sleep is recorded but not analysed
  (`LateAnswer`).
- The response is cleared only at a collection, so a listing that times out can parse a late answer to the
  item before it and cache its devices (`LateAnswerIsListed`); the listing is the item's own exactly when
  the item was answered after it was named (`ListingComesFromAnswer`). The learner does not look at the
  item's window at all: an unanswered read learns from an earlier item's message
  (`SilentReadLearnsAgain`), and it learns from its own answer exactly under the same condition
  (`LearnsOwnAnswerIff`).
- The action splice replaces the device token unless the first token contains it (`SpliceReplacesDevice`).
- After a secure read the returned node list is never parsed, so SET fails and REMOVE succeeds whatever
  it holds (`SecureAssociationIsBlind`, and exactly when this matters, `AssociationIsSoundIff`).
- A verdict can depend on uninitialised memory. An expectation case does for every class other than
  configuration and association (`UncomparedClassIsArbitrary`); for a configuration whose last response is
  no read reply, or an association whose command is empty, unless the numbers cannot agree; when the
  expected "value" is neither text nor number; and when the verdict has no "value" at all.
  `VerdictIgnoresMemoryIff` gives the exact condition. A reference case whose reply is compared does when
  its verdict has no "value"; when it has no "diff", unless no unit is comparable or the last comparable
  reference is zero; and when that unit's value is neither text nor number and its band is not empty
  (`ReferenceIgnoresMemoryIff`). Three shipped checks have no "diff" in their verdict; with a temperature
  check any report can pass or fail (`TemperatureCaseIsArbitrary`).
- One failed state read after the claim can leave the waiter blocked for good (`MissedReadBlocksForever`);
  it stays behind exactly when every read after the claim fails (`BlockedForGoodIff`). A spurious wake-up
  reports a claim that never happened (`SpuriousWakeReportsClaim`): before the claim, the waiter is on its
  way to success, or has reported it, exactly when it was woken spuriously (`FalseSuccessIff`).

## Model

| member | source | states |
|---|---|---|
| Text.ReplaceAll | src/parsing/TestWorker.cc:25-32 | the in-place loop terminates for every non-empty pattern and yields the leftmost non-overlapping split joined with the replacement |
| Text.ReplacedLength | src/parsing/TestWorker.cc:25-32 | the result is longer by the number of cuts times the difference of the lengths |
| Text.JoinUndoesSplit | src/parsing/TestWorker.cc:25-32 | splitting loses nothing: joining the pieces with the pattern gives the text back |
| Text.PiecesAreClean | src/parsing/TestWorker.cc:25-32 | no piece between two cuts contains the pattern |
| Text.ReplaceBack | src/parsing/TestWorker.cc:25-32 | replacing back recovers every text without the first character of the replacement, for all patterns |
| Text.HtmlLineBreaks | src/parsing/TestWorker.cc:217-225 | a rewritten upnp response has no newline, and one without '<' can be read back |
| Tokens.StrtokTakesOne | src/parsing/TestWorker.cc:394-400 | one tokenizer call delivers the first remaining token and leaves exactly the others in the marked buffer |
| Tokens.SecondToken | src/parsing/TestWorker.cc:394-400 | the loop finds the second token, and marks only delimiters of the copy it runs on |
| Tokens.FindInMarked | src/parsing/TestWorker.cc:402 | searching the token in the marked copy gives its position in the unmarked argument |
| Actions.SpliceTokens | src/parsing/TestWorker.cc:401-408 | the tokens of the rewritten action, for every action with a device token |
| Actions.SpliceReplacesDevice | src/parsing/TestWorker.cc:387-409 | exactly token 1 is replaced if and only if the first token does not contain the second, or all are equal |
| Actions.SpliceWithoutDevice | src/parsing/TestWorker.cc:387-409 | an action without a second token gets the device as a new first token |
| Devices.GetDevIDInJSMsg | src/parsing/JsonParser.cc:42-97 | appends exactly the object entries of the listed devices, in order, and reports -1 if and only if there is no list or an empty one |
| Devices.ListingIsDescribed | src/parsing/JsonParser.cc:56-91 | each device of a listing carries the seven texts of its own entry, each from the member of that name, in order |
| Devices.GetIndexByCondition | src/parsing/TestWorker.cc:452-481 | always an index of the non-empty list |
| Devices.IndexRoundTrip | src/parsing/TestWorker.cc:452-481 | "ID n" gives n inside the list and 0 for every other int n |
| Devices.NoPositionIsFirst | src/parsing/TestWorker.cc:452-481 | a condition that does not mention "ID" or has no second word selects the first device |
| Devices.RewriteAction | src/parsing/TestWorker.cc:393-408 | the rewriting through the marked copy is the splice with the cached device the token selects |
| Devices.UpdateDevIDOfTC | src/parsing/TestWorker.cc:317-414 | the argument array after substitution, slot by slot, in every branch |
| Devices.ConfiguredDeviceIsSent | src/parsing/TestWorker.cc:336-377 | for each of the seven signals slot 1 becomes the alternative or the listed device at the configured index, for writes slot 5 likewise, each if it mentions "ID", and nothing else changes |
| Devices.ArgumentsStay | src/parsing/TestWorker.cc:325-391 | without listed devices, for every other signal and for actions without "ID" the arguments stay |
| Devices.ArgumentFrame | src/parsing/TestWorker.cc:325-410 | at most slots 1, 5 and 3 change, each under its own guard, to the device configured for that slot or else a listed one, in a rule action a listed one spliced in; nothing without devices or without "ID" |
| Devices.RuleGetsListedDevice | src/parsing/TestWorker.cc:381-409 | a rule naming "ID n" is sent for listed device n with all other tokens and arguments unchanged |
| ItemProtocol.StepKeepsInvariant | src/parsing/TestWorker.cc:97-259 | every step of either thread keeps the log, match, flag and response invariants |
| ItemProtocol.LogConservation | src/parsing/TestWorker.cc:152-165 | in every run the item windows concatenate to the delivered messages up to the last collected index, and to all of them at a collection |
| ItemProtocol.MatchedResponse | src/parsing/TestWorker.cc:251-258 | for every item that polled, flag up or down, the exact condition under which its match is the latest message of its window under its name, and under which it takes any match at all |
| ItemProtocol.AnsweredMatch | src/parsing/TestWorker.cc:251-258 | an item answered after it was named takes its latest answer away |
| ItemProtocol.CollectedPredecessor | src/parsing/TestWorker.cc:106-173 | in every run, when the item that ended last collected, all messages between the last collection and the naming came under one signal |
| ItemProtocol.StaleMatchIsRightIff | src/parsing/TestWorker.cc:152-165 | in every run in which the item before collected, or there was none, the match is right if and only if the item was answered or the item before had the same name |
| ItemProtocol.FlagUpMatchIff | src/parsing/TestWorker.cc:103-113 | with the flag up, the match is right if and only if the item was answered or the item current when the flag was cleared had the same name |
| ItemRuns.PollBound | src/parsing/TestWorker.cc:178-193 | at most 300 sleeps whatever arrives, then analysis exactly when the flag is up before the last one |
| ItemRuns.LateAnswer | src/parsing/TestWorker.cc:180-193 | an answer during the last sleep is recorded as matched but never analysed |
| ItemRuns.LateAnswerHappens | src/parsing/TestWorker.cc:180-193 | a run of 300 sleeps that ends this way |
| ItemRuns.AnalysisReadsAnswer | src/parsing/TestWorker.cc:193-230 | with the flag up in time the response is the latest answer, for upnp with each newline as two line breaks; after a timeout it stays |
| ItemRuns.DeviceCache | src/parsing/TestWorker.cc:294-310 | in every reachable state the cache is the entries of the response held at the latest listing of the run, and empty before any |
| ItemRuns.SubstitutionUsesLatestListing | src/parsing/TestWorker.cc:347-408 | whatever the substitution changes becomes a configured device or one of the latest listing, also inside a rule action |
| ItemRuns.ListingComesFromAnswer | src/parsing/TestWorker.cc:294-310 | every listing, answered or timed out, caches the devices of the latest answer since the last collection, none without one; that answer is its own if and only if the item was answered after it was named |
| ItemRuns.ItemCache | src/parsing/TestWorker.cc:97-151 | a whole list_devices item caches the devices of its own latest answer if one came between its naming and its parsing, and every other item leaves the cache alone |
| ItemRuns.LateAnswerIsListed | src/parsing/TestWorker.cc:294-310 | a run in which a timed-out listing caches the devices named in a late answer to the item before |
| ItemRuns.StaleAnswerWins | src/parsing/TestWorker.cc:103-113 | a run in which an answer to the previous item becomes the matched response of the next |
| ItemRuns.IdleAnswerIsTaken | src/parsing/TestWorker.cc:152-165 | a run without a race in which a timed-out item takes the previous item's late answer as its match |
| ItemRuns.IgnoredMessageIsTaken | src/parsing/TestWorker.cc:160-165 | a run in which the first item takes a message the callback ignored as its match |
| CollectedItems.CollectedMessage | src/parsing/ResultVerdictHelper.cc:94 | exactly when a collected item has a message to judge, and that it is the item's latest answer whenever it was answered |
| CollectedItems.LearnsOwnAnswerIff | src/parsing/JsonParser.cc:508-512 | a read learns from its own latest answer if and only if it was answered after it was named, otherwise from the position recorded before that |
| CollectedItems.SilentReadLearnsAgain | src/parsing/JsonParser.cc:508-512 | a run in which a silent read learns from an earlier item's message outside its window |
| TestWorkers.TestWorker.TIRespMonitor | src/parsing/TestWorker.cc:233-259 | the callback logs the message, and records match, response and flag as the member and the current signal say; this is the delivery step of the machine |
| TestWorkers.TestWorker.Setup | src/parsing/TestWorker.cc:103-113 | the setup is one clearing and one naming with the given name and type, with deliveries in between, and takes no message from the bus but those sent |
| TestWorkers.TestWorker.ResponseAnalyst | src/parsing/TestWorker.cc:176-232 | the polling loop and one analysis are a run of the machine under every bus schedule, with one chance for deliveries in each sleep |
| TestWorkers.TestWorker.ParseRespondedMsg | src/parsing/TestWorker.cc:294-310 | the parse step on the fields |
| TestWorkers.TestWorker.CollectWindow | src/parsing/TestWorker.cc:152-173 | the item receives its window and the translated matched index, and the flag and response are cleared |
| TestWorkers.TestWorker.CopyWindow | src/parsing/TestWorker.cc:160-165 | the copying loop appends the pool from the start index on and moves the matched index with it |
| TestWorkers.TestWorker.ExecuteTestItem | src/parsing/TestWorker.cc:97-174 | a whole item is a run whose main-thread steps are exactly those of an item of this name and type, once and in order, or a stated part of them; with exactly the bus's messages, one request with the substituted arguments, its window in the item, the cache of a listing from its own answer and otherwise unchanged, and the returned status |
| TestWorkers.WindowsAreWhatTheBusSent | src/parsing/TestWorker.cc:97-174 | over a session the windows are what the bus sent, in order, up to the last collection |
| References.Learner.ReplaceValueSensorMultilevel | src/parsing/JsonParser.cc:891-913 | one field is copied below the class or the class and sensor, or an error leaves the tree alone |
| References.Learner.UpdateReferenceValue | src/parsing/JsonParser.cc:780-889 | the file afterwards is the learned tree or the old one, with the exact condition for success |
| LearnedFields.ReadingsAreKept | src/parsing/JsonParser.cc:823-866 | for each class and sensor by name, its keys at its own place take the response's values and everything else stays, or the file stays; all other responses leave the file alone |
| LearnedFields.AcceptedIff | src/parsing/JsonParser.cc:812-877 | for each class and sensor by name, exactly when a response is accepted |
| LearnedFields.NothingIsKept | src/parsing/JsonParser.cc:789-809 | no other call changes the file |
| LearnedFields.TemperatureIsKept | src/parsing/JsonParser.cc:830-834 | a zwave temperature is read back from the file in both units |
| ReferenceLaws.CopyCommits | src/parsing/JsonParser.cc:823-866 | copying succeeds exactly when every field is in the response and the receiving object exists |
| ReferenceLaws.UpdateIsTransaction | src/parsing/JsonParser.cc:780-889 | all target fields take the response's values and every other path stays, or the file stays; with the exact condition for each |
| ReferenceLaws.CommitIsStable | src/parsing/JsonParser.cc:823-885 | whether an update goes through does not depend on earlier updates |
| ReferenceLaws.LatestReadingWins | src/parsing/JsonParser.cc:780-889 | over any sequence of calls each field holds the last committed value that covers it |
| TestCases.GetTIArgumentValueByKey | src/parsing/ResultVerdictHelper.cc:366-374 | the text of the first argument with the key |
| ReferenceVerdict.JudgeZwave | src/parsing/ResultVerdictHelper.cc:113-236 | the zwave branch is the generic check for SENSOR_MULTILEVEL, "type" and "data0" |
| ReferenceVerdict.JudgeZigbee | src/parsing/ResultVerdictHelper.cc:240-359 | the zigbee branch is the generic check for SENSOR, "readcommand" and "cmd", and reads no absent argument |
| ReferenceVerdict.ValidateTestItemResult | src/parsing/ResultVerdictHelper.cc:85-365 | the item verdict through both branches and all early returns |
| ReplyLaws.ZwaveReply | src/parsing/ResultVerdictHelper.cc:113-236 | the code of each refusal of a zwave reply by its type, method, status, command information, class and sensor, and otherwise whether the last comparable reading is inside its band |
| ReplyLaws.ZigbeeReply | src/parsing/ResultVerdictHelper.cc:240-359 | the same for zigbee replies, whose sensor is the command |
| ReplyLaws.UnexaminedReply | src/parsing/ResultVerdictHelper.cc:94-109 | the verdict for messages that do not parse, for items that do not read, without a device type and for other types |
| ReplyLaws.PassNeedsReply | src/parsing/ResultVerdictHelper.cc:113-152 | a read passes only with a reply of its device type and a read method that reports success and carries command information |
| ReferenceVerdict.VerdictByReference | src/parsing/ResultVerdictHelper.cc:15-42 | each item stores exactly its own verdict and the case returns that of the last item that did not succeed |
| VerdictLaws.BandIsDistance | src/parsing/ResultVerdictHelper.cc:188-196 | the band is a bound on the distance, empty when reference times margin is not positive |
| VerdictLaws.LastComparableDecides | src/parsing/ResultVerdictHelper.cc:166-225 | the verdict is whether the last comparable reading is inside its band, success without one |
| VerdictLaws.FailureCanBeHidden | src/parsing/ResultVerdictHelper.cc:166-225 | for either device type a well-formed item whose first unit fails and whose last one passes succeeds |
| VerdictLaws.VerdictIsConjunctionIff | src/parsing/ResultVerdictHelper.cc:166-225 | an item passes when all readings are inside their bands, and with one outside if and only if the last comparable one is inside and an earlier one is not |
| VerdictLaws.LastFailureDecides | src/parsing/ResultVerdictHelper.cc:32-40 | success if and only if every item succeeded |
| VerdictLaws.ItemMarginMonotone | src/parsing/ResultVerdictHelper.cc:85-365 | an item that passes at a margin passes at every wider one |
| VerdictLaws.CaseMarginMonotone | src/parsing/ResultVerdictHelper.cc:15-42 | a case that passes at a margin passes at every wider one |
| ReferenceMemory.ReferenceIgnoresMemoryIff | src/parsing/JsonParser.cc:403-439 | an item of a reference case is judged alike whatever the record held if and only if no units are compared, or the suite gives units whose last comparable one is judged by given values or cannot pass |
| ReferenceMemory.TemperatureCaseIsArbitrary | src/testcases/Fibaro-MotionLightTempSensor/control_suite.json:26-44 | for every report and every non-zero Celsius reference, one margin in memory passes this case and another fails it |
| Calibration.LearnedReference | src/parsing/JsonParser.cc:904-909 | the learned tree refers each target field to the response's own reading |
| Calibration.CalibrateThenJudge | src/parsing/ResultVerdictHelper.cc:113-359 | a reading judged against the file it was learned into passes if and only if the last real reading among the units is positive |
| Calibration.PositiveReadingsPass | src/parsing/ResultVerdictHelper.cc:166-225 | positive real readings meet that condition for every list of units |
| Calibration.FrostFailsAgainstItself | src/parsing/ResultVerdictHelper.cc:188-196 | a Celsius reading of zero or below never passes against itself |
| Calibration.FrostExample | src/parsing/ResultVerdictHelper.cc:306-321 | a zigbee reading of -5.0 is learned and then fails |
| ExpectedVerdict.GetSignalType | src/parsing/ResultVerdictHelper.cc:385-413 | the type named by the first known "devicetype" argument |
| ExpectedVerdict.GetRWSpecsClass | src/parsing/ResultVerdictHelper.cc:449-473 | the class named by the first known "class" argument |
| ExpectedVerdict.GetMsgRespRWSpec | src/parsing/ResultVerdictHelper.cc:477-535 | what is read from the last response for the class of the first item, unread fields keeping memory contents |
| ExpectedVerdict.GetValueOfTestItem | src/parsing/ResultVerdictHelper.cc:783-795 | the texts of the last argument with the key |
| ExpectedVerdict.ExpectationComparison | src/parsing/ResultVerdictHelper.cc:597-670 | the verdict of the returned value or nodes against the expected objects as they stand in memory, a null pointer included, in every branch |
| ExpectedVerdict.InOutTestCaseComparison | src/parsing/ResultVerdictHelper.cc:672-781 | the verdict of the written value or node against what was read back, in every branch |
| ExpectedVerdict.EvaluationTestCase | src/parsing/ResultVerdictHelper.cc:540-595 | every item stores its status verdict, and the case verdict joins both comparisons |
| CaseLaws.ConfigurationByFields | src/parsing/ResultVerdictHelper.cc:540-623 | the outcome of every configuration answered by a read reply, by the reply's "value", the expected "value" and the text in "data1" or "data0" of the paired write |
| CaseLaws.AssociationByFields | src/parsing/ResultVerdictHelper.cc:540-670 | the outcome of every SET and REMOVE, by the reply's node list, the expected "nodefollow" and the written node, given or missing |
| ExpectedVerdict.VerdictResult | src/parsing/ResultVerdictHelper.cc:13-83 | the dispatch on the kind of case and the device type; a reference case keeps its own stored verdict, cases that are not judged keep all, and all else in the items is unchanged |
| ExpectedLaws.WrittenNumberReadsPrinted | src/parsing/ResultVerdictHelper.cc:738-747 | hexadecimal and decimal text of every int is read as that int, in whatever pieces |
| NumberLaws.SpelledNumberIsRead | src/parsing/ResultVerdictHelper.cc:743-747 | every spelling is read as its number: white space, sign, prefix, small and capital letters, and text behind it |
| NumberLaws.NoNumberIsRead | src/parsing/ResultVerdictHelper.cc:743-747 | a text without a number at its head is refused, and zero for the other conversion |
| ExpectedLaws.OnlyTheGluedTextMatters | src/parsing/ResultVerdictHelper.cc:738-752 | the verdict depends only on the concatenation of the pieces |
| ExpectedLaws.ConfigurationVerdict | src/parsing/ResultVerdictHelper.cc:540-623 | with the reply's integer "value", or -1 without one, as the returned value: success if and only if all statuses are good, the first write is read back at once in its flavour, and all three values agree; exact condition for unknown |
| ExpectedLaws.AssociationVerdict | src/parsing/ResultVerdictHelper.cc:649-667 | SET succeeds if and only if both nodes are seen, REMOVE if and only if neither is |
| ExpectedLaws.SetAndRemoveAreDual | src/parsing/ResultVerdictHelper.cc:755-778 | for equal nodes exactly one of the two commands succeeds on any returned list |
| ExpectedLaws.SecureAssociationIsBlind | src/parsing/ResultVerdictHelper.cc:503-519 | after a secure read the verdict ignores the returned list |
| ExpectedLaws.AssociationIsSoundIff | src/parsing/ResultVerdictHelper.cc:503-519 | exactly when the verdict agrees with the returned list |
| ExpectedLaws.UncomparedClassIsArbitrary | src/parsing/ResultVerdictHelper.cc:541-594 | for every other class each verdict is possible |
| ExpectedLaws.VerdictIgnoresMemoryIff | src/parsing/ResultVerdictHelper.cc:485-670 | the outcome is the same for all memory contents, of the variables and of what the suite leaves unset in the record, if and only if one of the listed conditions on the case holds, over all classes and commands |
| ClaimMonitor.StepKeepsInvariant | src/ajclient/AlljoynClient.cc:481-533 | every step of every thread and of the environment keeps the lock and wake-up invariant |
| ClaimMonitor.NoLostWakeUp | src/ajclient/AlljoynClient.cc:481-533 | a waiter blocked after the claim has a signal coming, unless a state read failed after the claim |
| ClaimMonitor.MutualExclusion | src/ajclient/AlljoynClient.cc:481-533 | at most one thread inside, and none that waits or has returned holds the lock |
| ClaimMonitor.FalseSuccessIff | src/ajclient/AlljoynClient.cc:504-533 | before the claim the waiter is on its way to success, or has reported it, if and only if it was woken spuriously |
| ClaimMonitor.BoundedProgress | src/ajclient/AlljoynClient.cc:481-533 | threads left alone take boundedly many steps |
| ClaimMonitor.SomeoneCanMove | src/ajclient/AlljoynClient.cc:481-533 | after the claim some thread can move until the waiter has returned |
| ClaimMonitor.QuiescentMeansReturned | src/ajclient/AlljoynClient.cc:504-533 | when nothing can move any more the waiter has returned |
| ClaimMonitor.BlockedForGoodIff | src/ajclient/AlljoynClient.cc:481-533 | once nothing can move, a waiter that waited and was not woken spuriously is still blocked if and only if every read after the claim failed |
| ClaimMonitor.MissedReadBlocksForever | src/ajclient/AlljoynClient.cc:486-499 | a run in which one failed read leaves the waiter blocked for good |
| ClaimMonitor.SpuriousWakeReportsClaim | src/ajclient/AlljoynClient.cc:524-532 | a run in which a spurious wake-up reports a claim that never happened |
| ClientPCLs.ClientPCL.PolicyChanged | src/ajclient/AlljoynClient.cc:481-502 | the callback locks, reads with the given outcome, signals when it reads CLAIMED, and unlocks, once and in this order, as a run of the machine; it wakes a blocked waiter exactly then |
| ClientPCLs.ClientPCL.WaitForClaimedState | src/ajclient/AlljoynClient.cc:504-528 | the waiter locks and reads with the given outcome, then returns, waits, or fails to wait, in exactly these steps of the machine; it releases the lock, and reports success only when claimed |
| ClientPCLs.ClientPCL.ReturnFromWait | src/ajclient/AlljoynClient.cc:524-532 | the signalled waiter returns success and releases the lock |

## Left out

- Bus calls, sessions, security manifests and announcements: foreign library behaviour, kept only as the requests made, the bus schedule and environment steps; error codes of the claim listener's calls are one code.
- The onboarding directory, the parsing module for onboarding, reports, HTML content, logging, file names, directory listing and console prompts: input and output.
- JSON text parsing and reference counting: values start parsed, through the parameter `loads`.
- Real time: a sleep is a point where messages may arrive; the limit of 300 is a counter.
- Floating-point rounding and integer overflow inside a conversion's accumulation: numbers are exact; only the range of the result is checked.
- Preparing a test case from the suite and template files: cases start as the records it leaves in memory.
- ExpectedVerdict.VerdictResult: a verdict object without a known method leaves the kind of the case unwritten; the model takes the kind from the record and states no law about that. Nor is the caller modelled, which stores no verdict for a reference case of another device type.
- Responses of battery and meter items in the reference verdict: the branches are empty, so such items succeed.
- Text fields of a response that no verdict reads (type, device, parameter, reason, group, maximum): not kept.
- Sharing of string storage between the action copy and the argument: the copy is taken to have its own buffer.
- References.Learner.UpdateReferenceValue: a failed write is taken to leave the file as it was; a half-written file is not modelled.
- TestWorkers.TestWorker.TIRespMonitor: the callback is one atomic step, so data races inside it are not modelled; nor is the HTML text it appends for a notification, which nothing reads.
- TestWorkers.TestWorker.ResponseAnalyst: the HTML result text, and the status and reason fields read only to build it, are not modelled, because nothing reads that text.
- Devices.IndexRoundTrip: the conversion of an index text is undefined in C for numbers outside int; the law is stated for ints only.
- ItemProtocol.LogConservation: the log index is unbounded; its wrap at the width of an unsigned int is not modelled.
- ClaimMonitor.NoLostWakeUp: CLAIMED is taken to be stable; an application that is reset while being waited for is not modelled.
