/** The device cache, the reading of device conditions and the arguments they end up in. */
module Devices {
  import opened Options
  import opened JsonTree
  import opened Text
  import opened Tokens
  import opened Numbers
  import opened Actions

  datatype DeviceInfo = DeviceInfo(
    owner: string, serial: string, friendlyName: string, id: string,
    capability: string, profileId: string, endPointNum: string)

  const DEVICE_FIELDS := ["Owner", "Serial", "FriendlyName", "ID", "Capability", "ProfileID", "EndPoint_num"]

  /** All seven fields are strings; the source copies a null pointer otherwise. */
  predicate IsDevice(j: Json) {
    forall f :: f in DEVICE_FIELDS ==> TextOf(Get(Some(j), f)).Some?
  }

  function DeviceOf(j: Json): DeviceInfo
    requires IsDevice(j)
  {
    var at := (k: nat) requires k < 7 => TextOf(Get(Some(j), DEVICE_FIELDS[k])).value;
    DeviceInfo(at(0), at(1), at(2), at(3), at(4), at(5), at(6))
  }

  predicate EntriesDefined(entries: seq<Json>) {
    forall e :: e in entries && e.Object? ==> IsDevice(e)
  }

  /** The object entries, in order. */
  function DevicesOf(entries: seq<Json>): seq<DeviceInfo>
    requires EntriesDefined(entries)
  {
    if entries == [] then []
    else if entries[0].Object? then [DeviceOf(entries[0])] + DevicesOf(entries[1..])
    else DevicesOf(entries[1..])
  }

  /** The array a listing response carries; empty when there is no message or no such array. */
  function ListEntries(message: Option<Json>): seq<Json> {
    var list := Get(message, "devicesList");
    if list.Some? && list.value.Array? then list.value.elements else []
  }

  lemma {:induction false} DevicesOfSnoc(entries: seq<Json>, e: Json)
    requires EntriesDefined(entries + [e])
    ensures EntriesDefined(entries)
    ensures e.Object? ==> IsDevice(e)
    ensures DevicesOf(entries + [e]) == DevicesOf(entries) + if e.Object? then [DeviceOf(e)] else []
  {
    assert forall x :: x in entries ==> x in entries + [e];
    assert e in entries + [e];
    if entries == [] {
      assert entries + [e] == [e];
    } else {
      assert (entries + [e])[1..] == entries[1..] + [e];
      DevicesOfSnoc(entries[1..], e);
    }
  }

  /** A device carries the seven texts of its entry, each under its own name. */
  ghost predicate Describes(d: DeviceInfo, entry: Json) {
    var e := Some(entry);
    && Says(e, "Owner", d.owner) && Says(e, "Serial", d.serial) && Says(e, "FriendlyName", d.friendlyName)
    && Says(e, "ID", d.id) && Says(e, "Capability", d.capability) && Says(e, "ProfileID", d.profileId)
    && Says(e, "EndPoint_num", d.endPointNum)
  }

  lemma DeviceDescribesEntry(entry: Json)
    requires IsDevice(entry)
    ensures Describes(DeviceOf(entry), entry)
  {
    forall k: nat | k < 7
      ensures TextOf(Get(Some(entry), DEVICE_FIELDS[k])).Some?
    {
      assert DEVICE_FIELDS[k] in DEVICE_FIELDS;
    }
  }

  /** A listing of device objects yields one device for each, in order. */
  lemma ListingIsDescribed(message: Option<Json>, entries: seq<Json>)
    requires Get(message, "devicesList") == Some(Array(entries))
    requires EntriesDefined(entries) && forall e :: e in entries ==> e.Object?
    ensures var devices := DevicesOf(ListEntries(message));
            |devices| == |entries| && forall i :: 0 <= i < |entries| ==> Describes(devices[i], entries[i])
  {
    EntriesAreDescribed(entries);
  }

  lemma {:induction false} EntriesAreDescribed(entries: seq<Json>)
    requires EntriesDefined(entries) && forall e :: e in entries ==> e.Object?
    ensures |DevicesOf(entries)| == |entries|
    ensures forall i :: 0 <= i < |entries| ==> Describes(DevicesOf(entries)[i], entries[i])
    decreases |entries|
  {
    hide DeviceOf, IsDevice, Describes;
    if entries != [] {
      DeviceDescribesEntry(entries[0]);
      EntriesAreDescribed(entries[1..]);
    }
  }

  /** Appends the listed devices to the caller's list; -1 when the message holds no entry to read. */
  method GetDevIDInJSMsg(loads: Loader, input: string, devList: seq<DeviceInfo>) returns (ret: int, r: seq<DeviceInfo>)
    requires EntriesDefined(ListEntries(loads(input)))
    ensures r == devList + DevicesOf(ListEntries(loads(input)))
    ensures ret == if Get(loads(input), "devicesList") in [None, Some(Array([]))] then -1 else 0
  {
    r := devList;
    var jsonMsg := loads(input);
    if jsonMsg.None? {
      return -1, r;
    }
    var jsListDevs := Get(jsonMsg, "devicesList");
    if jsListDevs.None? {
      return -1, r;
    }
    if jsListDevs.value.Array? {
      var entries := jsListDevs.value.elements;
      if |entries| == 0 {
        return -1, r;
      }
      for index := 0 to |entries|
        invariant EntriesDefined(entries[..index])
        invariant r == devList + DevicesOf(entries[..index])
      {
        var value := entries[index];
        assert entries[..index + 1] == entries[..index] + [value];
        DevicesOfSnoc(entries[..index], value);
        if value.Object? {
          r := r + [DeviceOf(value)];
        }
      }
      assert entries[..|entries|] == entries;
    }
    ret := 0;
  }

  /** The list position a condition such as "ID 2" selects among `size` devices. */
  function IndexFor(condition: string, size: nat): (i: nat)
    requires size > 0
    ensures i < size
  {
    var i := if Contains(condition, "ID") && |TokensOf(condition, ' ')| >= 2 then Atoi(TokenAt(condition, ' ', 1)) else 0;
    if 0 <= i < size then i else 0
  }

  method GetIndexByCondition(condition: string, devices: seq<DeviceInfo>) returns (ret: int)
    requires devices != []
    ensures ret == IndexFor(condition, |devices|)
    ensures 0 <= ret < |devices|
  {
    ret := 0;
    var found := Find(condition, "ID", 0);
    if found.Some? {
      var index, _ := SecondToken(condition, ' ');
      TokensAreWords(condition, ' ');
      if index != "" {
        ret := Atoi(index);
      }
    }
    if ret < 0 || ret >= |devices| {
      ret := 0;
    }
  }

  /** "ID n" selects entry n, and the first entry for every int outside the list. */
  lemma IndexRoundTrip(n: int, size: nat)
    requires size > 0 && IsInt(n)
    ensures IndexFor("ID " + SignedDecimal(n), size) == if 0 <= n < size then n else 0
  {
    var w := SignedDecimal(n);
    PrintedGlyphs(if n < 0 then -n else n, 10);
    assert IsWord(w, ' ');
    TokensOfId(w);
    hide TokensOf, Atoi, SignedDecimal;
    FindIsLeast("ID " + w, "ID", 0, 0);
    DecimalRoundTrip(n);
  }

  lemma TokensOfId(w: string)
    requires w != "" && IsWord(w, ' ')
    ensures TokensOf("ID " + w, ' ') == ["ID", w]
  {
    TokensOfWord(w, "", ' ');
    var tail := " " + w;
    assert tail[1..] == w;
    assert "ID " + w == "ID" + tail;
    TokensOfWord("ID", tail, ' ');
    assert w + "" == w;
  }

  /** How the user configured the device under test and the associated device. */
  datatype InputConfiguration = InputConfiguration(
    deviceIndex: string, altDeviceId: string, associationDevIndex: string, altAssDevId: string)

  const DEVICE_INDEX := 1
  const ASSOCIATED_INDEX := 5

  /** The list access throws outside the list, and so does the conversion of the index. */
  predicate IdDefined(alt: string, index: string, devices: seq<DeviceInfo>) {
    alt != "" || (Stoi(index, 10).Some? && 0 <= Stoi(index, 10).value < |devices|)
  }

  function ConfiguredId(alt: string, index: string, devices: seq<DeviceInfo>): string
    requires IdDefined(alt, index, devices)
  {
    if alt != "" then alt else devices[Stoi(index, 10).value].id
  }

  predicate IsDeviceSignal(signal: string) {
    signal in ["set_binary", "get_binary", "read_spec", "write_spec", "read_s_spec", "remove_device", "write_s_spec"]
  }

  predicate IsWriteSignal(signal: string) {
    signal in ["write_spec", "write_s_spec"]
  }

  /** The argument that holds the action text of a rule. */
  function ActionSlot(signal: string): Option<nat> {
    if signal == "set_rule" then Some(3) else if signal == "rule_actions" then Some(5) else None
  }

  predicate MentionsId(args: seq<string>, slot: nat) {
    slot < |args| && Contains(args[slot], "ID")
  }

  /** The slots the source reads exist and the configured devices can be looked up. */
  predicate UpdateDefined(signal: string, config: InputConfiguration, devices: seq<DeviceInfo>, args: seq<string>) {
    devices != [] ==>
      && (IsDeviceSignal(signal) ==>
            && DEVICE_INDEX < |args|
            && (MentionsId(args, DEVICE_INDEX) ==>
                  && IdDefined(config.altDeviceId, config.deviceIndex, devices)
                  && (IsWriteSignal(signal) ==> ASSOCIATED_INDEX < |args|)
                  && (IsWriteSignal(signal) && MentionsId(args, ASSOCIATED_INDEX) ==>
                        IdDefined(config.altAssDevId, config.associationDevIndex, devices))))
      && (ActionSlot(signal).Some? ==> ActionSlot(signal).value < |args|)
  }

  /** The arguments after device substitution. */
  function UpdatedArgs(signal: string, config: InputConfiguration, devices: seq<DeviceInfo>, args: seq<string>): seq<string>
    requires UpdateDefined(signal, config, devices, args)
  {
    if devices == [] then args
    else if IsDeviceSignal(signal) then
      if !MentionsId(args, DEVICE_INDEX) then args
      else
        var named := args[DEVICE_INDEX := ConfiguredId(config.altDeviceId, config.deviceIndex, devices)];
        if IsWriteSignal(signal) && MentionsId(args, ASSOCIATED_INDEX)
        then named[ASSOCIATED_INDEX := ConfiguredId(config.altAssDevId, config.associationDevIndex, devices)]
        else named
    else if ActionSlot(signal).Some? && MentionsId(args, ActionSlot(signal).value) then
      var slot := ActionSlot(signal).value;
      var device := TokenAt(args[slot], SEMICOLON, 1);
      args[slot := Spliced(args[slot], devices[IndexFor(device, |devices|)].id)]
    else args
  }

  /** The substitution, rewriting the caller's arguments in place. */
  method UpdateDevIDOfTC(signal: string, config: InputConfiguration, devices: seq<DeviceInfo>, arg: array<string>)
    requires UpdateDefined(signal, config, devices, arg[..])
    modifies arg
    ensures arg[..] == UpdatedArgs(signal, config, devices, old(arg[..]))
  {
    if |devices| == 0 {
      return;
    }
    if signal == "set_binary" || signal == "get_binary" || signal == "read_spec" || signal == "write_spec"
       || signal == "read_s_spec" || signal == "remove_device" || signal == "write_s_spec"
    {
      if Find(arg[DEVICE_INDEX], "ID", 0).None? {
        return;
      }
      if |config.altDeviceId| > 0 {
        arg[DEVICE_INDEX] := config.altDeviceId;
      } else {
        var index := Stoi(config.deviceIndex, 10).value;
        arg[DEVICE_INDEX] := devices[index].id;
      }
      if signal == "write_spec" || signal == "write_s_spec" {
        if Find(arg[ASSOCIATED_INDEX], "ID", 0).Some? {
          if |config.altAssDevId| > 0 {
            arg[ASSOCIATED_INDEX] := config.altAssDevId;
          } else {
            var index := Stoi(config.associationDevIndex, 10).value;
            arg[ASSOCIATED_INDEX] := devices[index].id;
          }
        }
      }
    }
    var saveActionInput := -1;
    if signal == "set_rule" {
      saveActionInput := 3;
    }
    if signal == "rule_actions" {
      saveActionInput := 5;
    }
    if saveActionInput != -1 {
      if Find(arg[saveActionInput], "ID", 0).None? {
        return;
      }
      var rewritten := RewriteAction(arg[saveActionInput], devices);
      arg[saveActionInput] := rewritten;
    }
  }

  /** The action with its device token looked up in the cache; the search runs on the tokenizer's marked copy. */
  method RewriteAction(action: string, devices: seq<DeviceInfo>) returns (r: string)
    requires devices != []
    ensures r == Spliced(action, devices[IndexFor(TokenAt(action, SEMICOLON, 1), |devices|)].id)
  {
    var tempdevId, actions := SecondToken(action, SEMICOLON);
    TokensAreWords(action, SEMICOLON);
    FindInMarked(actions, action, tempdevId, SEMICOLON, 0);
    TokenOccurs(action, SEMICOLON, 1);
    var pos := Find(actions, tempdevId, 0).value;
    var index := GetIndexByCondition(tempdevId, devices);
    r := action[..pos] + ";" + devices[index].id + ";" + action[pos + |tempdevId|..];
  }

  /** The device configured for an argument slot; none for an action, or where the configuration names none. */
  function Alternative(signal: string, config: InputConfiguration, slot: nat): string {
    if slot == DEVICE_INDEX then config.altDeviceId
    else if slot == ASSOCIATED_INDEX && IsWriteSignal(signal) then config.altAssDevId
    else ""
  }

  /**
   * An argument became the device configured for its slot, or, where none is configured, a listed one; an
   * action had a listed one spliced in.
   */
  ghost predicate FromConfigOrList(
    signal: string, config: InputConfiguration, devices: seq<DeviceInfo>, slot: nat, before: string, after: string)
  {
    if Alternative(signal, config, slot) != "" then after == Alternative(signal, config, slot)
    else if ActionSlot(signal) == Some(slot) then exists d :: d in devices && after == Spliced(before, d.id)
    else exists d :: d in devices && after == d.id
  }

  /** At most three slots ever change, each only under its own guard, and to a configured or listed device. */
  lemma ArgumentFrame(signal: string, config: InputConfiguration, devices: seq<DeviceInfo>, args: seq<string>, k: nat)
    requires UpdateDefined(signal, config, devices, args) && k < |args|
    ensures var r := UpdatedArgs(signal, config, devices, args);
            && |r| == |args|
            && (r[k] != args[k] ==>
                  && devices != []
                  && ((k == 1 && IsDeviceSignal(signal) && MentionsId(args, 1))
                      || (k == 5 && IsWriteSignal(signal) && MentionsId(args, 1) && MentionsId(args, 5))
                      || (k == 3 && signal == "set_rule" && MentionsId(args, 3))
                      || (k == 5 && signal == "rule_actions" && MentionsId(args, 5)))
                  && FromConfigOrList(signal, config, devices, k, args[k], r[k]))
  {
    var r := UpdatedArgs(signal, config, devices, args);
    if r[k] != args[k] && ActionSlot(signal).Some? && !IsDeviceSignal(signal) {
      var d := devices[IndexFor(TokenAt(args[k], SEMICOLON, 1), |devices|)];
      assert d in devices && r[k] == Spliced(args[k], d.id);
    }
  }

  /** The device configured for a slot: the alternative, or else the listed one at the configured position. */
  lemma ConfiguredByIndex(alt: string, devices: seq<DeviceInfo>, n: nat)
    requires n < |devices| && IsInt(n)
    ensures IdDefined(alt, Decimal(n), devices)
    ensures ConfiguredId(alt, Decimal(n), devices) == if alt != "" then alt else devices[n].id
  {
    DecimalRoundTrip(n);
  }

  /**
   * Signals that address a device are sent to the configured one: slot 1 becomes the alternative or the listed
   * device at the configured position, if it mentions "ID"; then for writes so does slot 5. Nothing else changes.
   */
  lemma ConfiguredDeviceIsSent(
    signal: string, config: InputConfiguration, devices: seq<DeviceInfo>, args: seq<string>, n: nat, m: nat)
    requires signal in ["set_binary", "get_binary", "read_spec", "write_spec", "read_s_spec", "remove_device",
                        "write_s_spec"]
    requires UpdateDefined(signal, config, devices, args)
    requires n < |devices| && IsInt(n) && config.deviceIndex == Decimal(n)
    requires m < |devices| && IsInt(m) && config.associationDevIndex == Decimal(m)
    ensures var r := UpdatedArgs(signal, config, devices, args);
            if !Contains(args[1], "ID") then r == args
            else
              var addressed := args[1 := if config.altDeviceId != "" then config.altDeviceId else devices[n].id];
              r == if signal in ["write_spec", "write_s_spec"] && Contains(args[5], "ID")
                   then addressed[5 := if config.altAssDevId != "" then config.altAssDevId else devices[m].id]
                   else addressed
  {
    hide Contains, ConfiguredId, IdDefined;
    ConfiguredByIndex(config.altDeviceId, devices, n);
    ConfiguredByIndex(config.altAssDevId, devices, m);
  }

  /** Without a listed device, for every other signal, and for actions without "ID" the arguments stay. */
  lemma ArgumentsStay(signal: string, config: InputConfiguration, devices: seq<DeviceInfo>, args: seq<string>)
    requires UpdateDefined(signal, config, devices, args)
    requires || devices == []
             || signal !in ["set_binary", "get_binary", "read_spec", "write_spec", "read_s_spec", "remove_device",
                            "write_s_spec", "set_rule", "rule_actions"]
             || (signal == "set_rule" && |args| > 3 && !Contains(args[3], "ID"))
             || (signal == "rule_actions" && |args| > 5 && !Contains(args[5], "ID"))
    ensures UpdatedArgs(signal, config, devices, args) == args
  {
    hide Contains, ConfiguredId, IdDefined;
  }

  /** A rule that names listed device n by position is sent for exactly that device, all else unchanged. */
  lemma RuleGetsListedDevice(signal: string, config: InputConfiguration, devices: seq<DeviceInfo>, args: seq<string>, n: nat)
    requires UpdateDefined(signal, config, devices, args)
    requires signal in ["set_rule", "rule_actions"] && n < |devices| && IsInt(n)
    requires var ts := TokensOf(args[if signal == "set_rule" then 3 else 5], SEMICOLON);
             |ts| >= 2 && ts[1] == "ID " + Decimal(n) && !Contains(ts[0], ts[1])
    requires devices[n].id != "" && IsWord(devices[n].id, SEMICOLON)
    ensures var slot, r := if signal == "set_rule" then 3 else 5, UpdatedArgs(signal, config, devices, args);
            && r == args[slot := r[slot]]
            && TokensOf(r[slot], SEMICOLON) == TokensOf(args[slot], SEMICOLON)[1 := devices[n].id]
  {
    var slot := if signal == "set_rule" then 3 else 5;
    RuleIsSpliced(args[slot], devices, n);
    hide TokensOf, Contains, IsWord, Spliced;
  }

  lemma RuleIsSpliced(action: string, devices: seq<DeviceInfo>, n: nat)
    requires n < |devices| && IsInt(n)
    requires var ts := TokensOf(action, SEMICOLON);
             |ts| >= 2 && ts[1] == "ID " + Decimal(n) && !Contains(ts[0], ts[1])
    requires devices[n].id != "" && IsWord(devices[n].id, SEMICOLON)
    ensures Contains(action, "ID") && IndexFor(TokenAt(action, SEMICOLON, 1), |devices|) == n
    ensures TokensOf(Spliced(action, devices[n].id), SEMICOLON) == TokensOf(action, SEMICOLON)[1 := devices[n].id]
  {
    hide TokensOf, Spliced, IndexFor, Find, IsWord;
    var device := "ID " + Decimal(n);
    IndexRoundTrip(n, |devices|);
    TokenOccurs(action, SEMICOLON, 1);
    var i := Find(action, device, 0).value;
    assert device == "ID" + (" " + Decimal(n));
    PrefixOccurs(action, "ID", " " + Decimal(n), i);
    FindIsLeast(action, "ID", 0, i);
    SpliceReplacesDevice(action, devices[n].id);
  }

  /** A condition that names no position selects the first device. */
  lemma NoPositionIsFirst(condition: string, size: nat)
    requires size > 0
    requires !Contains(condition, "ID") || |TokensOf(condition, ' ')| < 2
    ensures IndexFor(condition, size) == 0
  {
  }
}
