/** From a command line, through the linked device table, to the dump that the device prints. */
module EndToEnd {
  import opened CStrings
  import opened FlowTypes
  import opened FilterSpec
  import opened FlowDump
  import opened DumpUnique
  import opened ParsedFlows
  import opened BridgeSpec
  import opened BridgeText
  import opened BridgeModules
  import opened Devices
  import opened FlowModules
  import opened Linking

  /** k modulo n */
  function Wrapped(k: nat, n: nat): (r: nat)
    requires n > 0
    ensures r < n
  {
    if k < n then k else Wrapped(k - n, n)
  }

  /** The device in slot dev of a table: that of the (dev modulo their number)-th of the registered
      switches that support the protocol, and such a switch was loaded. */
  ghost predicate IsDeviceNumber(ptype: int, mods: seq<Module>, dev: int, d: Device?) {
    var devices := Supporting(ptype, SwitchesOf(mods));
    && devices != [] && dev >= 0 && d == devices[Wrapped(dev, |devices|)]
    && (exists i :: 0 <= i < |mods| && SwitchHas(mods[i], ptype, d))
    && (exists k :: 0 <= k < |mods| && ProtocolIs(mods[k], ptype))
  }

  lemma SlotDevice(ptype: int, mods: seq<Module>, dev: nat)
    requires dev < |BootTable(ptype, mods)|
    ensures IsDeviceNumber(ptype, mods, dev, BootTable(ptype, mods)[dev])
  {
    var devices := Supporting(ptype, SwitchesOf(mods));
    var round, i := RepeatAt(devices, CountType(ptype, ProtocolsOf(mods)), dev);
    WrappedRound(round, |devices|, i, dev);
    BootMembers(ptype, mods, BootTable(ptype, mods)[dev]);
  }

  lemma {:induction false} WrappedRound(round: nat, n: nat, i: nat, k: nat)
    requires i < n && k == round * n + i
    ensures Wrapped(k, n) == i
    decreases round
  {
    if round > 0 {
      assert k - n == (round - 1) * n + i;
      WrappedRound(round - 1, n, i, k - n);
    }
  }

  /** The device call of an accepted filter line goes to a device of a registered flow switch, found
      by its number, with the operation, the table, the ids and the bytes that the line determines. */
  lemma CallReachesSwitch(mods: seq<Module>, line: string, c: FlowCall, d: DeviceCall)
    requires FilterLine(|BootTable(PROTOCOL_FLOW, mods)|, line) == Accepted(Some(c))
    requires Carries(d, c, BootTable(PROTOCOL_FLOW, mods))
    ensures IsDeviceNumber(PROTOCOL_FLOW, mods, c.dev, d.target)
    ensures d.cmd == c.cmd && d.dev == c.dev && d.tbl == c.tbl
    ensures |d.tuples| == |c.tuples| && |d.actions| == |c.actions|
    ensures forall i :: 0 <= i < |d.tuples| ==>
              d.tuples[i].id == c.tuples[i].id && c.tuples[i].bytes <= d.tuples[i].value
    ensures forall i :: 0 <= i < |d.actions| ==>
              d.actions[i].id == c.actions[i].id && c.actions[i].bytes <= d.actions[i].value
  {
    hide FilterLine, BootTable, IsDeviceNumber;
    CallInRange(|BootTable(PROTOCOL_FLOW, mods)|, line, c);
    SlotDevice(PROTOCOL_FLOW, mods, c.dev);
    forall i | 0 <= i < |d.tuples|
      ensures d.tuples[i].id == c.tuples[i].id && c.tuples[i].bytes <= d.tuples[i].value
    {
      assert TupleHolds(d.tuples[i], c.tuples[i]);
    }
    forall i | 0 <= i < |d.actions|
      ensures d.actions[i].id == c.actions[i].id && c.actions[i].bytes <= d.actions[i].value
    {
      assert ActionHolds(d.actions[i], c.actions[i]);
    }
  }

  /** The call of a bridge line goes to a device of a registered bridge switch, found by its number. */
  lemma BridgeCallReachesSwitch(mods: seq<Module>, op: BrOp, line: string, c: BridgeCall)
    requires BridgeLine(op, |BootTable(PROTOCOL_BRIDGE, mods)|, line) == BrCalled(c)
    ensures var sent := Sent(BootTable(PROTOCOL_BRIDGE, mods), [c]);
            && |sent| == 1 && sent[0].call == c && c.op == op
            && IsDeviceNumber(PROTOCOL_BRIDGE, mods, c.dev, sent[0].target)
  {
    hide BridgeLine, BootTable, IsDeviceNumber;
    var table := BootTable(PROTOCOL_BRIDGE, mods);
    CallIsWellFormed(op, |table|, line, c);
    SlotDevice(PROTOCOL_BRIDGE, mods, c.dev);
    SentAt(table, [c]);
    BridgeLanguage(op, |table|, line);
  }

  lemma CallInRange(cnt: nat, line: string, c: FlowCall)
    requires FilterLine(cnt, line) == Accepted(Some(c))
    ensures 0 <= c.dev < cnt
  {
    ParsedIsWellFormed(cnt, line, c);
    hide FilterLine;
  }

  /** The dump that the called device prints is the text of the call, whatever the bytes are that
      the command line leaves undetermined. */
  lemma DeviceDump(cnt: nat, line: string, c: FlowCall, d: DeviceCall, table: seq<Device?>)
    requires FilterLine(cnt, line) == Accepted(Some(c)) && ReadsAddresses(line) && Carries(d, c, table)
    ensures forall i :: 0 <= i < |d.actions| ==> d.actions[i].id < |ACTION_NAMES|
    ensures AllDetermined(c.tuples) && AllNameable(c.actions)
    ensures DumpOfRecords(d.dev, d.tbl, d.tuples, d.actions) == DumpOfCall(c)
  {
    CallShown(cnt, line, c);
    DumpOfHolders(c.dev, c.tbl, d.tuples, c.tuples, d.actions, c.actions);
  }
}
