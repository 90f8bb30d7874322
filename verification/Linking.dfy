/** The main module: registration of loaded modules, and the linking of switches to protocols. */
module Linking {
  import opened CStrings
  import opened Devices
  import opened FlowModules
  import opened BridgeModules

  /** register_proto of a protocol: into flw_devs, into br_devs, or (the main program's) nowhere. */
  datatype Registrar = FlowTable | BridgeTable | NoTable

  datatype Protocol = Protocol(ptype: int, register: Registrar)

  /** What a library registers when its init function is called. */
  datatype Module = ModSwitch(sw: Switch) | ModProtocol(proto: Protocol) | ModOther

  const APP_MAIN := Protocol(PROTOCOL_APP, NoTable)

  // ----- What linking amounts to

  function SwitchesOf(mods: seq<Module>): seq<Switch?> {
    if mods == [] then []
    else SwitchesOf(mods[..|mods| - 1]) + if mods[|mods| - 1].ModSwitch? then [mods[|mods| - 1].sw] else []
  }

  function ProtocolsOf(mods: seq<Module>): seq<Option<Protocol>> {
    if mods == [] then []
    else ProtocolsOf(mods[..|mods| - 1]) + if mods[|mods| - 1].ModProtocol? then [Some(mods[|mods| - 1].proto)] else []
  }

  /** The devices of the switches that answer to a protocol, in registration order. */
  function Supporting(ptype: int, sws: seq<Switch?>): seq<Device?> {
    if sws == [] then []
    else
      var s := sws[|sws| - 1];
      Supporting(ptype, sws[..|sws| - 1]) + if s != null && s.supports == ptype then [s.device] else []
  }

  /** What one protocol adds to a table. */
  function LinkedOnce(table: Registrar, p: Option<Protocol>, sws: seq<Switch?>): seq<Device?> {
    if p.Some? && p.value.register == table then Supporting(p.value.ptype, sws) else []
  }

  /** What the nested loops add to a table. */
  function Linked(table: Registrar, protos: seq<Option<Protocol>>, sws: seq<Switch?>): seq<Device?> {
    if protos == [] then []
    else Linked(table, protos[..|protos| - 1], sws) + LinkedOnce(table, protos[|protos| - 1], sws)
  }

  function Repeat<T>(xs: seq<T>, n: nat): seq<T> {
    if n == 0 then [] else Repeat(xs, n - 1) + xs
  }

  predicate IsType(ptype: int, p: Option<Protocol>) {
    p.Some? && p.value.ptype == ptype
  }

  function CountType(ptype: int, protos: seq<Option<Protocol>>): nat {
    if protos == [] then 0
    else CountType(ptype, protos[..|protos| - 1]) + if IsType(ptype, protos[|protos| - 1]) then 1 else 0
  }

  /** Protocols of this type, and only they, register into this table. */
  predicate Paired(table: Registrar, ptype: int, protos: seq<Option<Protocol>>) {
    forall i :: 0 <= i < |protos| && protos[i].Some? ==>
      (protos[i].value.register == table <==> IsType(ptype, protos[i]))
  }

  /** A table holds exactly the supporting switches, once per protocol of its type. */
  lemma {:induction false} LinkedIsRepeat(table: Registrar, ptype: int, protos: seq<Option<Protocol>>,
                                          sws: seq<Switch?>)
    requires Paired(table, ptype, protos)
    ensures Linked(table, protos, sws) == Repeat(Supporting(ptype, sws), CountType(ptype, protos))
  {
    if protos != [] {
      LinkedIsRepeat(table, ptype, protos[..|protos| - 1], sws);
    }
  }

  lemma {:induction false} RepeatLength<T>(xs: seq<T>, n: nat)
    ensures |Repeat(xs, n)| == n * |xs|
  {
    if n > 0 {
      RepeatLength(xs, n - 1);
      assert (n - 1) * |xs| + |xs| == n * |xs|;
    }
  }

  /** Slot k of a repeated list: the i-th element of one of the rounds. */
  lemma {:induction false} RepeatAt<T>(xs: seq<T>, n: nat, k: nat) returns (round: nat, i: nat)
    requires k < |Repeat(xs, n)|
    ensures round < n && i < |xs| && k == round * |xs| + i && Repeat(xs, n)[k] == xs[i]
  {
    RepeatLength(xs, n - 1);
    if k < |Repeat(xs, n - 1)| {
      round, i := RepeatAt(xs, n - 1, k);
    } else {
      round, i := n - 1, k - (n - 1) * |xs|;
    }
  }

  /** A device count is the product of the number of protocols and the number of switches. */
  lemma LinkedCount(table: Registrar, ptype: int, protos: seq<Option<Protocol>>, sws: seq<Switch?>)
    requires Paired(table, ptype, protos)
    ensures |Linked(table, protos, sws)| == CountType(ptype, protos) * |Supporting(ptype, sws)|
  {
    LinkedIsRepeat(table, ptype, protos, sws);
    RepeatLength(Supporting(ptype, sws), CountType(ptype, protos));
  }

  /** The supporting devices are exactly those of the supporting switches. */
  lemma {:induction false} SupportingMembers(ptype: int, sws: seq<Switch?>, d: Device?)
    ensures d in Supporting(ptype, sws) <==>
            exists i :: 0 <= i < |sws| && sws[i] != null && sws[i].supports == ptype && sws[i].device == d
  {
    if sws != [] {
      var front, s := sws[..|sws| - 1], sws[|sws| - 1];
      SupportingMembers(ptype, front, d);
      if i :| 0 <= i < |front| && front[i] != null && front[i].supports == ptype && front[i].device == d {
        assert sws[i] == front[i];
      }
      if i :| 0 <= i < |sws| && sws[i] != null && sws[i].supports == ptype && sws[i].device == d {
        assert i < |front| ==> front[i] == sws[i];
      }
    }
  }

  /** How switch and protocol modules interleave on loading does not matter for a table, nor do
      modules of other kinds and protocols of other types. */
  lemma LoadOrderIrrelevant(table: Registrar, ptype: int, a: seq<Module>, b: seq<Module>)
    requires Paired(table, ptype, ProtocolsOf(a)) && Paired(table, ptype, ProtocolsOf(b))
    requires SwitchesOf(a) == SwitchesOf(b) && CountType(ptype, ProtocolsOf(a)) == CountType(ptype, ProtocolsOf(b))
    ensures Linked(table, ProtocolsOf(a), SwitchesOf(a)) == Linked(table, ProtocolsOf(b), SwitchesOf(b))
  {
    LinkedIsRepeat(table, ptype, ProtocolsOf(a), SwitchesOf(a));
    LinkedIsRepeat(table, ptype, ProtocolsOf(b), SwitchesOf(b));
  }

  // ----- Modules loaded in another order

  lemma {:induction false} SwitchesAppend(a: seq<Module>, b: seq<Module>)
    ensures SwitchesOf(a + b) == SwitchesOf(a) + SwitchesOf(b)
    ensures ProtocolsOf(a + b) == ProtocolsOf(a) + ProtocolsOf(b)
    decreases |b|
  {
    if b == [] {
      assert a + b == a;
    } else {
      SwitchesAppend(a, b[..|b| - 1]);
      assert (a + b)[..|a + b| - 1] == a + b[..|b| - 1];
    }
  }

  lemma {:induction false} SupportingAppend(ptype: int, a: seq<Switch?>, b: seq<Switch?>)
    ensures Supporting(ptype, a + b) == Supporting(ptype, a) + Supporting(ptype, b)
    decreases |b|
  {
    if b == [] {
      assert a + b == a;
    } else {
      SupportingAppend(ptype, a, b[..|b| - 1]);
      assert (a + b)[..|a + b| - 1] == a + b[..|b| - 1];
    }
  }

  lemma {:induction false} CountAppend(ptype: int, a: seq<Option<Protocol>>, b: seq<Option<Protocol>>)
    ensures CountType(ptype, a + b) == CountType(ptype, a) + CountType(ptype, b)
    decreases |b|
  {
    if b == [] {
      assert a + b == a;
    } else {
      CountAppend(ptype, a, b[..|b| - 1]);
      assert (a + b)[..|a + b| - 1] == a + b[..|b| - 1];
    }
  }

  /** A list of one module, of one switch, of one protocol. */
  lemma OneModule(m: Module)
    ensures m.ModSwitch? ==> SwitchesOf([m]) == [m.sw] && ProtocolsOf([m]) == []
    ensures m.ModProtocol? ==> SwitchesOf([m]) == [] && ProtocolsOf([m]) == [Some(m.proto)]
    ensures m == ModOther ==> SwitchesOf([m]) == [] && ProtocolsOf([m]) == []
  {
    assert [m][..0] == [];
  }

  lemma OneSwitch(ptype: int, s: Switch, p: Protocol)
    ensures Supporting(ptype, [s]) == if s.supports == ptype then [s.device] else []
    ensures CountType(ptype, [Some(p)]) == if p.ptype == ptype then 1 else 0
    ensures forall xs: seq<Device?> :: Repeat(xs, 1) == xs
  {
    var sws: seq<Switch?>, protos := [s], [Some(p)];
    assert sws[..0] == [] && protos[..0] == [];
    forall xs: seq<Device?> ensures Repeat(xs, 1) == xs {
      assert Repeat(xs, 0) == [];
    }
  }

  predicate SwitchHas(m: Module, ptype: int, d: Device?) {
    m.ModSwitch? && m.sw.supports == ptype && m.sw.device == d
  }

  predicate ProtocolIs(m: Module, ptype: int) {
    m.ModProtocol? && m.proto.ptype == ptype
  }

  lemma {:induction false} SupportingOfModules(ptype: int, mods: seq<Module>, d: Device?)
    ensures d in Supporting(ptype, SwitchesOf(mods)) <==> exists i :: 0 <= i < |mods| && SwitchHas(mods[i], ptype, d)
    ensures CountType(ptype, ProtocolsOf(mods)) > 0 <==> exists k :: 0 <= k < |mods| && ProtocolIs(mods[k], ptype)
  {
    if mods != [] {
      var front, m := mods[..|mods| - 1], mods[|mods| - 1];
      assert mods == front + [m];
      SupportingOfModules(ptype, front, d);
      SwitchesAppend(front, [m]);
      SupportingAppend(ptype, SwitchesOf(front), SwitchesOf([m]));
      CountAppend(ptype, ProtocolsOf(front), ProtocolsOf([m]));
      OneMember(ptype, m, d);
      FrontMember(front, m, ptype, d);
    }
  }

  lemma OneMember(ptype: int, m: Module, d: Device?)
    ensures d in Supporting(ptype, SwitchesOf([m])) <==> SwitchHas(m, ptype, d)
    ensures CountType(ptype, ProtocolsOf([m])) > 0 <==> ProtocolIs(m, ptype)
  {
    OneModule(m);
    match m
    case ModSwitch(s) => OneSwitch(ptype, s, APP_MAIN);
    case ModProtocol(p) =>
      var protos := [Some(p)];
      assert protos[..0] == [] && ProtocolsOf([m]) == protos;
    case ModOther =>
  }

  lemma FrontMember(front: seq<Module>, m: Module, ptype: int, d: Device?)
    ensures var mods := front + [m];
            && ((exists i :: 0 <= i < |mods| && SwitchHas(mods[i], ptype, d)) <==>
                (exists i :: 0 <= i < |front| && SwitchHas(front[i], ptype, d)) || SwitchHas(m, ptype, d))
            && ((exists i :: 0 <= i < |mods| && ProtocolIs(mods[i], ptype)) <==>
                (exists i :: 0 <= i < |front| && ProtocolIs(front[i], ptype)) || ProtocolIs(m, ptype))
  {
    var mods := front + [m];
    assert mods[|front|] == m && forall i :: 0 <= i < |front| ==> mods[i] == front[i];
  }

  lemma {:induction false} RepeatMember<T>(xs: seq<T>, n: nat, x: T)
    ensures x in Repeat(xs, n) <==> n > 0 && x in xs
  {
    if n > 0 {
      RepeatMember(xs, n - 1, x);
    }
  }

  /** A device is in a table exactly if a loaded switch that supports the protocol owns it and a
      protocol of this type is loaded. */
  lemma BootMembers(ptype: int, mods: seq<Module>, d: Device?)
    ensures d in BootTable(ptype, mods) <==>
            && (exists i :: 0 <= i < |mods| && SwitchHas(mods[i], ptype, d))
            && (exists k :: 0 <= k < |mods| && ProtocolIs(mods[k], ptype))
  {
    SupportingOfModules(ptype, mods, d);
    RepeatMember(Supporting(ptype, SwitchesOf(mods)), CountType(ptype, ProtocolsOf(mods)), d);
  }

  /** Every loaded switch that supports a loaded protocol has its device in the table. */
  ghost predicate AllLinked(ptype: int, mods: seq<Module>, table: seq<Device?>) {
    forall i, k ::
      (0 <= i < |mods| && 0 <= k < |mods| && mods[i].ModSwitch? && mods[i].sw.supports ==
        ptype && ProtocolIs(mods[k], ptype))
      ==> mods[i].sw.device in table
  }

  lemma BootLinksAll(ptype: int, mods: seq<Module>)
    ensures AllLinked(ptype, mods, BootTable(ptype, mods))
  {
    forall i, k | 0 <= i < |mods| && 0 <= k < |mods|
      && mods[i].ModSwitch? && mods[i].sw.supports == ptype && ProtocolIs(mods[k], ptype)
      ensures mods[i].sw.device in BootTable(ptype, mods)
    {
      assert SwitchHas(mods[i], ptype, mods[i].sw.device);
      BootMembers(ptype, mods, mods[i].sw.device);
    }
  }

  /** What a list of modules brings: devices that answer to a protocol, and protocols of this type. */
  function Brings(ptype: int, mods: seq<Module>): (multiset<Device?>, nat) {
    (multiset(Supporting(ptype, SwitchesOf(mods))), CountType(ptype, ProtocolsOf(mods)))
  }

  lemma BringsAppend(ptype: int, a: seq<Module>, b: seq<Module>)
    ensures Brings(ptype, a + b).0 == Brings(ptype, a).0 + Brings(ptype, b).0
    ensures Brings(ptype, a + b).1 == Brings(ptype, a).1 + Brings(ptype, b).1
  {
    hide SwitchesOf, ProtocolsOf, Supporting, CountType;
    SwitchesAppend(a, b);
    SupportingAppend(ptype, SwitchesOf(a), SwitchesOf(b));
    CountAppend(ptype, ProtocolsOf(a), ProtocolsOf(b));
  }

  lemma BringsMoved(ptype: int, left: seq<Module>, x: Module, right: seq<Module>)
    ensures Brings(ptype, left + ([x] + right)) == Brings(ptype, left + right + [x])
  {
    hide Brings;
    BringsAppend(ptype, left, [x] + right);
    BringsAppend(ptype, [x], right);
    BringsAppend(ptype, left + right, [x]);
    BringsAppend(ptype, left, right);
    var p, q := Brings(ptype, left + ([x] + right)), Brings(ptype, left + right + [x]);
    assert p.0 == q.0 && p.1 == q.1;
  }

  lemma MiddleOut<T>(left: seq<T>, x: T, right: seq<T>)
    ensures multiset(left + ([x] + right)) == multiset(left + right) + multiset{x}
  {
    assert multiset([x] + right) == multiset{x} + multiset(right);
  }

  lemma SameWithout<T>(p: multiset<T>, q: multiset<T>, x: T)
    requires p + multiset{x} == q + multiset{x}
    ensures p == q
  {
    assert p == p + multiset{x} - multiset{x};
    assert q == q + multiset{x} - multiset{x};
  }

  lemma SplitAt<T>(b: seq<T>, x: T) returns (left: seq<T>, right: seq<T>)
    requires x in b
    ensures b == left + ([x] + right)
  {
    var j :| 0 <= j < |b| && b[j] == x;
    left, right := b[..j], b[j + 1..];
  }

  lemma {:induction false} PermutedBring(ptype: int, a: seq<Module>, b: seq<Module>)
    requires multiset(a) == multiset(b)
    ensures Brings(ptype, a) == Brings(ptype, b)
    decreases |a|
  {
    hide Brings;
    if a == [] {
      assert |multiset(b)| == |b|;
      assert b == [];
    } else {
      var front, x := a[..|a| - 1], a[|a| - 1];
      assert a == front + [x];
      assert multiset(a) == multiset(front) + multiset{x};
      assert x in multiset(a);
      var left, right := SplitAt(b, x);
      MiddleOut(left, x, right);
      SameWithout(multiset(front), multiset(left + right), x);
      PermutedBring(ptype, front, left + right);
      BringsMoved(ptype, left, x, right);
      SameFront(ptype, front, left + right, x);
    }
  }

  lemma SameFront(ptype: int, a: seq<Module>, b: seq<Module>, x: Module)
    requires Brings(ptype, a) == Brings(ptype, b)
    ensures Brings(ptype, a + [x]) == Brings(ptype, b + [x])
  {
    hide Brings;
    BringsAppend(ptype, a, [x]);
    BringsAppend(ptype, b, [x]);
    var p, q := Brings(ptype, a + [x]), Brings(ptype, b + [x]);
    assert p.0 == q.0 && p.1 == q.1;
  }

  lemma {:induction false} RepeatPermuted<T>(xs: seq<T>, ys: seq<T>, n: nat)
    requires multiset(xs) == multiset(ys)
    ensures multiset(Repeat(xs, n)) == multiset(Repeat(ys, n))
  {
    if n > 0 {
      RepeatPermuted(xs, ys, n - 1);
    }
  }

  /** Loading the same modules in any other order gives a table with the same devices, each as often;
      only their numbers change. */
  lemma PermutedBoot(ptype: int, a: seq<Module>, b: seq<Module>)
    requires multiset(a) == multiset(b)
    ensures multiset(BootTable(ptype, a)) == multiset(BootTable(ptype, b))
  {
    PermutedBring(ptype, a, b);
    RepeatPermuted(Supporting(ptype, SwitchesOf(a)), Supporting(ptype, SwitchesOf(b)), CountType(ptype,
      ProtocolsOf(a)));
  }

  // ----- Prefixes, for the loops

  lemma ModulesPrefix(mods: seq<Module>, k: nat)
    requires k <= |mods|
    ensures |SwitchesOf(mods[..k])| <= |SwitchesOf(mods)| && |ProtocolsOf(mods[..k])| <= |ProtocolsOf(mods)|
  {
    assert mods == mods[..k] + mods[k..];
    SwitchesAppend(mods[..k], mods[k..]);
  }

  lemma {:induction false} SupportingPrefix(ptype: int, sws: seq<Switch?>, k: nat)
    requires k <= |sws|
    ensures Supporting(ptype, sws[..k]) <= Supporting(ptype, sws)
    ensures k < |sws| && sws[k] != null && sws[k].supports == ptype ==>
              |Supporting(ptype, sws[..k])| < |Supporting(ptype, sws)|
    decreases |sws|
  {
    if k < |sws| {
      var front := sws[..|sws| - 1];
      SupportingPrefix(ptype, front, k);
      assert front[..k] == sws[..k];
    } else {
      assert sws[..k] == sws;
    }
  }

  lemma NothingLinkedYet(table: Registrar, p: Protocol, sws: seq<Switch?>)
    ensures LinkedOnce(table, Some(p), sws[..0]) == [] && sws[..|sws|] == sws
  {
  }

  /** One round of the inner loop adds the device of a supporting switch, and there is room for it. */
  lemma LinkedOnceStep(table: Registrar, p: Protocol, sws: seq<Switch?>, k: nat)
    requires k < |sws| && sws[k] != null
    ensures var adds := sws[k].supports == p.ptype && p.register == table;
            && LinkedOnce(table, Some(p), sws[..k + 1]) ==
               LinkedOnce(table, Some(p), sws[..k]) + (if adds then [sws[k].device] else [])
            && (adds ==> |LinkedOnce(table, Some(p), sws[..k])| < |LinkedOnce(table, Some(p), sws)|)
  {
    SupportingPrefix(p.ptype, sws, k);
    assert sws[..k + 1][..k] == sws[..k];
  }

  lemma {:induction false} LinkedPrefix(table: Registrar, protos: seq<Option<Protocol>>, sws: seq<Switch?>, k: nat)
    requires k <= |protos|
    ensures Linked(table, protos[..k], sws) <= Linked(table, protos, sws)
    decreases |protos|
  {
    if k < |protos| {
      var front := protos[..|protos| - 1];
      LinkedPrefix(table, front, sws, k);
      assert front[..k] == protos[..k];
    } else {
      assert protos[..k] == protos;
    }
  }

  class Main {
    const switches: array<Switch?>
    var switchCnt: nat
    const protocols: array<Option<Protocol>>
    var protoCnt: nat
    const flow: FlowModule
    const bridge: BridgeModule

    ghost predicate Valid()
      reads this, switches, protocols, flow, bridge
    {
      && switches.Length == MAX_OBJECTS && switchCnt <= MAX_OBJECTS
      && protocols.Length == MAX_OBJECTS && protoCnt <= MAX_OBJECTS
      && (forall i :: 0 <= i < switchCnt ==> switches[i] != null)
      && (forall i :: 0 <= i < protoCnt ==> protocols[i].Some?)
      && flow.Valid() && bridge.Valid() && flow.flwDevs != bridge.brDevs
    }

    ghost function Switches(): seq<Switch?>
      requires Valid()
      reads this, switches, protocols, flow, bridge
    {
      switches[..switchCnt]
    }

    ghost function Protocols(): seq<Option<Protocol>>
      requires Valid()
      reads this, switches, protocols, flow, bridge
    {
      protocols[..protoCnt]
    }

    constructor (flow: FlowModule, bridge: BridgeModule)
      requires flow.Valid() && bridge.Valid() && flow.flwDevs != bridge.brDevs
      ensures Valid() && fresh(switches) && fresh(protocols)
      ensures this.flow == flow && this.bridge == bridge && Switches() == [] && Protocols() == []
    {
      switches := new Switch?[MAX_OBJECTS](_ => null);
      protocols := new Option<Protocol>[MAX_OBJECTS](_ => None);
      switchCnt, protoCnt := 0, 0;
      this.flow, this.bridge := flow, bridge;
    }

    method RegisterSw(sw: Switch)
      requires Valid() && switchCnt < MAX_OBJECTS
      modifies this`switchCnt, switches
      ensures Valid() && Switches() == old(Switches()) + [sw] && Protocols() == old(Protocols())
    {
      switches[switchCnt] := sw;
      switchCnt := switchCnt + 1;
    }

    method RegisterProto(p: Protocol)
      requires Valid() && protoCnt < MAX_OBJECTS
      modifies this`protoCnt, protocols
      ensures Valid() && Protocols() == old(Protocols()) + [Some(p)] && Switches() == old(Switches())
    {
      protocols[protoCnt] := Some(p);
      protoCnt := protoCnt + 1;
    }

    method RegisterMod(m: Module)
      requires Valid()
      requires m.ModSwitch? ==> switchCnt < MAX_OBJECTS
      requires m.ModProtocol? ==> protoCnt < MAX_OBJECTS
      modifies this`switchCnt, this`protoCnt, switches, protocols
      ensures Valid()
      ensures Switches() == old(Switches()) + if m.ModSwitch? then [m.sw] else []
      ensures Protocols() == old(Protocols()) + if m.ModProtocol? then [Some(m.proto)] else []
    {
      match m
      case ModProtocol(p) => RegisterProto(p);
      case ModSwitch(s) => RegisterSw(s);
      case ModOther =>
    }

    /** The init functions of all libraries, and app_init. */
    method RegisterAll(mods: seq<Module>)
      requires Valid() && Switches() == [] && Protocols() == []
      requires |SwitchesOf(mods)| <= MAX_OBJECTS && |ProtocolsOf(mods)| < MAX_OBJECTS
      modifies this`switchCnt, this`protoCnt, switches, protocols
      ensures Valid() && Switches() == SwitchesOf(mods)
      ensures Protocols() == ProtocolsOf(mods) + [Some(APP_MAIN)]
      ensures LinkedDevices() <= DevicesOf(mods)
    {
      for k := 0 to |mods|
        invariant Valid()
        invariant Switches() == SwitchesOf(mods[..k]) && Protocols() == ProtocolsOf(mods[..k])
      {
        assert mods[..k + 1][..k] == mods[..k];
        ModulesPrefix(mods, k + 1);
        RegisterMod(mods[k]);
      }
      assert mods[..|mods|] == mods;
      RegisterProto(APP_MAIN);
      SwitchesAreModules(mods);
      forall i | 0 <= i < switchCnt ensures switches[i].device in DevicesOf(mods) {
        assert DeviceIn(Switches()[i], DevicesOf(mods));
      }
    }

    /** A registration callback: register_dev of the protocol module, or of the main program. */
    method CallRegistrar(register: Registrar, dev: Device)
      requires Valid()
      requires register == FlowTable ==> flow.flwDevCnt < MAX_OBJECTS
      requires register == BridgeTable ==> bridge.brDevCnt < MAX_OBJECTS
      modifies flow`flwDevCnt, flow.flwDevs, bridge`brDevCnt, bridge.brDevs
      ensures Valid()
      ensures flow.Table() == old(flow.Table()) + if register == FlowTable then [dev] else []
      ensures bridge.Table() == old(bridge.Table()) + if register == BridgeTable then [dev] else []
    {
      match register
      case FlowTable => flow.RegisterDev(dev);
      case BridgeTable => bridge.RegisterDev(dev);
      case NoTable =>
    }

    /** proto_reg_func of a switch: set the handle, and register the device if the switch supports
        the protocol. */
    method ProtoRegister(s: Switch, p: Protocol)
      requires Valid()
      requires s.supports == p.ptype && p.register == FlowTable ==> flow.flwDevCnt < MAX_OBJECTS
      requires s.supports == p.ptype && p.register == BridgeTable ==> bridge.brDevCnt < MAX_OBJECTS
      modifies s.device`devHdl, flow`flwDevCnt, flow.flwDevs, bridge`brDevCnt, bridge.brDevs
      ensures Valid() && s.device.devHdl == s
      ensures flow.Table() == old(flow.Table()) + (
                if s.supports == p.ptype && p.register == FlowTable then [s.device] else [])
      ensures bridge.Table() == old(bridge.Table()) + (
                if s.supports == p.ptype && p.register == BridgeTable then [s.device] else [])
    {
      s.device.devHdl := s;
      if p.ptype == s.supports {
        CallRegistrar(p.register, s.device);
      }
    }

    /** The devices whose handles linking sets. */
    ghost function LinkedDevices(): set<Device>
      requires Valid()
      reads this, switches, protocols, flow, bridge
    {
      set i | 0 <= i < switchCnt :: switches[i].device
    }

    /** Every switch that does not share its device record finds itself in dev_hdl. */
    ghost predicate HandlesSet()
      requires Valid()
      reads this, switches, protocols, flow, bridge, LinkedDevices()
    {
      forall i :: 0 <= i < switchCnt && Unshared(i) ==> Handled(i)
    }

    ghost predicate Handled(i: nat)
      requires Valid() && i < switchCnt
      reads this, switches, protocols, flow, bridge, LinkedDevices()
    {
      switches[i].device in LinkedDevices() && switches[i].device.devHdl == switches[i]
    }

    /** The device record of this switch belongs to no other registered switch. */
    ghost predicate Unshared(i: nat)
      requires Valid() && i < switchCnt
      reads this, switches, protocols, flow, bridge
    {
      forall j :: 0 <= j < switchCnt && j != i ==> switches[j].device != switches[i].device
    }

    /** The inner linking loop: one protocol, all switches. */
    method LinkProtocol(p: Protocol)
      requires Valid()
      requires |flow.Table()| + |LinkedOnce(FlowTable, Some(p), Switches())| <= MAX_OBJECTS
      requires |bridge.Table()| + |LinkedOnce(BridgeTable, Some(p), Switches())| <= MAX_OBJECTS
      modifies LinkedDevices()`devHdl, flow`flwDevCnt, flow.flwDevs, bridge`brDevCnt, bridge.brDevs
      ensures Valid()
      ensures flow.Table() == old(flow.Table()) + LinkedOnce(FlowTable, Some(p), Switches())
      ensures bridge.Table() == old(bridge.Table()) + LinkedOnce(BridgeTable, Some(p), Switches())
      ensures HandlesSet()
    {
      hide LinkedOnce;
      ghost var sws := Switches();
      NothingLinkedYet(FlowTable, p, sws);
      NothingLinkedYet(BridgeTable, p, sws);
      for k := 0 to switchCnt
        invariant Valid()
        invariant flow.Table() == old(flow.Table()) + LinkedOnce(FlowTable, Some(p), sws[..k])
        invariant bridge.Table() == old(bridge.Table()) + LinkedOnce(BridgeTable, Some(p), sws[..k])
        invariant forall i :: 0 <= i < k && Unshared(i) ==> switches[i].device.devHdl == switches[i]
      {
        LinkedOnceStep(FlowTable, p, sws, k);
        LinkedOnceStep(BridgeTable, p, sws, k);
        assert switches[k].device in LinkedDevices();
        ProtoRegister(switches[k], p);
      }
      assert sws[..switchCnt] == sws;
    }

    /** The nested linking loops. */
    method Link()
      requires Valid() && flow.Table() == [] && bridge.Table() == []
      requires |Linked(FlowTable, Protocols(), Switches())| <= MAX_OBJECTS
      requires |Linked(BridgeTable, Protocols(), Switches())| <= MAX_OBJECTS
      modifies LinkedDevices()`devHdl, flow`flwDevCnt, flow.flwDevs, bridge`brDevCnt, bridge.brDevs
      ensures Valid()
      ensures flow.Table() == Linked(FlowTable, Protocols(), Switches())
      ensures bridge.Table() == Linked(BridgeTable, Protocols(), Switches())
      ensures protoCnt > 0 ==> HandlesSet()
    {
      hide LinkedOnce, HandlesSet;
      ghost var protos, sws := Protocols(), Switches();
      for k := 0 to protoCnt
        invariant Valid()
        invariant flow.Table() == Linked(FlowTable, protos[..k], sws)
        invariant bridge.Table() == Linked(BridgeTable, protos[..k], sws)
        invariant k > 0 ==> HandlesSet()
      {
        LinkedPrefix(FlowTable, protos, sws, k + 1);
        LinkedPrefix(BridgeTable, protos, sws, k + 1);
        assert protos[..k + 1][..k] == protos[..k];
        if protocols[k].Some? {
          LinkProtocol(protocols[k].value);
        }
      }
      assert protos[..protoCnt] == protos;
    }

    /** app_msg_qry_sw: the buffer holds a switch number, or MAX_OBJECTS for all switches, and is
        overwritten with switch types. */
    method AppMsgQrySw(buf: array<int>) returns (size: int)
      requires Valid() && buf.Length > 0
      requires if buf[0] == 256 then switchCnt <= buf.Length else 0 <= buf[0] < switchCnt
      modifies buf
      ensures if old(buf[0]) == 256
              then && size == 4 * switchCnt
                   && (forall i :: 0 <= i < switchCnt ==> buf[i] == switches[i].swType)
                   && (forall i :: switchCnt <= i < buf.Length ==> buf[i] == old(buf[i]))
              else && size == 4 && buf[0] == switches[old(buf[0])].swType
                   && (forall i :: 1 <= i < buf.Length ==> buf[i] == old(buf[i]))
    {
      if buf[0] == MAX_OBJECTS {
        for loop := 0 to switchCnt
          invariant forall i :: 0 <= i < loop ==> buf[i] == switches[i].swType
          invariant forall i :: loop <= i < buf.Length ==> buf[i] == old(buf[i])
        {
          buf[loop] := switches[loop].swType;
        }
        size := switchCnt * 4;
      } else {
        buf[0] := switches[buf[0]].swType;
        size := 4;
      }
    }
  }

  /** Start the main program on libraries loaded in any order: register them, then the main
      program's own protocol, then link. */
  method Boot(mods: seq<Module>, flow: FlowModule, bridge: BridgeModule) returns (m: Main)
    requires flow.Valid() && bridge.Valid() && flow.flwDevs != bridge.brDevs
    requires flow.Table() == [] && bridge.Table() == []
    requires |SwitchesOf(mods)| <= MAX_OBJECTS && |ProtocolsOf(mods)| < MAX_OBJECTS
    requires Paired(FlowTable, PROTOCOL_FLOW, ProtocolsOf(mods))
    requires Paired(BridgeTable, PROTOCOL_BRIDGE, ProtocolsOf(mods))
    requires |BootTable(PROTOCOL_FLOW, mods)| <= MAX_OBJECTS && |BootTable(PROTOCOL_BRIDGE, mods)| <= MAX_OBJECTS
    modifies DevicesOf(mods), flow`flwDevCnt, flow.flwDevs, bridge`brDevCnt, bridge.brDevs
    ensures m.Valid() && m.flow == flow && m.bridge == bridge
    ensures flow.Table() == BootTable(PROTOCOL_FLOW, mods)
    ensures bridge.Table() == BootTable(PROTOCOL_BRIDGE, mods)
    ensures m.Switches() == SwitchesOf(mods) && m.HandlesSet()
    ensures AllLinked(PROTOCOL_FLOW, mods, flow.Table()) && AllLinked(PROTOCOL_BRIDGE, mods, bridge.Table())
  {
    m := new Main(flow, bridge);
    m.RegisterAll(mods);
    AppLinksNothing(FlowTable, PROTOCOL_FLOW, ProtocolsOf(mods), m.Switches());
    AppLinksNothing(BridgeTable, PROTOCOL_BRIDGE, ProtocolsOf(mods), m.Switches());
    m.Link();
    BootLinksAll(PROTOCOL_FLOW, mods);
    BootLinksAll(PROTOCOL_BRIDGE, mods);
  }

  /** The supporting devices in registration order, once per protocol of the type. */
  function BootTable(ptype: int, mods: seq<Module>): seq<Device?> {
    Repeat(Supporting(ptype, SwitchesOf(mods)), CountType(ptype, ProtocolsOf(mods)))
  }

  lemma AppLinksNothing(table: Registrar, ptype: int, protos: seq<Option<Protocol>>, sws: seq<Switch?>)
    requires Paired(table, ptype, protos) && table != NoTable
    ensures Linked(table, protos + [Some(APP_MAIN)], sws) == Repeat(Supporting(ptype, sws), CountType(ptype, protos))
  {
    assert (protos + [Some(APP_MAIN)])[..|protos|] == protos;
    LinkedIsRepeat(table, ptype, protos, sws);
  }

  function DevicesOf(mods: seq<Module>): set<Device> {
    set i | 0 <= i < |mods| && mods[i].ModSwitch? :: mods[i].sw.device
  }

  predicate DeviceIn(s: Switch?, devices: set<Device>) {
    s != null && s.device in devices
  }

  lemma {:induction false} SwitchesAreModules(mods: seq<Module>)
    ensures forall i :: 0 <= i < |SwitchesOf(mods)| ==> DeviceIn(SwitchesOf(mods)[i], DevicesOf(mods))
  {
    if mods != [] {
      var front := mods[..|mods| - 1];
      SwitchesAreModules(front);
      assert forall i :: 0 <= i < |front| ==> mods[i] == front[i];
      assert DevicesOf(front) <= DevicesOf(mods);
      assert mods[|mods| - 1].ModSwitch? ==> mods[|mods| - 1].sw.device in DevicesOf(mods);
    }
  }
}
