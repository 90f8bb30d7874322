/** The printer dump_flow, and what its output tells about a flow. */
module FlowDump {
  import opened CStrings
  import opened Numerals
  import opened FlowTypes

  const TUPLE_NAMES: seq<string> := [
    "in_port", "in_phy_port", "dl_src", "dl_dst", "dl_type", "dl_vlan_pcp",
    "nw4_src", "nw4_dst", "nw6_src", "nw6_dst", "nw_proto", "nw_ecn", "nw_tos",
    "tp_src", "tp_dst", "udp_src", "udp_dst", "ipv6_label", "mpls_label", "ipv6ext_hder",
    "icmp4_code", "icmp6_code", "icmp6_tll", "icmp6_sll", "ip6_nd_target",
    "arp_op", "arp_spa", "arp_sha", "arp_tpa", "arp_tha"]

  /** Not the names of enum flow_action: number 2, out_port, prints as "enqueue_queue". */
  const ACTION_NAMES: seq<string> := [
    "out_port", "enqueue_port", "enqueue_queue", "NORMAL", "FLOOD", "ALL", "CONTROLLER", "DROP",
    "push_vlan", "set_field", "push_mpls", "pop_mpls", "push_pbb", "pop_pbb",
    "Mod_vlan_vid", "Mod_vlan_pcp", "Strip_vlan", "Mod_dl_src", "Mod_dl_dst",
    "Mod_nw_src", "Mod_nw_dst", "Mod_tp_src", "Mod_tp_dst", "Mod_nw_tos",
    "resubmit", "Set_queue", "Set_mpls"]

  /** How many leading bytes of a value the dump shows. */
  function Width(id: TupleId): (w: nat)
    ensures w <= 6
  {
    if id in {IN_PORT, IN_PHY_PORT, TP_SRC, TP_DST, DL_VLAN_PCP, NW_PROTO, NW_TOS, NW_ECN, DL_TYPE} then 2
    else if id in {DL_SRC, DL_DST} then 6
    else if id in {NW4_SRC, NW4_DST} then 4
    else 0
  }

  /** All the bytes that the dump shows are known. */
  predicate Determined(f: Stored<TupleId>) {
    |f.bytes| >= Width(f.id)
  }

  function TupleValue(f: Stored<TupleId>): string
    requires Determined(f)
  {
    if Width(f.id) == 6 then MacText(f.bytes[..6]) + " " + "\n"
    else if Width(f.id) == 4 then QuadText(f.bytes[..4]) + "\n"
    else if Width(f.id) == 0 then "0"
    else Numeral(if f.id == DL_TYPE then 16 else 10, UShort(f.bytes)) + "\n"
  }

  /** A tuple line; ids that the printer does not know get no newline. */
  function TupleLine(f: Stored<TupleId>): string
    requires Determined(f)
  {
    "TUPLE ID=" + Dec(f.id) + " " + (": " + TUPLE_NAMES[f.id] + "  " + TupleValue(f))
  }

  /** The action names cover the id, and the byte that the dump shows is known. */
  predicate Nameable(a: Stored<ActionId>) {
    a.id < |ACTION_NAMES| && |a.bytes| >= 1
  }

  function ActionLine(a: Stored<ActionId>): string
    requires Nameable(a)
  {
    "ACTION  ID=" + Dec(a.id) + " " + (": " + ACTION_NAMES[a.id] + " " + (Dec(a.bytes[0]) + "\n"))
  }

  function TupleLines(fs: seq<Stored<TupleId>>): string
    requires forall i :: 0 <= i < |fs| ==> Determined(fs[i])
  {
    if fs == [] then "" else TupleLine(fs[0]) + TupleLines(fs[1..])
  }

  function ActionLines(xs: seq<Stored<ActionId>>): string
    requires forall i :: 0 <= i < |xs| ==> Nameable(xs[i])
  {
    if xs == [] then "" else ActionLine(xs[0]) + ActionLines(xs[1..])
  }

  function Header(dev: int, tbl: int): string {
    "in dump FUNCTION\n" + ("device_id=" + DecSigned(dev) + "\n") + ("flow_table=" + DecSigned(tbl) + "\n")
  }

  function Footer(tbl: int): string {
    if tbl != 0 then "flow table not NULL\n" else ""
  }

  function DumpText(dev: int, tbl: int, fs: seq<Stored<TupleId>>, xs: seq<Stored<ActionId>>): string
    requires forall i :: 0 <= i < |fs| ==> Determined(fs[i])
    requires forall i :: 0 <= i < |xs| ==> Nameable(xs[i])
  {
    Header(dev, tbl) + TupleLines(fs) + ActionLines(xs) + Footer(tbl)
  }

  /** A line with its spaces and colon put together. */
  lemma NamedLine(p: string, n: string, name: string, gap: string, v: string)
    ensures p + n + " " + (": " + name + gap + v) == p + n + " : " + name + gap + v
  {
    assert " " + ": " == " : ";
    assert p + n + " " + (": " + name + gap + v) == p + n + (" " + ": ") + name + gap + v;
  }

  // ----- Reading the header back

  /** The text starts with the banner, then names this device and this table, each on a line. */
  predicate ReadsHeader(text: string, dev: int, tbl: int) {
    var first, second := "in dump FUNCTION\ndevice_id=", "\nflow_table=";
    && first <= text && Atoi(text[|first|..]) == dev
    && var rest := text[|first|..];
       var line := rest[IndexOf(rest, '\n')..];
       second <= line && Atoi(line[|second|..]) == tbl
  }

  /** A printed number at the end of a line: its value, and where the line ends. */
  lemma NumberLine(n: int, more: string)
    ensures Atoi(DecSigned(n) + ("\n" + more)) == n
    ensures IndexOf(DecSigned(n) + ("\n" + more), '\n') == |DecSigned(n)|
  {
    AtoiOfDec(n, "\n" + more);
    DecSignedIsPlain(n);
    IndexOfCut('\n', DecSigned(n), more);
    hide DecSigned, Atoi, IndexOf;
    assert DecSigned(n) + ("\n" + more) == DecSigned(n) + "\n" + more;
  }

  lemma TwoNumbers(text: string, first: string, d: string, second: string, t: string, tail: string, dev: int, tbl: int)
    requires first == "in dump FUNCTION\ndevice_id=" && second == "\nflow_table="
    requires text == first + (d + (second + (t + ("\n" + tail))))
    requires IndexOf(d + (second + (t + ("\n" + tail))), '\n') == |d|
    requires Atoi(d + (second + (t + ("\n" + tail)))) == dev && Atoi(t + ("\n" + tail)) == tbl
    ensures ReadsHeader(text, dev, tbl)
  {
    hide Atoi, IndexOf;
    var rest := d + (second + (t + ("\n" + tail)));
    assert text[|first|..] == rest;
    assert rest[|d|..] == second + (t + ("\n" + tail));
    assert rest[|d|..][|second|..] == t + ("\n" + tail);
  }

  lemma HeaderParts(d: string, t: string, tail: string)
    ensures "in dump FUNCTION\n" + ("device_id=" + d + "\n") + ("flow_table=" + t + "\n") + tail ==
            "in dump FUNCTION\ndevice_id=" + (d + ("\nflow_table=" + (t + ("\n" + tail))))
    ensures "\nflow_table=" + (t + ("\n" + tail)) == "\n" + ("flow_table=" + (t + ("\n" + tail)))
  {
  }

  lemma HeaderReads(dev: int, tbl: int, tail: string)
    ensures ReadsHeader(Header(dev, tbl) + tail, dev, tbl)
  {
    hide DecSigned, Atoi, IndexOf, ReadsHeader;
    var d, t := DecSigned(dev), DecSigned(tbl);
    NumberLine(dev, "flow_table=" + (t + ("\n" + tail)));
    NumberLine(tbl, tail);
    HeaderParts(d, t, tail);
    TwoNumbers(Header(dev, tbl) + tail, "in dump FUNCTION\ndevice_id=", d, "\nflow_table=", t, tail, dev, tbl);
  }

  // ----- The printer

  /** struct flow: pointers into the arrays of its builder. */
  datatype Flow = Flow(tuples: array<Tuple>, actions: array<Action>, numTuples: nat, numActions: nat)

  function AllOf(t: Tuple): Stored<TupleId> {
    Stored(t.id, t.value)
  }

  function AllOfAction(a: Action): Stored<ActionId> {
    Stored(a.id, a.value)
  }

  function AllTuples(ts: seq<Tuple>): seq<Stored<TupleId>> {
    seq(|ts|, i requires 0 <= i < |ts| => AllOf(ts[i]))
  }

  function AllActions(xs: seq<Action>): seq<Stored<ActionId>> {
    seq(|xs|, i requires 0 <= i < |xs| => AllOfAction(xs[i]))
  }

  lemma SixOctets(v: Block)
    ensures MacText(v[..6]) ==
            Hex(v[0]) + [':'] + (Hex(v[1]) + [':'] + (Hex(v[2]) + [':'] +
            (Hex(v[3]) + [':'] + (Hex(v[4]) + [':'] + Hex(v[5])))))
  {
    var b := v[..6];
    assert b[1..][1..] == b[2..] && b[2..][1..] == b[3..] && b[3..][1..] == b[4..] && b[4..][1..] == b[5..];
    assert MacText(b[5..]) == Hex(v[5]);
    assert MacText(b[4..]) == Hex(v[4]) + [':'] + MacText(b[5..]);
    assert MacText(b[3..]) == Hex(v[3]) + [':'] + MacText(b[4..]);
    assert MacText(b[2..]) == Hex(v[2]) + [':'] + MacText(b[3..]);
    assert MacText(b[1..]) == Hex(v[1]) + [':'] + MacText(b[2..]);
  }

  lemma FourOctets(v: Block)
    ensures QuadText(v[..4]) == Dec(v[0]) + ['.'] + (Dec(v[1]) + ['.'] + (Dec(v[2]) + ['.'] + Dec(v[3])))
  {
    var b := v[..4];
    assert b[1..][1..] == b[2..] && b[2..][1..] == b[3..];
    assert QuadText(b[3..]) == Dec(v[3]);
    assert QuadText(b[2..]) == Dec(v[2]) + ['.'] + QuadText(b[3..]);
    assert QuadText(b[1..]) == Dec(v[1]) + ['.'] + QuadText(b[2..]);
  }

  /** The switch over the id of one tuple. */
  method PrintValue(id: TupleId, v: Block) returns (out: string)
    ensures out == TupleValue(Stored(id, v))
  {
    if id in {IN_PORT, IN_PHY_PORT, TP_SRC, TP_DST, DL_VLAN_PCP, NW_PROTO, NW_TOS, NW_ECN} {
      out := Dec(UShort(v)) + "\n";
    } else if id == DL_TYPE {
      out := Hex(UShort(v)) + "\n";
    } else if id == DL_SRC || id == DL_DST {
      SixOctets(v);
      out := Hex(v[0]) + [':'] + (Hex(v[1]) + [':'] + (Hex(v[2]) + [':'] +
             (Hex(v[3]) + [':'] + (Hex(v[4]) + [':'] + Hex(v[5]))))) + " " + "\n";
    } else if id == NW4_SRC || id == NW4_DST {
      FourOctets(v);
      out := Dec(v[0]) + ['.'] + (Dec(v[1]) + ['.'] + (Dec(v[2]) + ['.'] + Dec(v[3]))) + "\n";
    } else {
      out := "0";
    }
  }

  method PrintTuple(t: Tuple) returns (line: string)
    ensures line == TupleLine(AllOf(t))
  {
    var value := PrintValue(t.id, t.value);
    line := "TUPLE ID=" + Dec(t.id) + " " + (": " + TUPLE_NAMES[t.id] + "  " + value);
  }

  method PrintTuples(f: Flow) returns (out: string)
    requires f.numTuples <= f.tuples.Length
    ensures out == TupleLines(AllTuples(f.tuples[..f.numTuples]))
  {
    hide TupleLine, Width;
    out := "";
    ghost var ts := AllTuples(f.tuples[..f.numTuples]);
    for i := 0 to f.numTuples
      invariant out + TupleLines(ts[i..]) == TupleLines(ts)
    {
      var line := PrintTuple(f.tuples[i]);
      assert ts[i..][0] == AllOf(f.tuples[i]) && ts[i..][1..] == ts[i + 1..];
      Associative(out, line, TupleLines(ts[i + 1..]));
      out := out + line;
    }
  }

  method PrintAction(a: Action) returns (line: string)
    requires a.id < |ACTION_NAMES|
    ensures line == ActionLine(AllOfAction(a))
  {
    line := "ACTION  ID=" + Dec(a.id) + " " + (": " + ACTION_NAMES[a.id] + " " + (Dec(a.value[0]) + "\n"));
  }

  method PrintActions(f: Flow) returns (out: string)
    requires f.numActions <= f.actions.Length
    requires forall i :: 0 <= i < f.numActions ==> f.actions[i].id < |ACTION_NAMES|
    ensures out == ActionLines(AllActions(f.actions[..f.numActions]))
  {
    hide ActionLine;
    out := "";
    ghost var xs := AllActions(f.actions[..f.numActions]);
    for i := 0 to f.numActions
      invariant out + ActionLines(xs[i..]) == ActionLines(xs)
    {
      var a := f.actions[i];
      var line := PrintAction(a);
      assert xs[i..][0] == AllOfAction(a) && xs[i..][1..] == xs[i + 1..];
      Associative(out, line, ActionLines(xs[i + 1..]));
      out := out + line;
    }
  }

  function DumpOfRecords(dev: int, tbl: int, ts: seq<Tuple>, ds: seq<Action>): string
    requires forall i :: 0 <= i < |ds| ==> ds[i].id < |ACTION_NAMES|
  {
    DumpText(dev, tbl, AllTuples(ts), AllActions(ds))
  }

  lemma Rejoin(a: string, b: string, c: string, d: string)
    ensures a + b + c + d == a + (b + c + d)
  {
  }

  /** dump_flow: the text printed and the value returned. */
  method DumpFlow(devId: int, flowTable: int, flow: Option<Flow>) returns (out: string, r: int)
    requires flow.Some? ==>
      && flow.value.numTuples <= flow.value.tuples.Length && flow.value.numActions <= flow.value.actions.Length
      && forall i :: 0 <= i < flow.value.numActions ==> flow.value.actions[i].id < |ACTION_NAMES|
    ensures ReadsHeader(out, devId, flowTable)
    ensures match flow
            case None => r == 0 && out == Header(devId, flowTable) + "Null FLow passed\n"
            case Some(f) =>
              && r == 1
              && out == DumpOfRecords(devId, flowTable, f.tuples[..f.numTuples], f.actions[..f.numActions])
  {
    hide ReadsHeader, DecSigned, TupleLines, ActionLines;
    out := "in dump FUNCTION\n" + ("device_id=" + DecSigned(devId) + "\n")
           + ("flow_table=" + DecSigned(flowTable) + "\n");
    if flow.None? {
      HeaderReads(devId, flowTable, "Null FLow passed\n");
      return out + "Null FLow passed\n", 0;
    }
    var tuples := PrintTuples(flow.value);
    var actions := PrintActions(flow.value);
    HeaderReads(devId, flowTable, tuples + actions + Footer(flowTable));
    Rejoin(out, tuples, actions, Footer(flowTable));
    out := out + tuples + actions + if flowTable != 0 then "flow table not NULL\n" else "";
    r := 1;
  }

  // ----- The bytes that a command line determines decide the text

  lemma LineOfHolder(t: Tuple, f: Stored<TupleId>)
    requires TupleHolds(t, f) && Determined(f)
    ensures TupleLine(AllOf(t)) == TupleLine(f)
  {
    var n := Width(f.id);
    assert t.value[..n] == f.bytes[..n];
    assert n == 2 ==> t.value[0] == f.bytes[0] && t.value[1] == f.bytes[1];
  }

  lemma {:induction false} TupleLinesOfHolders(ts: seq<Tuple>, fs: seq<Stored<TupleId>>)
    requires TuplesHold(ts, fs) && forall i :: 0 <= i < |fs| ==> Determined(fs[i])
    ensures TupleLines(AllTuples(ts)) == TupleLines(fs)
    decreases |ts|
  {
    if ts != [] {
      assert TupleHolds(ts[0], fs[0]);
      LineOfHolder(ts[0], fs[0]);
      assert AllTuples(ts)[1..] == AllTuples(ts[1..]);
      assert forall i :: 0 <= i < |ts| - 1 ==>
               (TupleHolds(ts[1..][i], fs[1..][i]) <==> TupleHolds(ts[i + 1], fs[i + 1]));
      TupleLinesOfHolders(ts[1..], fs[1..]);
    }
  }

  lemma {:induction false} ActionLinesOfHolders(ds: seq<Action>, xs: seq<Stored<ActionId>>)
    requires ActionsHold(ds, xs) && forall i :: 0 <= i < |xs| ==> Nameable(xs[i])
    ensures forall i :: 0 <= i < |ds| ==> Nameable(AllActions(ds)[i])
    ensures ActionLines(AllActions(ds)) == ActionLines(xs)
    decreases |ds|
  {
    forall i | 0 <= i < |ds| ensures Nameable(AllActions(ds)[i]) {
      assert ActionHolds(ds[i], xs[i]);
    }
    if ds != [] {
      assert ActionHolds(ds[0], xs[0]);
      assert ds[0].value[0] == xs[0].bytes[0];
      assert AllActions(ds)[1..] == AllActions(ds[1..]);
      assert forall i :: 0 <= i < |ds| - 1 ==>
               (ActionHolds(ds[1..][i], xs[1..][i]) <==> ActionHolds(ds[i + 1], xs[i + 1]));
      ActionLinesOfHolders(ds[1..], xs[1..]);
    }
  }

  /** Whatever the undetermined bytes of the records are, the dump prints the determined text. */
  lemma DumpOfHolders(dev: int, tbl: int, ts: seq<Tuple>, fs: seq<Stored<TupleId>>,
                      ds: seq<Action>, xs: seq<Stored<ActionId>>)
    requires TuplesHold(ts, fs) && forall i :: 0 <= i < |fs| ==> Determined(fs[i])
    requires ActionsHold(ds, xs) && forall i :: 0 <= i < |xs| ==> Nameable(xs[i])
    ensures forall i :: 0 <= i < |ds| ==> ds[i].id < |ACTION_NAMES|
    ensures DumpOfRecords(dev, tbl, ts, ds) == DumpText(dev, tbl, fs, xs)
  {
    TupleLinesOfHolders(ts, fs);
    ActionLinesOfHolders(ds, xs);
    forall i | 0 <= i < |ds| ensures ds[i].id < |ACTION_NAMES| {
      assert Nameable(AllActions(ds)[i]);
    }
  }
}
