/** What a reader finds in the dump of an accepted line: every option on a line of its own, under the
    name of its tuple and with the value that was given. */
module DumpReading {
  import opened CStrings
  import opened Numerals
  import opened FlowTypes
  import opened FilterSpec
  import opened FilterLines
  import opened FilterWords
  import opened FlowDump
  import opened DumpUnique
  import opened RoundTrip
  import opened ParsedFlows
  import opened LineMeaning

  // ----- One tuple line, by the name of its tuple

  const NUMBERS: seq<string> := [
    "in_port", "in_phy_port", "tp_src", "tp_dst", "dl_vlan_pcp", "nw_proto", "nw_tos", "nw_ecn"]

  /** How many bytes the dump shows of a tuple of this name. */
  function BytesShown(name: string): nat {
    if name in NUMBERS || name == "dl_type" then 2
    else if name == "dl_src" || name == "dl_dst" then 6
    else if name == "nw4_src" || name == "nw4_dst" then 4
    else 0
  }

  /** The value column: a number or a hexadecimal number of two bytes, low byte first, an Ethernet
      address, an IPv4 address, and a zero for all other tuples. */
  function Column(name: string, b: seq<Byte>): string
    requires |b| >= BytesShown(name)
  {
    if name in NUMBERS then Dec(b[0] as int + 256 * b[1] as int)
    else if name == "dl_type" then Hex(b[0] as int + 256 * b[1] as int)
    else if name == "dl_src" || name == "dl_dst" then
      Hex(b[0]) + ":" + Hex(b[1]) + ":" + Hex(b[2]) + ":" + Hex(b[3]) + ":" + Hex(b[4]) + ":" + Hex(b[5]) + " "
    else if name == "nw4_src" || name == "nw4_dst" then Dec(b[0]) + "." + Dec(b[1]) + "." + Dec(b[2]) + "." + Dec(b[3])
    else "0"
  }

  /** The zero has no line end. */
  function LineEndOf(name: string): string {
    if BytesShown(name) > 0 then "\n" else ""
  }

  /** The name in the dump is the one of the enumeration, but for one spelling. */
  function PrintedName(id: TupleId): string {
    if FLOW_TUPLES[id] == "ipv6_ext_hdr" then "ipv6ext_hder" else FLOW_TUPLES[id]
  }

  lemma NamesPrinted(id: TupleId)
    ensures TUPLE_NAMES[id] == PrintedName(id)
  {
    if id == 19 {
      assert TUPLE_NAMES[id] == "ipv6ext_hder";
    }
  }

  predicate SameKind(id: TupleId) {
    && BytesShown(FLOW_TUPLES[id]) == Width(id)
    && (FLOW_TUPLES[id] in NUMBERS <==> Width(id) == 2 && id != DL_TYPE)
    && (FLOW_TUPLES[id] == "dl_type" <==> id == DL_TYPE)
    && (FLOW_TUPLES[id] == "dl_src" || FLOW_TUPLES[id] == "dl_dst" <==> Width(id) == 6)
    && (FLOW_TUPLES[id] == "nw4_src" || FLOW_TUPLES[id] == "nw4_dst" <==> Width(id) == 4)
  }

  lemma KindByName(id: TupleId)
    ensures SameKind(id)
  {
    if id < 15 {
      KindOfShown(id);
    } else {
      KindOfOther(id);
    }
  }

  lemma KindOfShown(id: TupleId)
    requires id < 15
    ensures SameKind(id)
  {
  }

  lemma KindOfOther(id: TupleId)
    requires id >= 15
    ensures SameKind(id)
  {
  }

  lemma ColumnIs(f: Stored<TupleId>)
    requires Determined(f)
    ensures var name := FLOW_TUPLES[f.id];
            |f.bytes| >= BytesShown(name) && TupleValue(f) == Column(name, f.bytes) + LineEndOf(name)
  {
    KindByName(f.id);
    var b := f.bytes;
    hide Numeral, MacText, QuadText, BytesShown;
    if Width(f.id) == 6 {
      assert b[..6] == [b[0], b[1], b[2], b[3], b[4], b[5]];
      MacIs(b[0], b[1], b[2], b[3], b[4], b[5]);
    } else if Width(f.id) == 4 {
      assert b[..4] == [b[0], b[1], b[2], b[3]];
      QuadIs(b[0], b[1], b[2], b[3]);
    }
  }

  /** Number, name and value of a tuple, as its line shows them. */
  function TupleText(f: Stored<TupleId>): string
    requires |f.bytes| >= BytesShown(FLOW_TUPLES[f.id])
  {
    "TUPLE ID=" + Dec(f.id) + " : " + PrintedName(f.id) + "  " + Column(FLOW_TUPLES[f.id], f.bytes)
  }

  /** Every tuple line, for all 30 tuples. */
  lemma TupleLineIs(f: Stored<TupleId>)
    requires Determined(f)
    ensures |f.bytes| >= BytesShown(FLOW_TUPLES[f.id])
    ensures TupleLine(f) == TupleText(f) + LineEndOf(FLOW_TUPLES[f.id])
  {
    ColumnIs(f);
    NamesPrinted(f.id);
    hide Numeral, TupleValue, Column, PrintedName, BytesShown, LineEndOf;
    var name, v, e := TUPLE_NAMES[f.id], Column(FLOW_TUPLES[f.id], f.bytes), LineEndOf(FLOW_TUPLES[f.id]);
    NamedLine("TUPLE ID=", Dec(f.id), name, "  ", v + e);
    Associative("TUPLE ID=" + Dec(f.id) + " : " + name + "  ", v, e);
  }

  // ----- The lines of a dump

  function Lines(s: string): seq<string>
    decreases |s|
  {
    if s == "" then []
    else
      var i := IndexOf(s, '\n');
      if i == |s| then [s] else [s[..i]] + Lines(s[i + 1..])
  }

  lemma LinesCons(line: string, rest: string)
    requires '\n' !in line
    ensures Lines(line + "\n" + rest) == [line] + Lines(rest)
  {
    var s := line + "\n" + rest;
    IndexOfCut('\n', line, rest);
    assert s[..|line|] == line && s[|line| + 1..] == rest;
  }

  lemma ColumnHasNoNewline(name: string, b: seq<Byte>)
    requires |b| >= BytesShown(name)
    ensures '\n' !in Column(name, b)
  {
    if BytesShown(name) == 2 {
      NumeralChars(10, b[0] as int + 256 * b[1] as int);
      NumeralChars(16, b[0] as int + 256 * b[1] as int);
    } else {
      forall i | 0 <= i < BytesShown(name) ensures '\n' !in Dec(b[i]) && '\n' !in Hex(b[i]) {
        NumeralChars(10, b[i]);
        NumeralChars(16, b[i]);
      }
    }
    hide Numeral;
  }

  lemma NamesHaveNoNewline(id: TupleId)
    ensures '\n' !in PrintedName(id)
  {
    if id < 10 {
      FirstNames(id);
    } else if id < 20 {
      MiddleNames(id);
    } else {
      LastNames(id);
    }
  }

  lemma FirstNames(id: TupleId)
    requires id < 10
    ensures '\n' !in PrintedName(id)
  {
  }

  lemma MiddleNames(id: TupleId)
    requires 10 <= id < 20
    ensures '\n' !in PrintedName(id)
  {
  }

  lemma LastNames(id: TupleId)
    requires id >= 20
    ensures '\n' !in PrintedName(id)
  {
  }

  lemma TupleTextIsLine(f: Stored<TupleId>)
    requires |f.bytes| >= BytesShown(FLOW_TUPLES[f.id])
    ensures '\n' !in TupleText(f)
  {
    NumeralChars(10, f.id);
    NamesHaveNoNewline(f.id);
    ColumnHasNoNewline(FLOW_TUPLES[f.id], f.bytes);
    hide Numeral, PrintedName, Column, BytesShown;
  }

  function ActionText(a: Stored<ActionId>): string
    requires |a.bytes| >= 1
  {
    "ACTION  ID=2 : enqueue_queue " + Dec(a.bytes[0])
  }

  lemma ActionLineIs(a: Stored<ActionId>)
    requires WellOutput(a)
    ensures Nameable(a) && ActionLine(a) == ActionText(a) + "\n" && '\n' !in ActionText(a)
  {
    hide Dec;
    NotationLaws(0, 2);
    DecIsPlain(a.bytes[0]);
    assert ACTION_NAMES[a.id] == "enqueue_queue";
    PortText(Dec(a.bytes[0]));
  }

  lemma DecIsPlain(n: nat)
    ensures '\n' !in Dec(n)
  {
    NumeralChars(10, n);
    hide Numeral;
  }

  lemma PortText(v: string)
    ensures "ACTION  ID=" + "2" + " " + (": " + "enqueue_queue" + " " + (v + "\n")) ==
            "ACTION  ID=2 : enqueue_queue " + v + "\n"
  {
    assert "ACTION  ID=" + "2" + " " + (": " + "enqueue_queue" + " ") == "ACTION  ID=2 : enqueue_queue ";
  }

  /** All bytes are known, and every line ends. */
  predicate Shows(fs: seq<Stored<TupleId>>) {
    forall i :: 0 <= i < |fs| ==> Determined(fs[i]) && Width(fs[i].id) > 0
  }

  lemma {:induction false} LinesOfTuples(fs: seq<Stored<TupleId>>, rest: string)
    requires Shows(fs)
    ensures AllDetermined(fs)
    ensures var ls := Lines(TupleLines(fs) + rest);
            && |ls| == |fs| + |Lines(rest)| && ls[|fs|..] == Lines(rest)
            && forall i :: 0 <= i < |fs| ==>
                 |fs[i].bytes| >= BytesShown(FLOW_TUPLES[fs[i].id]) && ls[i] == TupleText(fs[i])
    decreases |fs|
  {
    hide TupleLine, TupleText, Lines, BytesShown, Width;
    if fs == [] {
      assert TupleLines(fs) + rest == rest;
    } else {
      var f, more := fs[0], fs[1..];
      assert Shows(more) by {
        assert forall i :: 0 <= i < |more| ==> more[i] == fs[i + 1];
      }
      LinesOfTuples(more, rest);
      TupleLineIs(f);
      TupleTextIsLine(f);
      ShownLineEnds(f);
      LinesCons(TupleText(f), TupleLines(more) + rest);
      assert TupleLines(fs) + rest == TupleText(f) + "\n" + (TupleLines(more) + rest);
      assert forall i :: 0 < i < |fs| ==> fs[i] == more[i - 1];
    }
  }

  lemma ShownLineEnds(f: Stored<TupleId>)
    requires Width(f.id) > 0
    ensures LineEndOf(FLOW_TUPLES[f.id]) == "\n"
  {
    KindByName(f.id);
    hide BytesShown;
  }

  lemma {:induction false} LinesOfActions(xs: seq<Stored<ActionId>>, rest: string)
    requires AllOutputs(xs)
    ensures AllNameable(xs)
    ensures var ls := Lines(ActionLines(xs) + rest);
            && |ls| == |xs| + |Lines(rest)| && ls[|xs|..] == Lines(rest)
            && forall i :: 0 <= i < |xs| ==> |xs[i].bytes| >= 1 && ls[i] == ActionText(xs[i])
    decreases |xs|
  {
    hide ActionLine, ActionText, Lines;
    OutputsAreNameable(xs);
    if xs == [] {
      assert ActionLines(xs) + rest == rest;
    } else {
      var a, more := xs[0], xs[1..];
      LinesOfActions(more, rest);
      assert WellOutput(a);
      ActionLineIs(a);
      LinesCons(ActionText(a), ActionLines(more) + rest);
      assert ActionLines(xs) + rest == ActionText(a) + "\n" + (ActionLines(more) + rest);
      assert forall i :: 0 < i < |xs| ==> xs[i] == more[i - 1];
    }
  }

  lemma LinesOfHeader(dev: int, tbl: int, rest: string)
    ensures Lines(Header(dev, tbl) + rest) ==
            ["in dump FUNCTION", "device_id=" + DecSigned(dev), "flow_table=" + DecSigned(tbl)] + Lines(rest)
  {
    DecSignedIsPlain(dev);
    DecSignedIsPlain(tbl);
    hide DecSigned, Lines;
    var d, t := "device_id=" + DecSigned(dev), "flow_table=" + DecSigned(tbl);
    ThreeParts("in dump FUNCTION\n", d + "\n", t + "\n", rest);
    LinesCons("in dump FUNCTION", d + "\n" + (t + "\n" + rest));
    LinesCons(d, t + "\n" + rest);
    LinesCons(t, rest);
    assert "in dump FUNCTION\n" + (d + "\n" + (t + "\n" + rest)) ==
           "in dump FUNCTION" + "\n" + (d + "\n" + (t + "\n" + rest));
    assert ["in dump FUNCTION"] + ([d] + ([t] + Lines(rest))) == ["in dump FUNCTION", d, t] + Lines(rest);
  }

  lemma LinesOfFooter(tbl: int)
    ensures Lines(Footer(tbl)) == if tbl != 0 then ["flow table not NULL"] else []
  {
    LinesCons("flow table not NULL", "");
    assert "flow table not NULL" + "\n" + "" == "flow table not NULL\n";
    assert ["flow table not NULL"] + [] == ["flow table not NULL"];
  }

  /** The lines of a dump: the header with device and table, a line for each tuple, a line for each
      port, and a note if the table is not 0. */
  lemma DumpLines(dev: int, tbl: int, fs: seq<Stored<TupleId>>, xs: seq<Stored<ActionId>>)
    requires Shows(fs) && AllOutputs(xs)
    ensures AllDetermined(fs) && AllNameable(xs)
    ensures var ls := Lines(DumpText(dev, tbl, fs, xs));
            && |ls| == 3 + |fs| + |xs| + (if tbl != 0 then 1 else 0)
            && ls[0] == "in dump FUNCTION"
            && ls[1] == "device_id=" + DecSigned(dev) && ls[2] == "flow_table=" + DecSigned(tbl)
            && (forall i :: 0 <= i < |fs| ==>
                 |fs[i].bytes| >= BytesShown(FLOW_TUPLES[fs[i].id]) && ls[3 + i] == TupleText(fs[i]))
            && (forall i :: 0 <= i < |xs| ==> |xs[i].bytes| >= 1 && ls[3 + |fs| + i] == ActionText(xs[i]))
            && (tbl != 0 ==> ls[|ls| - 1] == "flow table not NULL")
  {
    hide Header, Footer, TupleLines, ActionLines, Lines, DecSigned, TupleText, ActionText, BytesShown;
    var end := Footer(tbl);
    LinesOfFooter(tbl);
    LinesOfActions(xs, end);
    var actions := ActionLines(xs) + end;
    LinesOfTuples(fs, actions);
    LinesOfHeader(dev, tbl, TupleLines(fs) + actions);
    ThreeParts(Header(dev, tbl), TupleLines(fs), ActionLines(xs), end);
  }

  // ----- From the option to its line

  /** The numbers of the tuples in the enumeration. */
  const TUPLE_NUMBERS: seq<string> := ["1", "0", "3", "2", "4", "7", "6", "11", "10", "14", "13"]

  /** What the dump shows of an option value. */
  function ShownValue(p: Place, v: string): string
    requires (p == 2 || p == 3) ==> EtherAton(v).Some?
    requires (p == 5 || p == 6) ==> InetPton(v).Some?
  {
    if p == 2 || p == 3 then MacText(EtherAton(v).value) + " "
    else if p == 5 || p == 6 then
      var q := InetPton(v).value;
      Dec(q[3]) + "." + Dec(q[2]) + "." + Dec(q[1]) + "." + Dec(q[0])
    else if p == 4 then Hex(Strtol16(v) % 0x10000)
    else Dec(Atoi(v) % 0x10000)
  }

  lemma TwoBytes(n: int)
    ensures n % 256 + 256 * (n / 256 % 256) == n % 0x10000
  {
    StoreShortReadUnsigned(n);
    StoredBytes(n);
    hide Short;
  }

  lemma ColumnOfValue(p: Place, v: string, bytes: seq<Byte>)
    requires Decode(p, v) == Bytes(bytes) && |bytes| == BytesShown(FILLS[p])
    ensures (p == 2 || p == 3) ==> EtherAton(v).Some?
    ensures (p == 5 || p == 6) ==> InetPton(v).Some?
    ensures Column(FILLS[p], bytes) == ShownValue(p, v)
  {
    DecodeMeaning(p, v);
    TwoBytes(Atoi(v));
    TwoBytes(Strtol16(v));
    hide Decode, Numeral, MacText, Atoi, Strtol16, EtherAton, InetPton;
    if p == 2 || p == 3 {
      var b := bytes;
      MacIs(b[0], b[1], b[2], b[3], b[4], b[5]);
      assert b == [b[0], b[1], b[2], b[3], b[4], b[5]];
    }
  }

  lemma NumberOfTuple(p: Place)
    ensures Dec(CHAIN[p]) == TUPLE_NUMBERS[p] && PrintedName(CHAIN[p]) == FILLS[p]
    ensures Width(CHAIN[p]) == BytesShown(FILLS[p]) > 0
  {
    hide Dec, PrintedName, Width, BytesShown;
    FieldWords(p, "");
    NamesPrinted(CHAIN[p]);
    WidthOfTuple(p);
    SmallNumber(CHAIN[p]);
    NumberText(p);
  }

  lemma WidthOfTuple(p: Place)
    ensures CHAIN[p] < 20 && Width(CHAIN[p]) == BytesShown(FLOW_TUPLES[CHAIN[p]]) > 0
  {
    KindByName(CHAIN[p]);
    PlaceOfChain(p);
    hide BytesShown;
  }

  lemma SmallNumber(n: nat)
    requires n < 20
    ensures Dec(n) == (if n < 10 then "" else "1") + ["0123456789"[n % 10]]
  {
    NotationLaws(0, n % 10);
    NotationLaws(1, n % 10);
    NotationLaws(0, 1);
    hide Numeral;
  }

  lemma NumberText(p: Place)
    ensures (if CHAIN[p] < 10 then "" else "1") + ["0123456789"[CHAIN[p] % 10]] == TUPLE_NUMBERS[p]
  {
  }

  lemma OptionText(f: Stored<TupleId>, p: Place, v: string)
    requires f.id == CHAIN[p] && |f.bytes| == BytesShown(FILLS[p]) && Decode(p, v) == Bytes(f.bytes)
    ensures (p == 2 || p == 3) ==> EtherAton(v).Some?
    ensures (p == 5 || p == 6) ==> InetPton(v).Some?
    ensures |f.bytes| >= BytesShown(FLOW_TUPLES[f.id])
    ensures TupleText(f) == "TUPLE ID=" + TUPLE_NUMBERS[p] + " : " + FILLS[p] + "  " + ShownValue(p, v)
  {
    hide Dec, Decode, Column, ShownValue, BytesShown, PrintedName;
    NumberOfTuple(p);
    FieldWords(p, "");
    ColumnOfValue(p, v, f.bytes);
  }

  lemma CallShows(cnt: nat, line: string, c: FlowCall)
    requires FilterLine(cnt, line) == Accepted(Some(c)) && ReadsAddresses(line)
    ensures Shows(c.tuples) && AllOutputs(c.actions) && AllDetermined(c.tuples) && AllNameable(c.actions)
    ensures forall i :: 0 <= i < |c.tuples| ==> |c.tuples[i].bytes| == Width(c.tuples[i].id)
  {
    CallShown(cnt, line, c);
    ParsedIsWellFormed(cnt, line, c);
    forall i | 0 <= i < |c.tuples| ensures Width(c.tuples[i].id) == |c.tuples[i].bytes| > 0 {
      assert WellStored(c.tuples[i]) && Determined(c.tuples[i]);
      PlaceOfChain(PlaceOf(c.tuples[i].id));
    }
  }

  /** Line 3 + i of the text shows this option under its tuple. */
  predicate ShowsOption(text: string, i: nat, p: Place, value: Option<string>) {
    && value.Some? && ((p == 2 || p == 3) ==> EtherAton(value.value).Some?)
    && ((p == 5 || p == 6) ==> InetPton(value.value).Some?)
    && 3 + i < |Lines(text)|
    && Lines(text)[3 + i] == "TUPLE ID=" + TUPLE_NUMBERS[p] + " : " + FILLS[p] + "  " + ShownValue(p, value.value)
  }

  lemma TupleShowsOption(c: FlowCall, i: nat, p: Place, v: string)
    requires Shows(c.tuples) && AllOutputs(c.actions) && AllDetermined(c.tuples) && AllNameable(c.actions)
    requires i < |c.tuples| && c.tuples[i].id == CHAIN[p] && Decode(p, v) == Bytes(c.tuples[i].bytes)
    requires |c.tuples[i].bytes| == Width(CHAIN[p])
    ensures ShowsOption(DumpOfCall(c), i, p, Some(v))
  {
    hide Decode, Lines, Numeral, TupleText, ActionText, ShownValue, BytesShown, DumpText, EtherAton, InetPton, Width;
    DumpLines(c.dev, c.tbl, c.tuples, c.actions);
    NumberOfTuple(p);
    OptionText(c.tuples[i], p, v);
  }

  /** The dump of an accepted line has a line for every field option in it, with the number and the
      name of its tuple and the value that was given. */
  lemma OptionShown(cnt: nat, line: string, c: FlowCall, p: Place, j: nat)
    requires FilterLine(cnt, line) == Accepted(Some(c)) && ReadsAddresses(line)
    requires j < |FieldTokens(line)| && KEYWORDS[p] <= FieldTokens(line)[j]
    ensures AllDetermined(c.tuples) && AllNameable(c.actions)
    ensures ShowsOption(DumpOfCall(c), CountFields(FieldTokens(line)[..j]), p, ValueOf(FieldTokens(line)[j]))
  {
    hide FilterLine, ReadsAddresses, FieldTokens, Decode, ShowsOption, CountFields, DumpText, Width, ValueOf;
    CallShows(cnt, line, c);
    FieldDelivered(cnt, line, c, p, j);
    TupleShowsOption(c, CountFields(FieldTokens(line)[..j]), p, ValueOf(FieldTokens(line)[j]).value);
  }

  /** Line k of the text shows this out-port option. */
  predicate ShowsPort(text: string, k: nat, value: Option<string>) {
    && value.Some? && k < |Lines(text)|
    && Lines(text)[k] == "ACTION  ID=2 : enqueue_queue " + Dec(Atoi(value.value) % 256)
  }

  /** Behind the tuples, the dump has a line for every out-port option, with the low byte of its value. */
  lemma PortShown(cnt: nat, line: string, c: FlowCall, j: nat)
    requires FilterLine(cnt, line) == Accepted(Some(c)) && ReadsAddresses(line)
    requires j < |ActionOptions(line)| && "out-port" <= ActionOptions(line)[j]
    ensures AllDetermined(c.tuples) && AllNameable(c.actions)
    ensures ShowsPort(DumpOfCall(c), 3 + CountFields(FieldTokens(line)) + CountPorts(ActionOptions(line)[..j]),
                      ValueOf(ActionOptions(line)[j]))
  {
    hide FilterLine, ReadsAddresses, FieldTokens, ActionOptions, Lines, Numeral, CountFields, CountPorts, TupleText,
         DumpText, ValueOf, Atoi;
    CallShows(cnt, line, c);
    TuplesCounted(cnt, line, c);
    PortDelivered(cnt, line, c, j);
    DumpLines(c.dev, c.tbl, c.tuples, c.actions);
  }

  /** There is nothing else in it: the header with the device and the table of the line, these lines,
      and the note on a table other than 0. */
  lemma NothingElseShown(cnt: nat, line: string, c: FlowCall)
    requires FilterLine(cnt, line) == Accepted(Some(c)) && ReadsAddresses(line)
    ensures AllDetermined(c.tuples) && AllNameable(c.actions)
    ensures var ls := Lines(DumpOfCall(c));
            && |ls| == 3 + CountFields(FieldTokens(line)) + CountPorts(ActionOptions(line)) +
              (if c.tbl != 0 then 1 else 0)
            && ls[0] == "in dump FUNCTION"
            && ls[1] == "device_id=" + DecSigned(c.dev) && ls[2] == "flow_table=" + DecSigned(c.tbl)
            && (c.tbl != 0 ==> ls[|ls| - 1] == "flow table not NULL")
  {
    hide FilterLine, ReadsAddresses, FieldTokens, ActionOptions, Lines, DecSigned, CountFields, CountPorts, TupleText,
         DumpText;
    CallShows(cnt, line, c);
    TuplesCounted(cnt, line, c);
    ActionsCounted(cnt, line, c);
    DumpLines(c.dev, c.tbl, c.tuples, c.actions);
  }
}
