/** Command lines on which the program does what its author cannot have meant. */
module Findings {
  import opened CStrings
  import opened Numerals
  import opened FlowTypes
  import opened FilterSpec
  import opened FilterGrammar
  import opened FlowDump
  import opened DumpUnique
  import opened RoundTrip
  import opened ParsedFlows
  import opened Files
  import BridgeLoad
  import CanonicalFiles
  import FlowModules
  import LoadEnds

  lemma FitsCons(cnt: nat, st: State, t: string, rest: seq<string>)
    requires MatchStep(cnt, st, t).Next? && (Classify(t).Field? ==> |st.tuples| < SLOTS)
    ensures TuplesFit(cnt, st, [t] + rest) <==> TuplesFit(cnt, MatchStep(cnt, st, t).st, rest)
  {
    assert ([t] + rest)[1..] == rest;
  }

  lemma {:induction false} FieldsFit(cnt: nat, st: State, fs: seq<Stored<TupleId>>, rest: seq<string>)
    requires AllWellStored(fs) && st.cmd != NoCommand && OrderedFrom(st.stage, fs) && |st.tuples| + |fs| <= SLOTS
    ensures TuplesFit(cnt, st, FieldTexts(fs) + rest) <==>
            TuplesFit(cnt, st.(stage := LastStage(st.stage, fs), tuples := st.tuples + fs), rest)
    decreases |fs|
  {
    hide TuplesFit, MatchStep, FieldText, FieldTexts, OrderedFrom, LastStage, AllWellStored, InOrder, Stage, PlaceOf,
         WellStored;
    if fs == [] {
      NoFields(st.stage);
      assert FieldTexts(fs) + rest == rest && st.tuples + fs == st.tuples;
    } else {
      OrderedStep(st.stage, fs, rest);
      var f, more := fs[0], fs[1..];
      FieldTextStep(cnt, st, f);
      FitsCons(cnt, st, FieldText(f), FieldTexts(more) + rest);
      FieldsFit(cnt, st.(stage := Stage(PlaceOf(f.id)), tuples := st.tuples + [f]), more, rest);
      assert st.tuples + [f] + more == st.tuples + fs;
    }
  }

  lemma AddRun(cnt: nat, rest: seq<string>)
    ensures MatchRun(cnt, INIT, ["filter", "add"] + rest) == MatchRun(cnt, INIT.(cmd := Add), rest)
    ensures TuplesFit(cnt, INIT, ["filter", "add"] + rest) <==> TuplesFit(cnt, INIT.(cmd := Add), rest)
  {
    WordSteps(cnt, Add);
    hide MatchStep, MatchRun, TuplesFit;
    assert ["filter", "add"] + rest == ["filter"] + (["add"] + rest);
    RunCons(cnt, INIT, "filter", ["add"] + rest);
    RunCons(cnt, INIT, "add", rest);
    FitsCons(cnt, INIT, "filter", ["add"] + rest);
    FitsCons(cnt, INIT, "add", rest);
  }

  lemma OneToken(cnt: nat, st: State, t: string)
    requires !Classify(t).Field? && !Classify(t).ActionWord?
    ensures TuplesFit(cnt, st, [t]) && ActionsFit(0, []) && ActionRun([], []) == Some([])
    ensures MatchRun(cnt, st, [t]) ==
            match MatchStep(cnt, st, t)
            case Next(st') => Matched(st', [])
            case Fault => Faulted
            case _ => Mismatch
  {
    assert [t][1..] == [];
  }

  /** "filter add" and one more word that is neither a field nor "action". */
  lemma ThreeWords(cnt: nat, t: string)
    requires IsWord(t) && !Classify(t).Field? && !Classify(t).ActionWord?
    ensures var line, step := Join(["filter", "add", t]), MatchStep(cnt, INIT.(cmd := Add), t);
            && LineFits(cnt, line)
            && FilterLine(cnt, line) ==
               match step
               case Next(st) => Dispatch(cnt, st, [])
               case Fault => Undefined
               case _ => Rejected
  {
    hide MatchStep, MatchRun, TuplesFit, ActionsFit, ActionRun, Classify, Tokens, Join;
    var toks := ["filter", "add", t];
    CommandIsPlain(Add);
    assert AllWords(toks) by {
      assert IsWord("filter") && IsWord("add") && IsWord(t);
    }
    TokensOfJoin(toks);
    AddRun(cnt, [t]);
    OneToken(cnt, INIT.(cmd := Add), t);
    assert toks == ["filter", "add"] + [t];
  }

  /** The guard of the dev option, exactly: "filter add dev=n" is accepted for the registered devices,
      refused for a negative number and for one above the count, and undefined at the count. */
  lemma DeviceLine(cnt: nat, n: int)
    requires -0x8000 <= n < 0x8000
    ensures FilterLine(cnt, Join(["filter", "add", KeyValue("dev", DecSigned(n))])) ==
            if 0 <= n < cnt then Accepted(Some(FlowCall(Add, n, 0, [], [])))
            else if n == cnt then Undefined
            else Rejected
  {
    hide MatchStep, KeyValue, DecSigned, Classify, ValueOf, NumberOf, Join, FilterLine, LineFits;
    CommandIsPlain(Add);
    NumberOption(4, "dev", n);
    ThreeWords(cnt, KeyValue("dev", DecSigned(n)));
    DevStep(cnt, INIT.(cmd := Add), n);
  }

  /** "filter add tbl=n" is accepted for every table that is not negative. */
  lemma TableLine(cnt: nat, n: int)
    requires -0x8000 <= n < 0x8000 && cnt > 0
    ensures FilterLine(cnt, Join(["filter", "add", KeyValue("tbl", DecSigned(n))])) ==
            if 0 <= n then Accepted(Some(FlowCall(Add, 0, n, [], []))) else Rejected
  {
    hide MatchStep, KeyValue, DecSigned, Classify, ValueOf, NumberOf, Join, FilterLine, LineFits;
    CommandIsPlain(Add);
    NumberOption(5, "tbl", n);
    ThreeWords(cnt, KeyValue("tbl", DecSigned(n)));
    TblStep(cnt, INIT.(cmd := Add), n);
  }

  /** The guard of the dev option is one too wide: "filter add dev=cnt" passes it for every device
      count cnt, and the dispatch then calls through a slot that was never registered. */
  lemma GuardTooWide(cnt: nat)
    requires cnt < 0x8000
    ensures var line := Join(["filter", "add", KeyValue("dev", DecSigned(cnt))]);
            LineFits(cnt, line) && FilterLine(cnt, line) == Undefined
  {
    hide MatchStep, KeyValue, DecSigned, Classify, ValueOf, NumberOf, Join, FilterLine, LineFits;
    DeviceLine(cnt, cnt);
    CommandIsPlain(Add);
    NumberOption(4, "dev", cnt);
    ThreeWords(cnt, KeyValue("dev", DecSigned(cnt)));
  }

  /** dl-src does not check its address: in its place, any text that ether_aton refuses makes the
      parser read through a null pointer. */
  lemma NullAddress(cnt: nat, fs: seq<Stored<TupleId>>, v: string)
    requires |fs| == 3 && AllWellStored(fs) && PlacesOf(fs) == [0, 1, 2]
    requires IsWord(v) && EtherAton(v).None?
    ensures var line := Join(["filter", "add"] + (FieldTexts(fs) + [KeyValue("dl-src", v)]));
            LineFits(cnt, line) && FilterLine(cnt, line) == Undefined
  {
    hide MatchRun, TuplesFit, FieldTexts, OrderedFrom, KeyValue, Classify, ValueOf, EtherAton, LastStage, PlacesOf,
         AllWellStored, IsWord, Tokens, Join;
    var t, st := KeyValue("dl-src", v), INIT.(cmd := Add);
    var st' := st.(stage := LastStage(0, fs), tuples := [] + fs);
    var toks := ["filter", "add"] + (FieldTexts(fs) + [t]);
    InOrderThree(fs);
    OptionRead(9, "dl-src", v);
    NullStep(cnt, st', t);
    FieldsRun(cnt, st, fs, [t]);
    FieldsFit(cnt, st, fs, [t]);
    AddRun(cnt, FieldTexts(fs) + [t]);
    NullTokens(fs, v);
    assert Tokens(Some(Join(toks))) == toks;
  }

  lemma InOrderThree(fs: seq<Stored<TupleId>>)
    requires |fs| == 3 && AllWellStored(fs) && PlacesOf(fs) == [0, 1, 2]
    ensures OrderedFrom(0, fs) && LastStage(0, fs) == 3
  {
    hide OrderedFrom, PlaceOf;
    assert forall i :: 0 <= i < 3 ==> PlaceOf(fs[i].id) == PlacesOf(fs)[i];
    ChainsAreOrdered(0, fs);
  }

  lemma NullStep(cnt: nat, st: State, t: string)
    requires st.cmd != NoCommand && st.stage == 3 && |st.tuples| < SLOTS
    requires Classify(t) == Field(3) && ValueOf(t).Some? && EtherAton(ValueOf(t).value).None?
    ensures MatchRun(cnt, st, [t]) == Faulted && TuplesFit(cnt, st, [t])
  {
    hide Classify, ValueOf, EtherAton;
  }

  lemma SourceIsWord(v: string)
    requires IsWord(v)
    ensures IsWord(KeyValue("dl-src", v))
  {
  }

  lemma NullTokens(fs: seq<Stored<TupleId>>, v: string)
    requires AllWellStored(fs) && IsWord(v)
    ensures var toks := ["filter", "add"] + (FieldTexts(fs) + [KeyValue("dl-src", v)]);
            Tokens(Some(Join(toks))) == toks
  {
    hide FieldTexts, KeyValue, Tokens, Join;
    var toks := ["filter", "add"] + (FieldTexts(fs) + [KeyValue("dl-src", v)]);
    FieldTextsArePlain(fs);
    SourceIsWord(v);
    CommandIsPlain(Add);
    assert AllWords(toks) by {
      assert IsWord("filter") && IsWord("add");
    }
    TokensOfJoin(toks);
  }

  /** One such line. */
  lemma NullAddressLine(cnt: nat)
    ensures var line := Join(["filter", "add", "in-phy-port=0", "in-port=0", "dl-dst=0:0:0:0:0:0", "dl-src=x"]);
            LineFits(cnt, line) && FilterLine(cnt, line) == Undefined
  {
    hide *;
    var fs := ZeroFields();
    XOption();
    NullAddress(cnt, fs, "x");
    assert ["filter", "add"] + (["in-phy-port=0", "in-port=0", "dl-dst=0:0:0:0:0:0"] + ["dl-src=x"]) ==
           ["filter", "add", "in-phy-port=0", "in-port=0", "dl-dst=0:0:0:0:0:0", "dl-src=x"];
  }

  lemma XOption()
    ensures KeyValue("dl-src", "x") == "dl-src=x" && IsWord("x") && EtherAton("x").None?
  {
  }

  lemma ZeroFields() returns (fs: seq<Stored<TupleId>>)
    ensures |fs| == 3 && AllWellStored(fs) && PlacesOf(fs) == [0, 1, 2]
    ensures FieldTexts(fs) == ["in-phy-port=0", "in-port=0", "dl-dst=0:0:0:0:0:0"]
  {
    fs := [Stored(IN_PHY_PORT, [0, 0]), Stored(IN_PORT, [0, 0]), Stored(DL_DST, [0, 0, 0, 0, 0, 0])];
    assert PlacesOf(fs) == [0, 1, 2];
    ZeroTexts(fs[0], fs[1], fs[2]);
    ThreeTexts(fs);
    hide FieldTexts, FieldText;
  }

  lemma ZeroTexts(f: Stored<TupleId>, g: Stored<TupleId>, h: Stored<TupleId>)
    requires f == Stored(IN_PHY_PORT, [0, 0]) && g == Stored(IN_PORT, [0, 0]) && h == Stored(DL_DST, [0, 0, 0, 0, 0, 0])
    ensures WellStored(f) && WellStored(g) && WellStored(h)
    ensures FieldText(f) == "in-phy-port=0" && FieldText(g) == "in-port=0" && FieldText(h) == "dl-dst=0:0:0:0:0:0"
  {
    ZeroNumber();
    ZeroMac();
    hide Numeral, MacText;
    assert KeyValue("in-phy-port", "0") == "in-phy-port=0" && KeyValue("in-port", "0") == "in-port=0";
    assert KeyValue("dl-dst", "0:0:0:0:0:0") == "dl-dst=0:0:0:0:0:0";
  }

  lemma ZeroNumber()
    ensures Numeral(10, 0) == "0" && Numeral(16, 0) == "0" && UShort([0, 0]) == 0
  {
  }

  lemma ZeroMac()
    ensures MacText([0, 0, 0, 0, 0, 0]) == "0:0:0:0:0:0"
  {
    var z: seq<Byte> := [0, 0, 0, 0, 0, 0];
    assert Hex(0) == "0";
    assert MacText([0]) == "0";
    assert [0 as Byte, 0][1..] == [0] && MacText([0, 0]) == "0:0";
    assert [0 as Byte, 0, 0][1..] == [0, 0] && MacText([0, 0, 0]) == "0:0:0";
    assert [0 as Byte, 0, 0, 0][1..] == [0, 0, 0] && MacText([0, 0, 0, 0]) == "0:0:0:0";
    assert [0 as Byte, 0, 0, 0, 0][1..] == [0, 0, 0, 0] && MacText([0, 0, 0, 0, 0]) == "0:0:0:0:0";
    assert z[1..] == [0, 0, 0, 0, 0];
  }

  lemma ThreeTexts(fs: seq<Stored<TupleId>>)
    requires |fs| == 3 && AllWellStored(fs)
    ensures FieldTexts(fs) == [FieldText(fs[0]), FieldText(fs[1]), FieldText(fs[2])]
  {
    hide FieldText;
    assert fs[1..][1..][1..] == [] && FieldTexts(fs[1..][1..]) == [FieldText(fs[2])] + [];
  }

  /** n in-phy-port options and nothing else. */
  function PhyPortCall(n: nat): FlowCall {
    FlowCall(Add, 0, 0, seq(n, i => Stored(IN_PHY_PORT, [0, 0])), [])
  }

  /** in-phy-port restarts the chain without limit: its 26th occurrence overruns the array. */
  lemma PhyPortsOverrun(cnt: nat, n: nat)
    requires cnt > 0
    ensures WellShaped(cnt, PhyPortCall(n))
    ensures FilterLine(cnt, Render(PhyPortCall(n))) == if n <= 25 then Accepted(Some(PhyPortCall(n))) else Undefined
  {
    var c := PhyPortCall(n);
    assert forall i :: 0 <= i < n ==> PlacesOf(c.tuples)[i] == 0;
    InChainsIff(PlacesOf(c.tuples));
    ParseOfRender(cnt, c, "");
    assert Render(c) + "" == Render(c);
  }

  // ----- Names in the dump

  /** Every tuple prints under its own name but for the spelling of ipv6_ext_hdr. */
  lemma TupleNamesIff(id: TupleId)
    ensures |FLOW_TUPLES| == 30 && (TUPLE_NAMES[id] == FLOW_TUPLES[id] <==> id != 19)
  {
    assert TUPLE_NAMES[19] == "ipv6ext_hder" && FLOW_TUPLES[19] == "ipv6_ext_hdr";
    assert "ipv6ext_hder"[4] != "ipv6_ext_hdr"[4];
  }

  predicate DifferSoon(a: string, b: string) {
    |a| != |b| || DifferAt(a, b, 0) || DifferAt(a, b, 1) || DifferAt(a, b, 5)
  }

  /** No action prints under its own name; 12 actions have no name to print. */
  lemma NoActionKeepsItsName(id: ActionId)
    ensures |FLOW_ACTIONS| == 39 && |ACTION_NAMES| == 27
    ensures id < |ACTION_NAMES| ==> ACTION_NAMES[id] != FLOW_ACTIONS[id]
  {
    if id < |ACTION_NAMES| {
      assert DifferSoon(ACTION_NAMES[id], FLOW_ACTIONS[id]);
    }
  }

  /** Every enumeration constant that has a printed name, with this name. */
  const PRINTED_ACTIONS: seq<(string, string)> := [
    ("fwd_queue", "out_port"), ("drop", "enqueue_port"), ("out_port", "enqueue_queue"),
    ("push_vlan_id", "NORMAL"), ("pop_vlan_id", "FLOOD"), ("set_vlan_id", "ALL"),
    ("set_vlan_priority", "CONTROLLER"), ("push_mpls", "DROP"), ("pop_mpls", "push_vlan"),
    ("set_dl_src", "set_field"), ("set_dl_dst", "push_mpls"), ("set_ip_src", "pop_mpls"),
    ("set_ip_dst", "push_pbb"), ("set_tcp_src", "pop_pbb"), ("set_tcp_dst", "Mod_vlan_vid"),
    ("set_dscp", "Mod_vlan_pcp"), ("set_ecn", "Strip_vlan"), ("set_ip_ttl", "Mod_dl_src"),
    ("dec_ip_ttl", "Mod_dl_dst"), ("set_ip_flabel", "Mod_nw_src"), ("set_extended_header", "Mod_nw_dst"),
    ("set_mpls", "Mod_tp_src"), ("set_mpls_traffic", "Mod_tp_dst"), ("set_mpls_ttl", "Mod_nw_tos"),
    ("set_mpls_header", "resubmit"), ("dec_mpls_ttl", "Set_queue"), ("copy_in_ttl", "Set_mpls")]

  lemma ActionPrintsAs(a: Stored<ActionId>)
    requires Nameable(a)
    ensures a.id < |PRINTED_ACTIONS| && FLOW_ACTIONS[a.id] == PRINTED_ACTIONS[a.id].0
    ensures ActionLine(a) == "ACTION  ID=" + Dec(a.id) + " : " + PRINTED_ACTIONS[a.id].1 + " " + Dec(a.bytes[0]) + "\n"
  {
    hide Dec;
    PrintedActionNames(a.id);
    var n, name, v := Dec(a.id), ACTION_NAMES[a.id], Dec(a.bytes[0]);
    NamedLine("ACTION  ID=", n, name, " ", v + "\n");
    Associative("ACTION  ID=" + n + " : " + name + " ", v, "\n");
  }

  lemma PrintedActionNames(id: ActionId)
    requires id < 27
    ensures |PRINTED_ACTIONS| == |ACTION_NAMES| == 27 && PRINTED_ACTIONS[id] == (FLOW_ACTIONS[id], ACTION_NAMES[id])
  {
  }

  /** In particular, every port of a command line is dumped as a queue. */
  lemma PortsPrintAsQueues(cnt: nat, line: string, c: FlowCall, i: nat)
    requires FilterLine(cnt, line) == Accepted(Some(c)) && i < |c.actions|
    ensures FLOW_ACTIONS[c.actions[i].id] == "out_port" && Nameable(c.actions[i])
    ensures ActionLine(c.actions[i]) == "ACTION  ID=2 " + (": enqueue_queue " + (Dec(c.actions[i].bytes[0]) + "\n"))
  {
    hide FilterLine, InChains, ActionLine, Dec;
    ParsedIsWellFormed(cnt, line, c);
    assert WellOutput(c.actions[i]);
    PortLine(c.actions[i]);
  }

  lemma PortLine(a: Stored<ActionId>)
    requires WellOutput(a)
    ensures Nameable(a) && ActionLine(a) == "ACTION  ID=2 " + (": enqueue_queue " + (Dec(a.bytes[0]) + "\n"))
  {
    var value := Dec(a.bytes[0]) + "\n";
    DigitTwo();
    hide Dec;
    assert ActionLine(a) == "ACTION  ID=" + Dec(2) + " " + (": " + "enqueue_queue" + " " + value);
    assert "ACTION  ID=" + "2" + " " == "ACTION  ID=2 ";
    assert ": " + "enqueue_queue" + " " + value == ": enqueue_queue " + value;
  }

  lemma DigitTwo()
    ensures Dec(2) == "2"
  {
  }

  // ----- Addresses that are not read

  /** Six fields in order, the last one an IPv4 option with a malformed address. */
  function SpoiltCall(): FlowCall {
    FlowCall(Add, 0, 0,
             [Stored(IN_PHY_PORT, [0, 0]), Stored(IN_PORT, [0, 0]), Stored(DL_DST, [0, 0, 0, 0, 0, 0]),
              Stored(DL_SRC, [0, 0, 0, 0, 0, 0]), Stored(DL_TYPE, [0, 0]), Stored(NW4_DST, [])], [])
  }

  const SPOILT_TOKENS: seq<string> :=
    ["filter", "add", "dev=0", "tbl=0", "in-phy-port=0", "in-port=0", "dl-dst=0:0:0:0:0:0",
     "dl-src=0:0:0:0:0:0", "dl-type=0x0", "nw-dst=", "action"]

  lemma SpoiltCallIsWellFormed(cnt: nat)
    requires cnt > 0
    ensures WellFormed(cnt, SpoiltCall()) && |SpoiltCall().tuples| == 6 && !Determined(SpoiltCall().tuples[5])
  {
    var c := SpoiltCall();
    var ps := PlacesOf(c.tuples);
    assert ps == [0, 1, 2, 3, 4, 5];
    assert forall i :: 0 <= i < |ps| ==> StepOk(ps, i);
    InChainsIff(ps);
  }

  lemma SpoiltTexts(f: Stored<TupleId>, g: Stored<TupleId>, h: Stored<TupleId>)
    requires f == Stored(DL_SRC, [0, 0, 0, 0, 0, 0]) && g == Stored(DL_TYPE, [0, 0]) && h == Stored(NW4_DST, [])
    ensures WellStored(f) && WellStored(g) && WellStored(h)
    ensures FieldText(f) == "dl-src=0:0:0:0:0:0" && FieldText(g) == "dl-type=0x0" && FieldText(h) == "nw-dst="
  {
    ZeroNumber();
    ZeroMac();
    hide Numeral, MacText;
    assert KeyValue("dl-src", "0:0:0:0:0:0") == "dl-src=0:0:0:0:0:0";
    assert KeyValue("dl-type", "0x" + "0") == "dl-type=0x0" && KeyValue("nw-dst", "") == "nw-dst=";
  }

  lemma FirstText(fs: seq<Stored<TupleId>>)
    requires AllWellStored(fs) && fs != []
    ensures FieldTexts(fs) == [FieldText(fs[0])] + FieldTexts(fs[1..])
  {
  }

  lemma SixTexts(fs: seq<Stored<TupleId>>)
    requires |fs| == 6 && AllWellStored(fs)
    ensures FieldTexts(fs) ==
            [FieldText(fs[0]), FieldText(fs[1]), FieldText(fs[2]), FieldText(fs[3]), FieldText(fs[4]), FieldText(fs[5])]
  {
    hide FieldText;
    hide FieldTexts;
    var a, b, c := fs[1..], fs[2..], fs[3..];
    assert a[1..] == b && b[1..] == c;
    FirstText(fs);
    FirstText(a);
    FirstText(b);
    ThreeTexts(c);
  }

  lemma ZeroHead(c: FlowCall)
    requires c.cmd == Add && c.dev == 0 && c.tbl == 0
    ensures HeadTokens(c) == ["filter", "add", "dev=0", "tbl=0"]
  {
    ZeroNumber();
    hide Numeral;
    assert DecSigned(0) == "0";
    assert KeyValue("dev", "0") == "dev=0" && KeyValue("tbl", "0") == "tbl=0";
  }

  lemma SpoiltLineTokens(cnt: nat)
    requires cnt > 0
    ensures WellFormed(cnt, SpoiltCall()) && LineTokens(SpoiltCall()) == SPOILT_TOKENS
  {
    hide FieldText, FieldTexts, HeadTokens, InChains;
    var c := SpoiltCall();
    var fs := c.tuples;
    SpoiltCallIsWellFormed(cnt);
    ZeroTexts(fs[0], fs[1], fs[2]);
    SpoiltTexts(fs[3], fs[4], fs[5]);
    SixTexts(fs);
    ZeroHead(c);
  }

  /** An accepted line that leaves to chance what the device dumps. */
  lemma SpoiltAddressLine(cnt: nat)
    requires cnt > 0
    ensures FilterLine(cnt, Join(SPOILT_TOKENS)) == Accepted(Some(SpoiltCall()))
    ensures !ReadsAddresses(Join(SPOILT_TOKENS)) && !DumpIsDetermined(SpoiltCall())
  {
    hide *;
    SpoiltLineTokens(cnt);
    RenderedSpoilt(cnt);
    SpoiltCallIsWellFormed(cnt);
    var line := Join(SPOILT_TOKENS);
    LineDeterminesIff(cnt, line, SpoiltCall());
    DumpDeterminedIff(cnt, line, SpoiltCall());
    NotAllDetermined(SpoiltCall().tuples, 5);
  }

  lemma NotAllDetermined(fs: seq<Stored<TupleId>>, i: nat)
    requires i < |fs| && !Determined(fs[i])
    ensures !AllDetermined(fs)
  {
  }

  lemma RenderedSpoilt(cnt: nat)
    requires WellFormed(cnt, SpoiltCall()) && LineTokens(SpoiltCall()) == SPOILT_TOKENS
    ensures FilterLine(cnt, Join(SPOILT_TOKENS)) == Accepted(Some(SpoiltCall()))
  {
    var c := SpoiltCall();
    hide InChains, LineTokens, FilterLine, Join;
    ParseOfRender(cnt, c, "");
    assert Render(c) + "" == Render(c);
  }

  // ----- Files that are not opened

  /** The newline that ends a load line belongs to the file name: "rules" is not found. */
  lemma NewlineHidesFile(cnt: nat, text: string)
    ensures BridgeLoad.LoadTarget(map["rules" := text], "load rules\n") == None
    ensures FlowModules.CliCalls(cnt, map["rules" := text], "load rules\n") == []
  {
    var files := map["rules" := text];
    LoadEnds.LoadOpensIff(files, ' ', "rules", "\n");
    CanonicalFiles.LoadCalls(cnt, files, ' ', "rules\n");
    assert "rules" + "\n" == "rules\n" && LoadLine(' ', "rules") + "\n" == "load rules\n" == LoadLine(' ', "rules\n");
    assert |"rules\n"| != |"rules"|;
  }

  /** A name of fewer than four characters is ignored, although the file exists. */
  lemma ShortNameIgnored(cnt: nat, text: string)
    ensures BridgeLoad.LoadTarget(map["abc" := text], "load abc") == None
    ensures FlowModules.CliCalls(cnt, map["abc" := text], "load abc") == []
  {
    var files := map["abc" := text];
    LoadEnds.LoadOpensIff(files, ' ', "abc", "");
    CanonicalFiles.LoadCalls(cnt, files, ' ', "abc");
    assert "abc" + "" == "abc" && LoadLine(' ', "abc") + "" == "load abc" == LoadLine(' ', "abc");
  }
}
