/** Text and flow are inverse to each other: the canonical command line of a call, and what the
    filter parser makes of it. */
module RoundTrip {
  import opened CStrings
  import opened Numerals
  import opened FlowTypes
  import opened FilterSpec
  import opened FilterGrammar
  import opened FilterLines
  import opened FlowDump
  import opened DumpUnique

  // ----- Places of the chain

  function PlaceOf(id: TupleId): (pos: Place)
    requires id in CHAIN
    ensures CHAIN[pos] == id
  {
    if id == IN_PHY_PORT then 0
    else if id == IN_PORT then 1
    else if id == DL_DST then 2
    else if id == DL_SRC then 3
    else if id == DL_TYPE then 4
    else if id == NW4_DST then 5
    else if id == NW4_SRC then 6
    else if id == NW_ECN then 7
    else if id == NW_PROTO then 8
    else if id == TP_DST then 9
    else 10
  }

  lemma PlaceOfChain(pos: Place)
    ensures CHAIN[pos] in CHAIN && PlaceOf(CHAIN[pos]) == pos
    ensures Width(CHAIN[pos]) == if pos == 2 || pos == 3 then 6 else if pos == 5 || pos == 6 then 4 else 2
  {
  }

  /** The bytes that a field option can determine: all that the dump shows, or none of an IPv4
      address that was malformed. */
  predicate FieldBytes(id: TupleId, bytes: seq<Byte>) {
    |bytes| == Width(id) || (bytes == [] && Width(id) == 4)
  }

  /** A record as the parser stores it. */
  predicate WellStored(f: Stored<TupleId>) {
    f.id in CHAIN && FieldBytes(f.id, f.bytes)
  }

  predicate AllWellStored(fs: seq<Stored<TupleId>>) {
    forall i :: 0 <= i < |fs| ==> WellStored(fs[i])
  }

  function PlacesOf(fs: seq<Stored<TupleId>>): (ps: seq<Place>)
    requires AllWellStored(fs)
    ensures |ps| == |fs|
  {
    seq(|fs|, i requires 0 <= i < |fs| => PlaceOf(fs[i].id))
  }

  predicate WellOutput(a: Stored<ActionId>) {
    a.id == OUT_PORT && |a.bytes| == 2
  }

  predicate AllOutputs(xs: seq<Stored<ActionId>>) {
    forall i :: 0 <= i < |xs| ==> WellOutput(xs[i])
  }

  /** A registered device, a non-negative table, tuples in concatenated chain prefixes, and
      out-port actions. */
  ghost predicate WellShaped(cnt: nat, c: FlowCall) {
    && c.cmd != NoCommand && 0 <= c.dev < cnt && c.dev < 0x8000 && 0 <= c.tbl < 0x8000
    && AllWellStored(c.tuples) && InChains(PlacesOf(c.tuples)) && AllOutputs(c.actions)
  }

  predicate FitsArrays(c: FlowCall) {
    |c.tuples| <= SLOTS && |c.actions| <= SLOTS
  }

  /** The calls that command lines can ask for. */
  ghost predicate WellFormed(cnt: nat, c: FlowCall) {
    WellShaped(cnt, c) && FitsArrays(c)
  }

  // ----- Canonical text

  const FIELD_KEYS: seq<string> := [
    "in-phy-port", "in-port", "dl-dst", "dl-src", "dl-type",
    "nw-dst", "nw-src", "nw-ecn", "nw-proto", "tp-dst", "tp-src"]

  lemma FieldKey(pos: Place)
    ensures FILTER_TABLE[6 + pos].word == Field(pos)
    ensures FILTER_TABLE[6 + pos].key <= FIELD_KEYS[pos]
  {
  }

  lemma FieldKeyIsPlain(pos: Place)
    ensures '=' !in FIELD_KEYS[pos] && IsPlain(FIELD_KEYS[pos])
  {
  }

  /** The option value that stores these bytes; the empty one is a malformed address. */
  function ValueText(pos: Place, bytes: seq<Byte>): string
    requires FieldBytes(CHAIN[pos], bytes)
  {
    PlaceOfChain(pos);
    if bytes == [] then ""
    else if pos == 2 || pos == 3 then MacText(bytes)
    else if pos == 5 || pos == 6 then QuadText(Reversed4(bytes))
    else if pos == 4 then "0x" + Hex(UShort(bytes))
    else Dec(UShort(bytes))
  }

  function FieldText(f: Stored<TupleId>): string
    requires WellStored(f)
  {
    KeyValue(FIELD_KEYS[PlaceOf(f.id)], ValueText(PlaceOf(f.id), f.bytes))
  }

  function FieldTexts(fs: seq<Stored<TupleId>>): seq<string>
    requires AllWellStored(fs)
  {
    if fs == [] then [] else [FieldText(fs[0])] + FieldTexts(fs[1..])
  }

  function OutputText(a: Stored<ActionId>): string
    requires WellOutput(a)
  {
    KeyValue("out-port", Dec(UShort(a.bytes)))
  }

  function OutputTexts(xs: seq<Stored<ActionId>>): seq<string>
    requires AllOutputs(xs)
  {
    if xs == [] then [] else [OutputText(xs[0])] + OutputTexts(xs[1..])
  }

  function CmdText(cmd: RealCmd): string {
    match cmd
    case Add => "add"
    case Del => "del"
    case Dump => "dump"
  }

  function HeadTokens(c: FlowCall): seq<string>
    requires c.cmd != NoCommand
  {
    ["filter", CmdText(c.cmd), KeyValue("dev", DecSigned(c.dev)), KeyValue("tbl", DecSigned(c.tbl))]
  }

  function ActionTokens(xs: seq<Stored<ActionId>>): (ts: seq<string>)
    requires AllOutputs(xs)
    ensures ts != []
  {
    ["action"] + OutputTexts(xs)
  }

  /** filter add dev=0 tbl=0 in-phy-port=0 ... action out-port=0 */
  function LineTokens(c: FlowCall): seq<string>
    requires c.cmd != NoCommand && AllWellStored(c.tuples) && AllOutputs(c.actions)
  {
    HeadTokens(c) + FieldTexts(c.tuples) + ActionTokens(c.actions)
  }

  function Render(c: FlowCall): string
    requires c.cmd != NoCommand && AllWellStored(c.tuples) && AllOutputs(c.actions)
  {
    Join(LineTokens(c))
  }

  // ----- Values survive print and parse

  lemma DecodeOfText(pos: Place, bytes: seq<Byte>)
    requires FieldBytes(CHAIN[pos], bytes)
    ensures Decode(pos, ValueText(pos, bytes)) == Bytes(bytes)
  {
    PlaceOfChain(pos);
    if bytes == [] {
      assert InetPton("") == None;
    } else if pos == 2 || pos == 3 {
      EtherAtonOfText(bytes);
    } else if pos == 5 || pos == 6 {
      var q := Reversed4(bytes);
      InetPtonIff(QuadText(q), q);
      assert Reversed4(q) == bytes;
    } else {
      var n := UShort(bytes);
      ShortBytesOfUShort(bytes);
      if pos == 4 {
        StrtolOfWholeHex(n);
      } else {
        AtoiOfWholeDec(n);
      }
    }
  }

  lemma ValueIsPlain(pos: Place, bytes: seq<Byte>)
    requires FieldBytes(CHAIN[pos], bytes)
    ensures IsPlain(ValueText(pos, bytes))
  {
    PlaceOfChain(pos);
    if bytes == [] {
    } else if pos == 2 || pos == 3 {
      SeparateChars(16, ':', bytes);
    } else if pos == 5 || pos == 6 {
      SeparateChars(10, '.', Reversed4(bytes));
    } else {
      NumeralChars(16, UShort(bytes));
      NumeralChars(10, UShort(bytes));
    }
  }

  lemma OptionRead(i: nat, key: string, value: string)
    requires i < |FILTER_TABLE| && FILTER_TABLE[i].key <= key && '=' !in key
    ensures Classify(KeyValue(key, value)) == FILTER_TABLE[i].word
    ensures ValueOf(KeyValue(key, value)) == Some(value)
    ensures IsPlain(key) && IsPlain(value) ==> IsPlain(KeyValue(key, value))
  {
    var tok := KeyValue(key, value);
    assert FILTER_TABLE[i].key <= tok by {
      assert tok[..|key|] == key;
    }
    Keyword(i, tok);
    ValueOfOption(key, value);
  }

  lemma FieldTextRead(f: Stored<TupleId>)
    requires WellStored(f)
    ensures Classify(FieldText(f)) == Field(PlaceOf(f.id)) && IsPlain(FieldText(f))
    ensures ValueOf(FieldText(f)) == Some(ValueText(PlaceOf(f.id), f.bytes))
  {
    var pos := PlaceOf(f.id);
    FieldKey(pos);
    FieldKeyIsPlain(pos);
    ValueIsPlain(pos, f.bytes);
    OptionRead(6 + pos as nat, FIELD_KEYS[pos], ValueText(pos, f.bytes));
  }

  // ----- The automaton on canonical tokens

  lemma RunCons(cnt: nat, st: State, t: string, rest: seq<string>)
    requires MatchStep(cnt, st, t).Next?
    ensures MatchRun(cnt, st, [t] + rest) == MatchRun(cnt, MatchStep(cnt, st, t).st, rest)
  {
    assert ([t] + rest)[1..] == rest;
  }

  predicate OrderedFrom(stage: nat, fs: seq<Stored<TupleId>>)
    requires AllWellStored(fs)
    decreases |fs|
  {
    fs != [] ==> InOrder(stage, PlaceOf(fs[0].id)) && OrderedFrom(Stage(PlaceOf(fs[0].id)), fs[1..])
  }

  function LastStage(stage: nat, fs: seq<Stored<TupleId>>): nat
    requires AllWellStored(fs)
  {
    if fs == [] then stage else Stage(PlaceOf(fs[|fs| - 1].id))
  }

  lemma {:induction false} ChainsAreOrdered(stage: nat, fs: seq<Stored<TupleId>>)
    requires AllWellStored(fs)
    requires forall i :: 0 < i < |fs| ==> StepOk(PlacesOf(fs), i)
    requires fs != [] ==> InOrder(stage, PlaceOf(fs[0].id))
    ensures OrderedFrom(stage, fs)
    decreases |fs|
  {
    if fs != [] {
      var ps, rest := PlacesOf(fs), PlacesOf(fs[1..]);
      assert forall i :: 0 <= i < |rest| ==> rest[i] == ps[i + 1];
      forall i | 0 < i < |rest| ensures StepOk(rest, i) {
        assert StepOk(ps, i + 1);
      }
      assert |fs| > 1 ==> StepOk(ps, 1);
      ChainsAreOrdered(Stage(PlaceOf(fs[0].id)), fs[1..]);
    }
  }

  lemma FieldTextStep(cnt: nat, st: State, f: Stored<TupleId>)
    requires WellStored(f) && st.cmd != NoCommand && InOrder(st.stage, PlaceOf(f.id))
    ensures MatchStep(cnt, st, FieldText(f)) == Next(st.(stage := Stage(PlaceOf(f.id)), tuples := st.tuples + [f]))
  {
    FieldTextRead(f);
    DecodeOfText(PlaceOf(f.id), f.bytes);
  }

  /** The first field of an ordered list, and the rest. */
  lemma OrderedStep(stage: nat, fs: seq<Stored<TupleId>>, rest: seq<string>)
    requires AllWellStored(fs) && OrderedFrom(stage, fs) && fs != []
    ensures WellStored(fs[0]) && AllWellStored(fs[1..]) && InOrder(stage, PlaceOf(fs[0].id))
    ensures OrderedFrom(Stage(PlaceOf(fs[0].id)), fs[1..])
    ensures LastStage(stage, fs) == LastStage(Stage(PlaceOf(fs[0].id)), fs[1..])
    ensures FieldTexts(fs) + rest == [FieldText(fs[0])] + (FieldTexts(fs[1..]) + rest)
  {
    hide FieldText, Stage, InOrder, PlaceOf;
  }

  lemma NoFields(stage: nat)
    ensures FieldTexts([]) == [] && LastStage(stage, []) == stage
  {
  }

  lemma {:induction false} FieldsRun(cnt: nat, st: State, fs: seq<Stored<TupleId>>, rest: seq<string>)
    requires AllWellStored(fs) && st.cmd != NoCommand && OrderedFrom(st.stage, fs)
    ensures MatchRun(cnt, st, FieldTexts(fs) + rest) ==
            MatchRun(cnt, st.(stage := LastStage(st.stage, fs), tuples := st.tuples + fs), rest)
    decreases |fs|
  {
    hide MatchRun, MatchStep, FieldText, FieldTexts, OrderedFrom, LastStage, AllWellStored, InOrder, Stage, PlaceOf,
         WellStored;
    if fs == [] {
      NoFields(st.stage);
      assert FieldTexts(fs) + rest == rest && st.tuples + fs == st.tuples;
    } else {
      OrderedStep(st.stage, fs, rest);
      var f, more := fs[0], fs[1..];
      var st' := st.(stage := Stage(PlaceOf(f.id)), tuples := st.tuples + [f]);
      FieldTextStep(cnt, st, f);
      RunCons(cnt, st, FieldText(f), FieldTexts(more) + rest);
      FieldsRun(cnt, st', more, rest);
      assert st.tuples + [f] + more == st.tuples + fs;
    }
  }

  lemma WordSteps(cnt: nat, cmd: RealCmd)
    ensures MatchStep(cnt, INIT, "filter") == Next(INIT)
    ensures MatchStep(cnt, INIT, CmdText(cmd)) == Next(INIT.(cmd := cmd))
  {
    Keyword(0, "filter");
    Keyword(match cmd case Add => 1 case Del => 2 case Dump => 3, CmdText(cmd));
  }

  lemma NumberOption(i: nat, key: string, n: int)
    requires i < |FILTER_TABLE| && FILTER_TABLE[i].key <= key && '=' !in key && IsPlain(key)
    requires -0x8000 <= n < 0x8000
    ensures var tok := KeyValue(key, DecSigned(n));
            IsPlain(tok) && Classify(tok) == FILTER_TABLE[i].word && ValueOf(tok).Some? && NumberOf(tok) == n
  {
    var tok := KeyValue(key, DecSigned(n));
    DecSignedIsPlain(n);
    OptionRead(i, key, DecSigned(n));
    NumberOfText(key, n, "");
    assert tok + "" == tok;
    hide Classify, ValueOf, NumberOf, KeyValue, DecSigned, IsPlain;
  }

  lemma DevStep(cnt: nat, st: State, dev: int)
    requires st.cmd != NoCommand && -0x8000 <= dev < 0x8000
    ensures MatchStep(cnt, st, KeyValue("dev", DecSigned(dev))) ==
            if 0 <= dev <= cnt then Next(st.(dev := dev)) else Refuse
  {
    hide KeyValue, Classify, ValueOf, Atoi, Short, DecSigned, IsPlain;
    CommandIsPlain(Add);
    NumberOption(4, "dev", dev);
  }

  lemma TblStep(cnt: nat, st: State, tbl: int)
    requires st.cmd != NoCommand && -0x8000 <= tbl < 0x8000
    ensures MatchStep(cnt, st, KeyValue("tbl", DecSigned(tbl))) ==
            if 0 <= tbl then Next(st.(tbl := tbl)) else Refuse
  {
    hide KeyValue, Classify, ValueOf, Atoi, Short, DecSigned, IsPlain;
    CommandIsPlain(Add);
    NumberOption(5, "tbl", tbl);
  }

  lemma FourSteps(cnt: nat, s0: State, s1: State, s2: State, s3: State, s4: State,
                  a: string, b: string, c: string, d: string, rest: seq<string>)
    requires MatchStep(cnt, s0, a) == Next(s1) && MatchStep(cnt, s1, b) == Next(s2)
    requires MatchStep(cnt, s2, c) == Next(s3) && MatchStep(cnt, s3, d) == Next(s4)
    ensures MatchRun(cnt, s0, [a, b, c, d] + rest) == MatchRun(cnt, s4, rest)
  {
    hide MatchStep, MatchRun;
    RunCons(cnt, s0, a, [b] + ([c] + ([d] + rest)));
    RunCons(cnt, s1, b, [c] + ([d] + rest));
    RunCons(cnt, s2, c, [d] + rest);
    RunCons(cnt, s3, d, rest);
    assert [a, b, c, d] + rest == [a] + ([b] + ([c] + ([d] + rest)));
  }

  lemma HeadRun(cnt: nat, c: FlowCall, rest: seq<string>)
    requires c.cmd != NoCommand && 0 <= c.dev <= cnt && c.dev < 0x8000 && 0 <= c.tbl < 0x8000
    ensures MatchRun(cnt, INIT, HeadTokens(c) + rest) == MatchRun(cnt, State(c.cmd, c.dev, c.tbl, 0, []), rest)
  {
    var s1 := INIT.(cmd := c.cmd);
    var s2 := s1.(dev := c.dev);
    WordSteps(cnt, c.cmd);
    DevStep(cnt, s1, c.dev);
    TblStep(cnt, s2, c.tbl);
    hide MatchStep, MatchRun, CmdText, KeyValue, DecSigned;
    FourSteps(cnt, INIT, INIT, s1, s2, s2.(tbl := c.tbl),
              "filter", CmdText(c.cmd), KeyValue("dev", DecSigned(c.dev)), KeyValue("tbl", DecSigned(c.tbl)), rest);
  }

  lemma OutputTextRead(a: Stored<ActionId>, tail: LineEnd)
    requires WellOutput(a)
    ensures ActionOf(OutputText(a) + tail) == ActionStep.Output(a) && !("drop" <= OutputText(a) + tail)
  {
    var n := UShort(a.bytes);
    assert Dec(n) == DecSigned(n);
    AtoiOfDec(n, tail);
    ShortBytesOfUShort(a.bytes);
    hide Dec, DecSigned, Atoi, Short, ShortBytes, UShort;
    ValueOfOption("out-port", Dec(n) + tail);
    var tok := OutputText(a) + tail;
    assert tok == "out-port" + "=" + (Dec(n) + tail);
    assert tok[..8] == "out-port";
    DropIsNotOutput(tok);
  }

  lemma OutputTextIsPlain(a: Stored<ActionId>)
    requires WellOutput(a)
    ensures IsPlain(OutputText(a))
  {
    NumeralChars(10, UShort(a.bytes));
    hide Numeral, UShort;
  }

  lemma {:induction false} OutputsRun(acts: seq<Stored<ActionId>>, xs: seq<Stored<ActionId>>, tail: LineEnd)
    requires AllOutputs(xs) && xs != []
    ensures ActionRun(acts, Ended(OutputTexts(xs), tail)) == Some(acts + xs)
    ensures DropFree(Ended(OutputTexts(xs), tail))
    decreases |xs|
  {
    hide ActionOf, OutputText;
    var x, more := xs[0], xs[1..];
    var toks := Ended(OutputTexts(xs), tail);
    if more == [] {
      OutputTextRead(x, tail);
      assert toks == [OutputText(x) + tail] && toks[1..] == [] && xs == [x];
    } else {
      OutputTextRead(x, "");
      assert OutputText(x) + "" == OutputText(x);
      EndedAppend([OutputText(x)], OutputTexts(more), tail);
      var rest := Ended(OutputTexts(more), tail);
      assert toks[0] == OutputText(x) && toks[1..] == rest;
      OutputsRun(acts + [x], more, tail);
      assert forall i :: 0 < i < |toks| ==> toks[i] == rest[i - 1];
      assert acts + [x] + more == acts + xs;
    }
  }

  predicate DropFree(toks: seq<string>) {
    forall i :: 0 <= i < |toks| ==> !("drop" <= toks[i])
  }

  lemma {:induction false} FieldTextsArePlain(fs: seq<Stored<TupleId>>)
    requires AllWellStored(fs)
    ensures AllPlain(FieldTexts(fs))
  {
    hide FieldText;
    if fs != [] {
      FieldTextRead(fs[0]);
      FieldTextsArePlain(fs[1..]);
    }
  }

  lemma {:induction false} OutputTextsArePlain(xs: seq<Stored<ActionId>>)
    requires AllOutputs(xs)
    ensures AllPlain(OutputTexts(xs))
  {
    hide OutputText;
    if xs != [] {
      OutputTextIsPlain(xs[0]);
      OutputTextsArePlain(xs[1..]);
    }
  }

  lemma FourWords(a: string, b: string, c: string, d: string)
    requires IsPlain(a) && IsPlain(b) && IsPlain(c) && IsPlain(d)
    ensures AllPlain([a, b, c, d])
  {
  }

  lemma CommandIsPlain(cmd: RealCmd)
    ensures IsPlain("filter") && IsPlain(CmdText(cmd)) && IsPlain("dev") && IsPlain("tbl")
  {
  }

  lemma HeadTokensArePlain(c: FlowCall)
    requires c.cmd != NoCommand && 0 <= c.dev < 0x8000 && 0 <= c.tbl < 0x8000
    ensures AllPlain(HeadTokens(c))
  {
    hide KeyValue, DecSigned, CmdText, IsPlain, Classify, ValueOf, NumberOf;
    CommandIsPlain(c.cmd);
    NumberOption(4, "dev", c.dev);
    NumberOption(5, "tbl", c.tbl);
    FourWords("filter", CmdText(c.cmd), KeyValue("dev", DecSigned(c.dev)), KeyValue("tbl", DecSigned(c.tbl)));
  }

  lemma PartsArePlain(a: seq<string>, b: seq<string>, t: string, c: seq<string>)
    requires AllPlain(a) && AllPlain(b) && IsPlain(t) && AllPlain(c)
    ensures AllPlain(a + b + ([t] + c)) && AllWords(a + b + ([t] + c))
  {
  }

  lemma LineTokensArePlain(c: FlowCall)
    requires c.cmd != NoCommand && AllWellStored(c.tuples) && AllOutputs(c.actions)
    requires 0 <= c.dev < 0x8000 && 0 <= c.tbl < 0x8000
    ensures AllPlain(LineTokens(c)) && AllWords(LineTokens(c))
  {
    FieldTextsArePlain(c.tuples);
    OutputTextsArePlain(c.actions);
    HeadTokensArePlain(c);
    hide FieldTexts, OutputTexts, HeadTokens;
    assert IsPlain("action");
    PartsArePlain(HeadTokens(c), FieldTexts(c.tuples), "action", OutputTexts(c.actions));
  }

  lemma ChainsOfCall(cnt: nat, c: FlowCall)
    requires WellShaped(cnt, c)
    ensures OrderedFrom(0, c.tuples)
  {
    InChainsIff(PlacesOf(c.tuples));
    assert c.tuples != [] ==> StepOk(PlacesOf(c.tuples), 0);
    ChainsAreOrdered(0, c.tuples);
  }

  /** What the action loop gets of a canonical line. */
  function Delivered(xs: seq<Stored<ActionId>>, tail: LineEnd): seq<string>
    requires AllOutputs(xs)
  {
    if xs == [] then [] else Ended(OutputTexts(xs), tail)
  }

  lemma ActionStops(cnt: nat, st: State, xs: seq<Stored<ActionId>>, tail: LineEnd)
    requires st.cmd != NoCommand && AllOutputs(xs)
    ensures MatchRun(cnt, st, Ended(ActionTokens(xs), tail)) == Matched(st, Delivered(xs, tail))
  {
    hide Classify, OutputTexts, Ended, MatchRun;
    var t := if xs == [] then "action" + tail else "action";
    ActionKeyword(tail);
    EndedActions(xs, tail);
    StopsAt(cnt, st, t, Delivered(xs, tail));
  }

  lemma ActionKeyword(tail: LineEnd)
    ensures Classify("action" + tail) == ActionWord && Classify("action") == ActionWord
  {
    assert ("action" + tail)[..6] == "action";
    Keyword(17, "action" + tail);
    Keyword(17, "action");
    hide Classify;
  }

  lemma EndedActions(xs: seq<Stored<ActionId>>, tail: LineEnd)
    requires AllOutputs(xs)
    ensures Ended(ActionTokens(xs), tail) == [if xs == [] then "action" + tail else "action"] + Delivered(xs, tail)
  {
    hide OutputText;
    if xs != [] {
      EndedAppend(["action"], OutputTexts(xs), tail);
    }
  }

  lemma StopsAt(cnt: nat, st: State, t: string, rest: seq<string>)
    requires st.cmd != NoCommand && Classify(t) == ActionWord
    ensures MatchRun(cnt, st, [t] + rest) == Matched(st, rest)
  {
    hide Classify;
    assert ([t] + rest)[1..] == rest;
  }

  lemma DeliveredRun(xs: seq<Stored<ActionId>>, tail: LineEnd)
    requires AllOutputs(xs)
    ensures ActionRun([], Delivered(xs, tail)) == Some(xs) && DropFree(Delivered(xs, tail))
  {
    if xs != [] {
      OutputsRun([], xs, tail);
      assert [] + xs == xs;
    }
  }

  lemma CanonicalParts(c: FlowCall, tail: LineEnd)
    requires c.cmd != NoCommand && AllWellStored(c.tuples) && AllOutputs(c.actions)
    ensures Ended(LineTokens(c), tail) == HeadTokens(c) + (FieldTexts(c.tuples) + Ended(ActionTokens(c.actions), tail))
  {
    hide AllWellStored, AllOutputs, HeadTokens, FieldTexts;
    EndedAppend(HeadTokens(c) + FieldTexts(c.tuples), ActionTokens(c.actions), tail);
  }

  lemma CanonicalRun(cnt: nat, c: FlowCall, tail: LineEnd)
    requires WellShaped(cnt, c)
    ensures MatchRun(cnt, INIT, Ended(LineTokens(c), tail)) ==
            Matched(State(c.cmd, c.dev, c.tbl, LastStage(0, c.tuples), c.tuples), Delivered(c.actions, tail))
  {
    hide MatchRun, ActionTokens, HeadTokens, FieldTexts, OrderedFrom, InChains, LastStage, Delivered, Ended, LineTokens;
    ChainsOfCall(cnt, c);
    CanonicalParts(c, tail);
    var st := State(c.cmd, c.dev, c.tbl, 0, []);
    var st' := st.(stage := LastStage(0, c.tuples), tuples := [] + c.tuples);
    var end := Ended(ActionTokens(c.actions), tail);
    HeadRun(cnt, c, FieldTexts(c.tuples) + end);
    FieldsRun(cnt, st, c.tuples, end);
    ActionStops(cnt, st', c.actions, tail);
    assert [] + c.tuples == c.tuples;
  }

  lemma CanonicalTokens(cnt: nat, c: FlowCall, tail: LineEnd)
    requires WellShaped(cnt, c)
    ensures Tokens(Some(Render(c) + tail)) == Ended(LineTokens(c), tail)
  {
    LineTokensArePlain(c);
    hide LineTokens;
    TokensOfEnded(LineTokens(c), tail);
  }

  lemma RenderUnbounded(cnt: nat, c: FlowCall, tail: LineEnd)
    requires WellShaped(cnt, c)
    ensures UnboundedLine(cnt, Render(c) + tail) == Accepted(Some(c))
    ensures DropFree(ActionPart(Tokens(Some(Render(c) + tail))))
  {
    CanonicalTokens(cnt, c, tail);
    CanonicalRun(cnt, c, tail);
    DeliveredRun(c.actions, tail);
    MatchRunParts(cnt, Ended(LineTokens(c), tail));
    hide MatchRun, ActionRun, Ended, LineTokens, Render, Delivered, LastStage, Tokens, ActionPart, HasActionWord,
         FieldPart, DropFree;
  }

  /** Parsing the canonical line of a call gives the call back, with or without the newline of a
      command file, exactly if the call fits the arrays; otherwise the parser overruns them. */
  lemma ParseOfRender(cnt: nat, c: FlowCall, tail: LineEnd)
    requires WellShaped(cnt, c)
    ensures FilterLine(cnt, Render(c) + tail) == if FitsArrays(c) then Accepted(Some(c)) else Undefined
  {
    RenderUnbounded(cnt, c, tail);
    AcceptedFitsIff(cnt, Render(c) + tail, c);
    hide UnboundedLine, LineFits, Render, Outputs, ActionPart;
  }
}
