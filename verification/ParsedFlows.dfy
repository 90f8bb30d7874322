/** The flows that the filter parser builds: exactly the well-formed ones, each with its normal
    form and its dump. */
module ParsedFlows {
  import opened CStrings
  import opened Numerals
  import opened FlowTypes
  import opened FilterSpec
  import opened FilterGrammar
  import opened FilterLines
  import opened FlowDump
  import opened DumpUnique
  import opened RoundTrip

  // ----- The image of the parser

  predicate Shape(f: Stored<TupleId>, pos: Place) {
    f.id == CHAIN[pos] && FieldBytes(f.id, f.bytes)
  }

  lemma DecodedShape(cnt: nat, tok: string)
    requires ValidToken(cnt, tok) && Classify(tok).Field?
    ensures Shape(StoreOf(tok), Classify(tok).pos)
    ensures Determined(StoreOf(tok)) <==> !SpoiltAddress(tok)
  {
    PlaceOfChain(Classify(tok).pos);
  }

  lemma {:induction false} StoresShape(cnt: nat, toks: seq<string>)
    requires ValidTokens(cnt, toks)
    ensures |Stores(toks)| == |Places(toks)|
    ensures forall i :: 0 <= i < |Stores(toks)| ==> Shape(Stores(toks)[i], Places(toks)[i])
  {
    if toks != [] {
      var t := toks[|toks| - 1];
      StoresShape(cnt, toks[..|toks| - 1]);
      assert ValidToken(cnt, t);
      if Classify(t).Field? {
        DecodedShape(cnt, t);
      }
      hide Shape, ValidToken, StoreOf;
    }
  }

  lemma {:induction false} OutputsShape(toks: seq<string>)
    ensures AllOutputs(Outputs(toks))
  {
    if toks != [] {
      OutputsShape(toks[1..]);
    }
  }

  lemma ShapesAreWellStored(fs: seq<Stored<TupleId>>, ps: seq<Place>)
    requires |fs| == |ps| && forall i :: 0 <= i < |fs| ==> Shape(fs[i], ps[i])
    ensures AllWellStored(fs) && PlacesOf(fs) == ps
  {
    forall i | 0 <= i < |fs| ensures WellStored(fs[i]) && PlaceOf(fs[i].id) == ps[i] {
      assert Shape(fs[i], ps[i]);
      PlaceOfChain(ps[i]);
    }
  }

  lemma {:induction false} LastNumberRange(cnt: nat, toks: seq<string>)
    requires ValidTokens(cnt, toks)
    ensures 0 <= LastNumber(Dev, toks) < 0x8000 && 0 <= LastNumber(Tbl, toks) < 0x8000
  {
    if toks != [] {
      LastNumberRange(cnt, toks[..|toks| - 1]);
      assert ValidToken(cnt, toks[|toks| - 1]);
    }
  }

  /** Every call that the parser delivers is a well-formed call. */
  lemma ParsedIsWellFormed(cnt: nat, line: string, c: FlowCall)
    requires FilterLine(cnt, line) == Accepted(Some(c))
    ensures WellFormed(cnt, c)
  {
    var toks := Tokens(Some(line));
    var pre := FieldPart(toks);
    AcceptedCall(cnt, line, c);
    HasCommandIff(pre);
    StoresShape(cnt, pre);
    ShapesAreWellStored(Stores(pre), Places(pre));
    OutputsShape(ActionPart(toks));
    LastNumberRange(cnt, pre);
  }

  /** The well-formed calls are exactly the ones that some command line asks for. */
  lemma WellFormedIff(cnt: nat, c: FlowCall)
    ensures WellFormed(cnt, c) <==> exists line :: FilterLine(cnt, line) == Accepted(Some(c))
  {
    if WellFormed(cnt, c) {
      ParseOfRender(cnt, c, "");
      assert FilterLine(cnt, Render(c) + "") == Accepted(Some(c));
    }
    if line :| FilterLine(cnt, line) == Accepted(Some(c)) {
      ParsedIsWellFormed(cnt, line, c);
    }
  }

  /** Normal form: the canonical text of what a line means does what the line does, in the arrays too. */
  lemma NormalForm(cnt: nat, line: string, c: FlowCall, tail: LineEnd)
    requires FilterLine(cnt, line) == Accepted(Some(c))
    ensures WellFormed(cnt, c) && FilterLine(cnt, Render(c) + tail) == FilterLine(cnt, line)
  {
    ParsedIsWellFormed(cnt, line, c);
    ParseOfRender(cnt, c, tail);
  }

  // ----- Lines that determine every byte that the dump shows

  /** An IPv4 option whose value inet_pton does not take: accepted, but it writes no byte. */
  predicate SpoiltAddress(tok: string) {
    && (Classify(tok) == Field(5) || Classify(tok) == Field(6))
    && ValueOf(tok).Some? && InetPton(ValueOf(tok).value).None?
  }

  predicate NoneSpoilt(toks: seq<string>) {
    forall i :: 0 <= i < |toks| ==> !SpoiltAddress(toks[i])
  }

  /** Every IPv4 option before the action word has a well-formed address. */
  predicate ReadsAddresses(line: string) {
    NoneSpoilt(FieldPart(Tokens(Some(line))))
  }

  lemma {:induction false} DeterminedIff(cnt: nat, toks: seq<string>)
    requires ValidTokens(cnt, toks)
    ensures AllDetermined(Stores(toks)) <==> NoneSpoilt(toks)
  {
    hide AllDetermined, NoneSpoilt, ValidToken, Classify, StoreOf, SpoiltAddress, Determined;
    if toks == [] {
      NothingStored();
    } else {
      var front, t := toks[..|toks| - 1], toks[|toks| - 1];
      assert toks == front + [t];
      DeterminedIff(cnt, front);
      assert ValidToken(cnt, t);
      NoneSpoiltSnoc(front, t);
      if Classify(t).Field? {
        DecodedShape(cnt, t);
        DeterminedSnoc(Stores(front), StoreOf(t));
      } else {
        OnlyFieldsSpoil(t);
        assert Stores(toks) == Stores(front);
      }
    }
  }

  lemma NothingStored()
    ensures AllDetermined(Stores([])) && NoneSpoilt([])
  {
  }

  lemma OnlyFieldsSpoil(t: string)
    requires !Classify(t).Field?
    ensures !SpoiltAddress(t)
  {
    hide Classify;
  }

  lemma NoneSpoiltSnoc(front: seq<string>, t: string)
    ensures NoneSpoilt(front + [t]) <==> NoneSpoilt(front) && !SpoiltAddress(t)
  {
    hide SpoiltAddress;
    var all := front + [t];
    assert all[|front|] == t && forall i :: 0 <= i < |front| ==> all[i] == front[i];
  }

  lemma DeterminedSnoc(fs: seq<Stored<TupleId>>, f: Stored<TupleId>)
    ensures AllDetermined(fs + [f]) <==> AllDetermined(fs) && Determined(f)
  {
    hide Determined;
    var all := fs + [f];
    assert all[|fs|] == f && forall i :: 0 <= i < |fs| ==> all[i] == fs[i];
  }

  /** An accepted line determines all bytes that the dump shows exactly if every IPv4 option in it
      has a well-formed address. */
  lemma LineDeterminesIff(cnt: nat, line: string, c: FlowCall)
    requires FilterLine(cnt, line) == Accepted(Some(c))
    ensures AllDetermined(c.tuples) <==> ReadsAddresses(line)
  {
    AcceptedCall(cnt, line, c);
    DeterminedIff(cnt, FieldPart(Tokens(Some(line))));
    hide Tokens, FieldPart, ActionPart, Stores, AllDetermined, NoneSpoilt, ValidTokens;
  }

  // ----- Dumps of parsed flows

  lemma {:induction false} ShownIsStored(fs: seq<Stored<TupleId>>)
    requires AllWellStored(fs) && AllDetermined(fs)
    ensures ShownTuples(fs) == fs
  {
    if fs != [] {
      assert WellStored(fs[0]);
      assert fs[0].bytes[..Width(fs[0].id)] == fs[0].bytes;
      ShownIsStored(fs[1..]);
    }
  }

  lemma OutputsAreNameable(xs: seq<Stored<ActionId>>)
    requires AllOutputs(xs)
    ensures AllNameable(xs)
  {
    forall i | 0 <= i < |xs| ensures Nameable(xs[i]) {
      assert WellOutput(xs[i]);
    }
  }

  predicate SameLowBytes(xs: seq<Stored<ActionId>>, ys: seq<Stored<ActionId>>)
    requires AllOutputs(xs) && AllOutputs(ys)
  {
    |xs| == |ys| && forall i :: 0 <= i < |xs| ==> xs[i].bytes[0] == ys[i].bytes[0]
  }

  lemma {:induction false} ShownActionsIff(xs: seq<Stored<ActionId>>, ys: seq<Stored<ActionId>>)
    requires AllOutputs(xs) && AllOutputs(ys) && AllNameable(xs) && AllNameable(ys)
    ensures ShownActions(xs) == ShownActions(ys) <==> SameLowBytes(xs, ys)
    decreases |xs|
  {
    if xs != [] && ys != [] {
      var p, q := xs[1..], ys[1..];
      ShownActionsIff(p, q);
      assert WellOutput(xs[0]) && WellOutput(ys[0]);
      assert ShownActions(xs) == ShownActions(ys) <==>
             ShownAction(xs[0]) == ShownAction(ys[0]) && ShownActions(p) == ShownActions(q) by {
        assert ShownActions(xs)[1..] == ShownActions(p) && ShownActions(ys)[1..] == ShownActions(q);
      }
      assert ShownAction(xs[0]) == ShownAction(ys[0]) <==> xs[0].bytes[0] == ys[0].bytes[0] by {
        assert ShownAction(xs[0]).bytes[0] == xs[0].bytes[0] && ShownAction(ys[0]).bytes[0] == ys[0].bytes[0];
        assert xs[0].bytes[..1] == [xs[0].bytes[0]] && ys[0].bytes[..1] == [ys[0].bytes[0]];
      }
      LowBytesStep(xs, ys);
    }
  }

  lemma LowBytesStep(xs: seq<Stored<ActionId>>, ys: seq<Stored<ActionId>>)
    requires AllOutputs(xs) && AllOutputs(ys) && xs != [] && ys != []
    ensures SameLowBytes(xs, ys) <==> xs[0].bytes[0] == ys[0].bytes[0] && SameLowBytes(xs[1..], ys[1..])
  {
    var p, q := xs[1..], ys[1..];
    assert forall i :: 0 <= i < |p| ==> p[i] == xs[i + 1];
    assert forall i :: 0 <= i < |q| ==> q[i] == ys[i + 1];
    if SameLowBytes(xs, ys) {
      forall i | 0 <= i < |p| ensures p[i].bytes[0] == q[i].bytes[0] {
        assert p[i] == xs[i + 1] && q[i] == ys[i + 1];
      }
    }
    if xs[0].bytes[0] == ys[0].bytes[0] && SameLowBytes(p, q) {
      forall i | 0 <= i < |xs| ensures xs[i].bytes[0] == ys[i].bytes[0] {
        assert i > 0 ==> xs[i] == p[i - 1] && ys[i] == q[i - 1];
      }
    }
  }

  function DumpOfCall(c: FlowCall): string
    requires AllDetermined(c.tuples) && AllNameable(c.actions)
  {
    DumpText(c.dev, c.tbl, c.tuples, c.actions)
  }

  /** What the dump shows of a call whose addresses were read is what the call stores. */
  lemma CallShown(cnt: nat, line: string, c: FlowCall)
    requires FilterLine(cnt, line) == Accepted(Some(c)) && ReadsAddresses(line)
    ensures AllDetermined(c.tuples) && ShownTuples(c.tuples) == c.tuples
    ensures AllOutputs(c.actions) && AllNameable(c.actions)
  {
    ParsedIsWellFormed(cnt, line, c);
    LineDeterminesIff(cnt, line, c);
    ShownIsStored(c.tuples);
    OutputsAreNameable(c.actions);
  }

  /** Two command lines print the same dump exactly if they name the same device, table and
      tuples, and ports with the same low bytes; ports 1 and 257 cannot be told apart. */
  lemma LinesWithEqualDumps(cnt: nat, line: string, c: FlowCall, line': string, c': FlowCall)
    requires FilterLine(cnt, line) == Accepted(Some(c)) && ReadsAddresses(line)
    requires FilterLine(cnt, line') == Accepted(Some(c')) && ReadsAddresses(line')
    ensures AllDetermined(c.tuples) && AllOutputs(c.actions) && AllNameable(c.actions)
    ensures AllDetermined(c'.tuples) && AllOutputs(c'.actions) && AllNameable(c'.actions)
    ensures DumpOfCall(c) == DumpOfCall(c') <==>
            c.dev == c'.dev && c.tbl == c'.tbl && c.tuples == c'.tuples && SameLowBytes(c.actions, c'.actions)
  {
    CallShown(cnt, line, c);
    CallShown(cnt, line', c');
    ShownActionsIff(c.actions, c'.actions);
    DumpUniqueIff(c.dev, c.tbl, c.tuples, c.actions, c'.dev, c'.tbl, c'.tuples, c'.actions);
    hide FilterLine, ReadsAddresses, AllDetermined, AllOutputs, AllNameable, SameLowBytes, ShownTuples, ShownActions,
         DumpText;
  }

  // ----- When the dump is determined

  /** The stored bytes, and b in all the other ones. */
  function Padded(bytes: seq<Byte>, b: Byte): Block
    requires |bytes| <= 16
  {
    bytes + seq(16 - |bytes|, i => b)
  }

  function PaddedTuples(fs: seq<Stored<TupleId>>, b: Byte): seq<Tuple>
    requires AllWellStored(fs)
  {
    seq(|fs|, i requires 0 <= i < |fs| => Tuple(fs[i].id, Padded(fs[i].bytes, b)))
  }

  function PaddedActions(xs: seq<Stored<ActionId>>, b: Byte): seq<Action>
    requires AllOutputs(xs)
  {
    seq(|xs|, i requires 0 <= i < |xs| => Action(xs[i].id, Padded(xs[i].bytes, b)))
  }

  /** Records that a device may be given for this call. */
  ghost predicate Realize(ts: seq<Tuple>, ds: seq<Action>, c: FlowCall) {
    && TuplesHold(ts, c.tuples) && ActionsHold(ds, c.actions)
    && forall i :: 0 <= i < |ds| ==> ds[i].id < |ACTION_NAMES|
  }

  /** The dump is the same for all of them. */
  ghost predicate DumpIsDetermined(c: FlowCall) {
    forall ts, ts', ds, ds' :: Realize(ts, ds, c) && Realize(ts', ds', c) ==>
      DumpOfRecords(c.dev, c.tbl, ts, ds) == DumpOfRecords(c.dev, c.tbl, ts', ds')
  }

  lemma PaddedRealize(c: FlowCall, b: Byte)
    requires AllWellStored(c.tuples) && AllOutputs(c.actions)
    ensures Realize(PaddedTuples(c.tuples, b), PaddedActions(c.actions, b), c)
  {
    var ts, ds := PaddedTuples(c.tuples, b), PaddedActions(c.actions, b);
    forall i | 0 <= i < |c.tuples| ensures TupleHolds(ts[i], c.tuples[i]) {
      assert WellStored(c.tuples[i]);
    }
    forall i | 0 <= i < |c.actions| ensures ActionHolds(ds[i], c.actions[i]) && ds[i].id == OUT_PORT {
      assert WellOutput(c.actions[i]);
    }
  }

  lemma {:induction false} ShownAt(fs: seq<Stored<TupleId>>, i: nat)
    requires AllDetermined(fs) && i < |fs|
    ensures i < |ShownTuples(fs)| && ShownTuples(fs)[i] == Shown(fs[i])
  {
    if i > 0 {
      ShownAt(fs[1..], i - 1);
    }
  }

  /** Different padding shows in the dump where a tuple is not determined. */
  lemma PaddingShows(fs: seq<Stored<TupleId>>, i: nat)
    requires AllWellStored(fs) && i < |fs| && !Determined(fs[i])
    ensures AllDetermined(AllTuples(PaddedTuples(fs, 0))) && AllDetermined(AllTuples(PaddedTuples(fs, 1)))
    ensures ShownTuples(AllTuples(PaddedTuples(fs, 0))) != ShownTuples(AllTuples(PaddedTuples(fs, 1)))
  {
    var zeros, ones := AllTuples(PaddedTuples(fs, 0)), AllTuples(PaddedTuples(fs, 1));
    ShownAt(zeros, i);
    ShownAt(ones, i);
    assert WellStored(fs[i]) && fs[i].bytes == [] && Width(fs[i].id) == 4;
    assert Shown(zeros[i]).bytes[0] == 0 && Shown(ones[i]).bytes[0] == 1;
  }

  lemma NameableActions(ds: seq<Action>)
    requires forall i :: 0 <= i < |ds| ==> ds[i].id < |ACTION_NAMES|
    ensures AllNameable(AllActions(ds))
  {
  }

  lemma PaddedDumpsDiffer(c: FlowCall, i: nat)
    requires AllWellStored(c.tuples) && AllOutputs(c.actions)
    requires i < |c.tuples| && !Determined(c.tuples[i])
    ensures !DumpIsDetermined(c)
  {
    hide TuplesHold, ActionsHold, ShownTuples, ShownActions, DumpText, AllTuples, AllActions, PaddedTuples,
         PaddedActions;
    PaddedRealize(c, 0);
    PaddedRealize(c, 1);
    PaddingShows(c.tuples, i);
    var zeros, ones := PaddedTuples(c.tuples, 0), PaddedTuples(c.tuples, 1);
    var ds, ds' := PaddedActions(c.actions, 0), PaddedActions(c.actions, 1);
    assert Realize(zeros, ds, c) && Realize(ones, ds', c);
    assert AllNameable(AllActions(ds)) && AllNameable(AllActions(ds')) by {
      NameableActions(ds);
      NameableActions(ds');
    }
    DumpUniqueIff(c.dev, c.tbl, AllTuples(zeros), AllActions(ds), c.dev, c.tbl, AllTuples(ones), AllActions(ds'));
  }

  /** The line alone decides what the device dumps exactly if every IPv4 option in it has a
      well-formed address. */
  lemma DumpDeterminedIff(cnt: nat, line: string, c: FlowCall)
    requires FilterLine(cnt, line) == Accepted(Some(c))
    ensures DumpIsDetermined(c) <==> ReadsAddresses(line)
  {
    ParsedIsWellFormed(cnt, line, c);
    LineDeterminesIff(cnt, line, c);
    if ReadsAddresses(line) {
      CallShown(cnt, line, c);
      forall ts, ts', ds, ds' | Realize(ts, ds, c) && Realize(ts', ds', c)
        ensures DumpOfRecords(c.dev, c.tbl, ts, ds) == DumpOfRecords(c.dev, c.tbl, ts', ds')
      {
        DumpOfHolders(c.dev, c.tbl, ts, c.tuples, ds, c.actions);
        DumpOfHolders(c.dev, c.tbl, ts', c.tuples, ds', c.actions);
      }
    } else {
      var i :| 0 <= i < |c.tuples| && !Determined(c.tuples[i]);
      PaddedDumpsDiffer(c, i);
    }
  }

  // ----- What the dump shows of an option value

  /** The value column of the dump for an option value that the parser accepts. */
  function ShownText(pos: Place, v: string): string
    requires Decode(pos, v).Bytes? && |Decode(pos, v).bytes| == Width(CHAIN[pos])
  {
    TupleValue(Stored(CHAIN[pos], Decode(pos, v).bytes))
  }

  /** Any number is shown modulo 65536, so 0..65535 are shown as they were given. */
  lemma ShownNumber(pos: Place, n: int)
    requires pos !in {2, 3, 4, 5, 6}
    ensures Decode(pos, DecSigned(n)).Bytes? && |Decode(pos, DecSigned(n)).bytes| == Width(CHAIN[pos])
    ensures ShownText(pos, DecSigned(n)) == Dec(n % 0x10000) + "\n"
  {
    AtoiOfWholeDec(n);
    StoreShortReadUnsigned(n);
    PlaceOfChain(pos);
  }

  lemma ShownType(n: nat)
    ensures Decode(4, "0x" + Hex(n)).Bytes? && |Decode(4, "0x" + Hex(n)).bytes| == Width(CHAIN[4])
    ensures ShownText(4, "0x" + Hex(n)) == Hex(n % 0x10000) + "\n"
  {
    StrtolOfWholeHex(n);
    StoreShortReadUnsigned(n);
    PlaceOfChain(4);
  }

  lemma ShownMac(pos: Place, octets: seq<Byte>)
    requires (pos == 2 || pos == 3) && |octets| == 6
    ensures Decode(pos, MacText(octets)) == Bytes(octets)
    ensures |octets| == Width(CHAIN[pos]) && ShownText(pos, MacText(octets)) == MacText(octets) + " " + "\n"
  {
    EtherAtonOfText(octets);
    PlaceOfChain(pos);
    assert octets[..6] == octets;
  }

  /** An IPv4 address is shown back to front. */
  lemma ShownAddress(pos: Place, q: seq<Byte>)
    requires (pos == 5 || pos == 6) && |q| == 4
    ensures Decode(pos, QuadText(q)) == Bytes(Reversed4(q)) && Width(CHAIN[pos]) == 4
    ensures ShownText(pos, QuadText(q)) == QuadText(Reversed4(q)) + "\n"
  {
    InetPtonIff(QuadText(q), q);
    PlaceOfChain(pos);
    assert Reversed4(q)[..4] == Reversed4(q);
  }

  /** An address that ends a line of a command file is not taken: the newline of fgets belongs to
      its token, and inet_pton refuses it without the parser noticing. */
  lemma LineEndSpoilsAddress(pos: Place, q: seq<Byte>)
    requires (pos == 5 || pos == 6) && |q| == 4
    ensures Decode(pos, QuadText(q) + "\n") == Bytes([])
  {
    var v := QuadText(q) + "\n";
    var r := InetPton(v);
    assert v[|v| - 1] == '\n';
    if r.Some? {
      InetPtonIff(v, r.value);
      SeparateChars(10, '.', r.value);
    }
  }

  /** Entering the address that the dump shows, and dumping again, shows the address first entered. */
  lemma AddressInvolution(pos: Place, v: string) returns (shown: string)
    requires (pos == 5 || pos == 6) && InetPton(v).Some?
    ensures |Decode(pos, v).bytes| == Width(CHAIN[pos]) && ShownText(pos, v) == shown + "\n"
    ensures InetPton(shown).Some?
    ensures |Decode(pos, shown).bytes| == Width(CHAIN[pos]) && ShownText(pos, shown) == v + "\n"
  {
    var q := InetPton(v).value;
    InetPtonIff(v, q);
    shown := QuadText(Reversed4(q));
    InetPtonIff(shown, Reversed4(q));
    ShownAddress(pos, q);
    ShownAddress(pos, Reversed4(q));
    assert Reversed4(Reversed4(q)) == q;
  }
}
