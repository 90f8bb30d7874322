/** Command files written from flow calls: loading such a file makes exactly these calls. */
module CanonicalFiles {
  import opened CStrings
  import opened Numerals
  import opened FlowTypes
  import opened FilterSpec
  import opened FilterGrammar
  import opened FilterLines
  import opened FlowModules
  import opened Files
  import opened RoundTrip

  // ----- Canonical lines are short

  lemma ValueLength(pos: Place, bytes: seq<Byte>)
    requires FieldBytes(CHAIN[pos], bytes)
    ensures |ValueText(pos, bytes)| <= 23
  {
    PlaceOfChain(pos);
    if bytes == [] {
    } else if pos == 2 || pos == 3 {
      SeparateLength(16, ':', bytes);
    } else if pos == 5 || pos == 6 {
      SeparateLength(10, '.', Reversed4(bytes));
    } else {
      OctetAndShortLengths(16, UShort(bytes));
      OctetAndShortLengths(10, UShort(bytes));
    }
  }

  lemma FieldLength(f: Stored<TupleId>)
    requires WellStored(f)
    ensures |FieldText(f)| <= 35
  {
    var pos := PlaceOf(f.id);
    ValueLength(pos, f.bytes);
    assert |FIELD_KEYS[pos]| <= 11;
    hide ValueText;
  }

  predicate AllShort(ts: seq<string>) {
    forall i :: 0 <= i < |ts| ==> |ts[i]| <= 35
  }

  lemma {:induction false} FieldLengths(fs: seq<Stored<TupleId>>)
    requires AllWellStored(fs)
    ensures |FieldTexts(fs)| == |fs| && AllShort(FieldTexts(fs))
  {
    hide FieldText;
    if fs != [] {
      FieldLength(fs[0]);
      FieldLengths(fs[1..]);
    }
  }

  lemma OutputLength(a: Stored<ActionId>)
    requires WellOutput(a)
    ensures |OutputText(a)| <= 35
  {
    OctetAndShortLengths(10, UShort(a.bytes));
    hide Numeral;
  }

  lemma {:induction false} OutputLengths(xs: seq<Stored<ActionId>>)
    requires AllOutputs(xs)
    ensures |OutputTexts(xs)| == |xs| && AllShort(OutputTexts(xs))
  {
    hide OutputText;
    if xs != [] {
      OutputLength(xs[0]);
      OutputLengths(xs[1..]);
    }
  }

  lemma HeadLengths(c: FlowCall)
    requires c.cmd != NoCommand && 0 <= c.dev < 0x8000 && 0 <= c.tbl < 0x8000
    ensures |HeadTokens(c)| == 4 && AllShort(HeadTokens(c))
  {
    DecSignedLength(c.dev);
    DecSignedLength(c.tbl);
    hide DecSigned;
  }

  /** The at most 55 tokens of a canonical line, and its newline, fit the buffer of fgets. */
  lemma RenderFitsBuffer(cnt: nat, c: FlowCall)
    requires WellFormed(cnt, c)
    ensures FitsBuffer(Render(c))
  {
    hide HeadTokens, FieldTexts, OutputTexts, Join, AllWellStored, AllOutputs;
    FieldLengths(c.tuples);
    OutputLengths(c.actions);
    HeadLengths(c);
    JoinLength(LineTokens(c), 35);
    LineTokensArePlain(c);
    JoinOfPlain(LineTokens(c));
  }

  // ----- Files of canonical lines

  ghost predicate AllWellFormed(cnt: nat, cs: seq<FlowCall>) {
    forall i :: 0 <= i < |cs| ==> WellFormed(cnt, cs[i])
  }

  ghost function RenderedLines(cnt: nat, cs: seq<FlowCall>): seq<string>
    requires AllWellFormed(cnt, cs)
  {
    if cs == [] then [] else assert WellFormed(cnt, cs[0]); [Render(cs[0])] + RenderedLines(cnt, cs[1..])
  }

  /** One canonical line for every call, each ended by a newline. */
  ghost function FileText(cnt: nat, cs: seq<FlowCall>): string
    requires AllWellFormed(cnt, cs)
  {
    LinesText(RenderedLines(cnt, cs))
  }

  lemma {:induction false} RenderedLinesFit(cnt: nat, cs: seq<FlowCall>)
    requires AllWellFormed(cnt, cs)
    ensures forall i :: 0 <= i < |RenderedLines(cnt, cs)| ==> FitsBuffer(RenderedLines(cnt, cs)[i])
  {
    hide FitsBuffer, Render;
    if cs != [] {
      RenderFitsBuffer(cnt, cs[0]);
      RenderedLinesFit(cnt, cs[1..]);
    }
  }

  lemma CanonicalLine(cnt: nat, c: FlowCall)
    requires WellFormed(cnt, c)
    ensures LineCalls(cnt, Render(c) + "\n") == [c] && LineDefined(cnt, Render(c) + "\n")
  {
    ParseOfRender(cnt, c, "\n");
  }

  lemma {:induction false} TerminatedLines(cnt: nat, cs: seq<FlowCall>)
    requires AllWellFormed(cnt, cs)
    ensures FileCalls(cnt, Terminated(RenderedLines(cnt, cs))) == cs
    ensures LinesDefined(cnt, Terminated(RenderedLines(cnt, cs)))
  {
    hide FilterLine, LineTokens, Render;
    if cs != [] {
      var c := cs[0];
      assert WellFormed(cnt, c);
      var line, more := Render(c) + "\n", Terminated(RenderedLines(cnt, cs[1..]));
      CanonicalLine(cnt, c);
      TerminatedLines(cnt, cs[1..]);
      FlatMapAppend(CallsOfLine(cnt), [line], more);
      assert Terminated(RenderedLines(cnt, cs)) == [line] + more;
      assert [c] + cs[1..] == cs;
    }
  }

  /** Writing well-formed calls to a file and loading it is the identity, whatever the calls are. */
  lemma LoadOfFileText(cnt: nat, cs: seq<FlowCall>)
    requires AllWellFormed(cnt, cs)
    ensures FileCalls(cnt, Pieces(FileText(cnt, cs))) == cs
    ensures LinesDefined(cnt, Pieces(FileText(cnt, cs)))
  {
    RenderedLinesFit(cnt, cs);
    PiecesOfLines(RenderedLines(cnt, cs));
    TerminatedLines(cnt, cs);
    hide RenderedLines, FitsBuffer, LinesText, Terminated, FileCalls, LinesDefined, Pieces;
  }

  // ----- Filter commands at the shell

  /** A line that starts with "filter" makes the call of its tokens if it is accepted and has a
      command word, and none otherwise. */
  lemma FilterCommand(cnt: nat, files: FileStore, cmd: string)
    requires "filter" <= cmd
    ensures CliCalls(cnt, files, cmd) ==
            if FilterLine(cnt, cmd).Accepted? && HasCommand(FieldPart(Tokens(Some(cmd))))
            then [CallOf(Tokens(Some(cmd)))] else []
  {
    hide FilterLine, HasCommand, CallOf, FieldPart, Tokens;
    FirstCharacters(cmd);
    LineLanguage(cnt, cmd);
  }

  lemma FirstCharacters(cmd: string)
    ensures "filter" <= cmd ==> !("help" <= cmd) && !("show" <= cmd) && !("load" <= cmd)
  {
    assert "filter"[0] == 'f' && "help"[0] == 'h' && "show"[0] == 's' && "load"[0] == 'l';
  }

  /** Any other line but a load line makes none. */
  lemma OtherCommand(cnt: nat, files: FileStore, cmd: string)
    requires !("filter" <= cmd) && !("load" <= cmd)
    ensures CliCalls(cnt, files, cmd) == []
  {
  }

  /** The canonical line of a call, as a command, makes this call. */
  lemma CanonicalCommand(cnt: nat, files: FileStore, c: FlowCall)
    requires WellFormed(cnt, c)
    ensures CliCalls(cnt, files, Render(c)) == [c]
  {
    hide FilterLine, Render;
    ParseOfRender(cnt, c, "");
    assert Render(c) + "" == Render(c);
    RenderStarts(c);
    FirstCharacters(Render(c));
  }

  lemma RenderStarts(c: FlowCall)
    requires c.cmd != NoCommand && AllWellStored(c.tuples) && AllOutputs(c.actions)
    ensures "filter" <= Render(c)
  {
    hide KeyValue, CmdText, DecSigned, FieldTexts, ActionTokens;
    var ts := LineTokens(c);
    assert ts[0] == "filter" && |ts| > 1;
    assert Render(c) == "filter" + " " + Join(ts[1..]);
    assert Render(c)[..6] == "filter";
  }

  // ----- The load command

  lemma LoadWord(c: char, name: string)
    ensures var cmd := LoadLine(c, name);
            && "load" <= cmd && !("help" <= cmd) && !("filter" <= cmd) && !("show" <= cmd)
            && cmd[4..] == [c] + name && cmd[4..][1..] == name
  {
    var cmd := LoadLine(c, name);
    assert cmd[..4] == "load" && cmd[0] == 'l';
    assert "help"[0] == 'h' && "filter"[0] == 'f' && "show"[0] == 's';
  }

  /** A load line makes the calls of the file that it names if that file exists and its name has at
      least four characters, and none otherwise; a newline at the end belongs to the name. */
  lemma LoadCalls(cnt: nat, files: FileStore, c: char, name: string)
    ensures CliCalls(cnt, files, LoadLine(c, name)) ==
            if |name| >= 4 && name in files then FileCalls(cnt, Pieces(files[name])) else []
  {
    hide FileCalls, Pieces, LoadLine;
    LoadWord(c, name);
    var cmd := LoadLine(c, name);
    assert |[c] + name| == 1 + |name|;
    if !(|name| >= 4 && name in files) {
      assert LoadedLines(files, cmd[4..]) == [];
      NoLines(cnt);
    }
  }

  /** Loading a file of canonical lines makes exactly its calls, unless its name has fewer than four
      characters: then the program makes none. */
  lemma LoadCommand(cnt: nat, files: FileStore, name: string, cs: seq<FlowCall>)
    requires AllWellFormed(cnt, cs) && name in files && files[name] == FileText(cnt, cs)
    ensures CliCalls(cnt, files, LoadLine(' ', name)) == if |name| >= 4 then cs else []
  {
    hide FileText, CliCalls, FileCalls, LoadLine, LinesDefined, AllWellFormed, Pieces;
    LoadOfFileText(cnt, cs);
    LoadCalls(cnt, files, ' ', name);
  }
}
