/** Command files written from bridge calls: loading such a file makes exactly these calls. */
module BridgeFiles {
  import opened CStrings
  import opened Numerals
  import opened BridgeSpec
  import opened BridgeLoad
  import opened BridgeText
  import opened Files
  import opened LoadEnds

  // ----- Canonical lines are short

  lemma OptionLength(op: BrOp, key: Key, n: int)
    requires Needs(op, key) && -0x8000 <= n < 0x8000
    ensures |OptionText(op, key, n)| <= 12
  {
    DecSignedLength(n);
    hide DecSigned;
  }

  lemma OptionIsPlain(op: BrOp, key: Key, n: int)
    requires Needs(op, key)
    ensures IsPlain(OptionText(op, key, n))
  {
    KeyIsPlain(op, key);
    DecSignedIsPlain(n);
    hide DecSigned, KeyText, ThirdWord;
  }

  lemma KeyIsPlain(op: BrOp, key: Key)
    requires Needs(op, key)
    ensures IsPlain(KeyText(op, key))
  {
  }

  lemma OwnWordIsPlain(op: BrOp)
    ensures IsPlain(OwnWord(op).0) && |OwnWord(op).0| <= 12
  {
  }

  predicate Fine(t: string) {
    IsPlain(t) && |t| <= 12
  }

  lemma OptionIsFine(op: BrOp, key: Key, n: int)
    requires Needs(op, key) && -0x8000 <= n < 0x8000
    ensures Fine(OptionText(op, key, n))
  {
    OptionLength(op, key, n);
    OptionIsPlain(op, key, n);
    hide OptionText;
  }

  lemma RenderFitsBuffer(cnt: nat, c: BridgeCall)
    requires WellFormedCall(cnt, c)
    ensures FitsBuffer(Render(c))
  {
    hide OptionText, OwnWord, Join, IsPlain, ThirdWord;
    var ts := LineTokens(c);
    OwnWordIsPlain(c.op);
    OptionIsFine(c.op, DevKey, c.dev);
    OptionIsFine(c.op, BrKey, c.br);
    if Needs(c.op, ThirdKey) {
      OptionIsFine(c.op, ThirdKey, c.third);
    }
    assert forall i :: 0 <= i < |ts| ==> Fine(ts[i]);
    JoinLength(ts, 12);
    JoinOfPlain(ts);
  }

  // ----- Files of canonical lines

  predicate AllWellFormed(cnt: nat, cs: seq<BridgeCall>) {
    forall i :: 0 <= i < |cs| ==> WellFormedCall(cnt, cs[i])
  }

  function RenderedLines(cs: seq<BridgeCall>): seq<string> {
    if cs == [] then [] else [Render(cs[0])] + RenderedLines(cs[1..])
  }

  /** One canonical line for every call, each ended by a newline. */
  function FileText(cs: seq<BridgeCall>): string {
    LinesText(RenderedLines(cs))
  }

  lemma {:induction false} RenderedLinesFit(cnt: nat, cs: seq<BridgeCall>)
    requires AllWellFormed(cnt, cs)
    ensures forall i :: 0 <= i < |RenderedLines(cs)| ==> FitsBuffer(RenderedLines(cs)[i])
  {
    hide FitsBuffer, Render;
    if cs != [] {
      RenderFitsBuffer(cnt, cs[0]);
      RenderedLinesFit(cnt, cs[1..]);
    }
  }

  lemma CanonicalLine(files: FileStore, cnt: nat, c: BridgeCall)
    requires WellFormedCall(cnt, c)
    ensures LoadTarget(files, Render(c) + "\n") == None && DirectCalls(cnt, Render(c) + "\n") == [c]
    ensures Defined(cnt, Render(c) + "\n")
  {
    hide Render, CliClassify, BridgeLine;
    RenderedWord(c, "\n");
    ParseOfRender(cnt, c, "\n");
  }

  lemma {:induction false} TerminatedLines(files: FileStore, cnt: nat, depth: nat, cs: seq<BridgeCall>)
    requires AllWellFormed(cnt, cs)
    ensures LinesWithin(files, cnt, depth, Terminated(RenderedLines(cs))) == Some(cs)
    ensures forall i :: 0 <= i < |Terminated(RenderedLines(cs))| ==>
              LoadTarget(files, Terminated(RenderedLines(cs))[i]) ==
                None && Defined(cnt, Terminated(RenderedLines(cs))[i])
    decreases |cs|
  {
    hide Render, LoadTarget, DirectCalls, Defined;
    if cs != [] {
      var line, more := Render(cs[0]) + "\n", Terminated(RenderedLines(cs[1..]));
      CanonicalLine(files, cnt, cs[0]);
      TerminatedLines(files, cnt, depth, cs[1..]);
      assert Terminated(RenderedLines(cs)) == [line] + more && ([line] + more)[1..] == more;
      assert [cs[0]] + cs[1..] == cs;
    }
  }

  lemma PiecesOfFileText(cnt: nat, cs: seq<BridgeCall>)
    requires AllWellFormed(cnt, cs)
    ensures Pieces(FileText(cs)) == Terminated(RenderedLines(cs))
  {
    RenderedLinesFit(cnt, cs);
    PiecesOfLines(RenderedLines(cs));
  }

  /** Loading a file of canonical bridge lines makes exactly its calls, unless its name has fewer
      than four characters: then the program makes none. One level of nesting is enough. */
  lemma LoadCommand(files: FileStore, cnt: nat, depth: nat, name: string, cs: seq<BridgeCall>)
    requires AllWellFormed(cnt, cs) && name in files && files[name] == FileText(cs) && depth > 0
    ensures RunWithin(files, cnt, depth, LoadLine(' ', name)) == Some(if |name| >= 4 then cs else [])
  {
    hide FileText, Pieces, Terminated, RenderedLines, LoadTarget, LoadLine, DirectCalls, LinesWithin, AllWellFormed;
    var line := LoadLine(' ', name);
    LoadOpensIff(files, ' ', name, "");
    assert line + "" == line && name + "" == name;
    StartsWithLoad(name);
    LoadDispatch(line);
    if |name| >= 4 {
      PiecesOfFileText(cnt, cs);
      TerminatedLines(files, cnt, depth - 1, cs);
    }
  }

  lemma StartsWithLoad(name: string)
    ensures "load" <= LoadLine(' ', name)
  {
    assert LoadLine(' ', name)[..4] == "load";
  }

  /** The bridge module may execute this line: a ranking exists, and every command is defined. */
  lemma LoadIsRunnable(files: FileStore, cnt: nat, name: string, cs: seq<BridgeCall>)
    requires AllWellFormed(cnt, cs) && |name| >= 4 && name in files && files[name] == FileText(cs)
    ensures var rank, line := map[name := 0], LoadLine(' ', name);
            && Ranked(files, rank) && Covered(files, rank, line)
            && AllDefined(cnt, Inline(files, rank, line)) && CliTrace(files, rank, cnt, line) == cs
  {
    var rank: map<string, nat>, line := map[name := 0], LoadLine(' ', name);
    LoadOpensIff(files, ' ', name, "");
    assert line + "" == line && name + "" == name;
    PiecesOfFileText(cnt, cs);
    TerminatedLines(files, cnt, 0, cs);
    var pieces := Pieces(files[name]);
    hide FileText, Pieces, Terminated, RenderedLines, LoadTarget, LoadLine, Defined, DirectCalls;
    assert Ranked(files, rank);
    LoadCommand(files, cnt, 1, name, cs);
    RankedRunEnds(files, rank, cnt, 1, line);
    FlatLines(files, rank, 0, pieces);
  }

  /** Lines that load nothing are inlined as they are. */
  lemma {:induction false} FlatLines(files: FileStore, rank: map<string, nat>, bound: nat, lines: seq<string>)
    requires Ranked(files, rank) && forall i :: 0 <= i < |lines| ==> LoadTarget(files, lines[i]) == None
    ensures AllBelow(files, rank, bound, lines) && InlineLines(files, rank, bound, lines) == lines
    decreases |lines|
  {
    hide LoadTarget;
    if lines != [] {
      FlatLines(files, rank, bound, lines[1..]);
    }
  }
}
