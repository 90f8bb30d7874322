/** Command files that load command files: the call trace of the mutual recursion between cli_cmd
    and cmd_load, and the flat command list it amounts to. */
module BridgeLoad {
  import opened CStrings
  import opened Keywords
  import opened BridgeSpec
  import opened Files

  /** The existing file that a load line names; the name reaches to the end of the buffer. */
  function LoadTarget(files: FileStore, line: string): Option<string> {
    if CliClassify(line) == Some(Load) && |line| > 8 && line[5..] in files then Some(line[5..]) else None
  }

  /** Every line of a ranked file loads ranked files only, of smaller rank. */
  ghost predicate Ranked(files: FileStore, rank: map<string, nat>) {
    && rank.Keys <= files.Keys
    && forall f, i :: f in rank && 0 <= i < |Pieces(files[f])| ==> LoadsBelow(files, rank, rank[f], Pieces(files[f])[i])
  }

  /** The file that the line loads, if any, is ranked; other files need not be. */
  predicate Covered(files: FileStore, rank: map<string, nat>, line: string) {
    LoadTarget(files, line).Some? ==> LoadTarget(files, line).value in rank
  }

  predicate LoadsBelow(files: FileStore, rank: map<string, nat>, bound: nat, line: string) {
    LoadTarget(files, line).Some? ==>
      LoadTarget(files, line).value in rank && rank[LoadTarget(files, line).value] < bound
  }

  ghost predicate AllBelow(files: FileStore, rank: map<string, nat>, bound: nat, lines: seq<string>) {
    forall i :: 0 <= i < |lines| ==> LoadsBelow(files, rank, bound, lines[i])
  }

  /** Termination measure of cli_cmd. */
  ghost function CliRank(files: FileStore, rank: map<string, nat>, line: string): nat
    requires Covered(files, rank, line)
  {
    if LoadTarget(files, line).Some? then 2 * rank[LoadTarget(files, line).value] + 3 else 1
  }

  /** The calls of one line that is not followed into a file. */
  function DirectCalls(cnt: nat, line: string): seq<BridgeCall> {
    match CliClassify(line)
    case Some(Run(op)) => OpCalls(op, cnt, line)
    case _ => []
  }

  /** The calls of one line, following load lines. */
  ghost function CliTrace(files: FileStore, rank: map<string, nat>, cnt: nat, line: string): seq<BridgeCall>
    requires Ranked(files, rank) && Covered(files, rank, line)
    decreases CliRank(files, rank, line), 0
  {
    match LoadTarget(files, line)
    case None => DirectCalls(cnt, line)
    case Some(f) => LinesTrace(files, rank, cnt, rank[f], Pieces(files[f]))
  }

  ghost function LinesTrace(files: FileStore, rank: map<string, nat>, cnt: nat, bound: nat,
                            lines: seq<string>): seq<BridgeCall>
    requires Ranked(files, rank) && AllBelow(files, rank, bound, lines)
    decreases 2 * bound + 2, |lines|
  {
    if lines == [] then []
    else CliTrace(files, rank, cnt, lines[0]) + LinesTrace(files, rank, cnt, bound, lines[1..])
  }

  /** The calls of the first buffers of a file. */
  ghost function FileTrace(files: FileStore, rank: map<string, nat>, cnt: nat, name: string,
                           done: seq<string>): seq<BridgeCall>
    requires Ranked(files, rank) && name in rank && done <= Pieces(files[name])
  {
    assert forall i :: 0 <= i < |done| ==> done[i] == Pieces(files[name])[i];
    LinesTrace(files, rank, cnt, rank[name], done)
  }

  /** The command list in which every load line is replaced by the commands of its file. */
  ghost function Inline(files: FileStore, rank: map<string, nat>, line: string): seq<string>
    requires Ranked(files, rank) && Covered(files, rank, line)
    decreases CliRank(files, rank, line), 0
  {
    match LoadTarget(files, line)
    case None => [line]
    case Some(f) => InlineLines(files, rank, rank[f], Pieces(files[f]))
  }

  ghost function InlineLines(files: FileStore, rank: map<string, nat>, bound: nat, lines: seq<string>): seq<string>
    requires Ranked(files, rank) && AllBelow(files, rank, bound, lines)
    decreases 2 * bound + 2, |lines|
  {
    if lines == [] then []
    else Inline(files, rank, lines[0]) + InlineLines(files, rank, bound, lines[1..])
  }

  function CallsOf(cnt: nat): string -> seq<BridgeCall> {
    line => DirectCalls(cnt, line)
  }

  /** Loading makes the calls of the inlined command list, one command after the other. */
  lemma {:induction false} TraceIsInlined(files: FileStore, rank: map<string, nat>, cnt: nat, line: string)
    requires Ranked(files, rank) && Covered(files, rank, line)
    ensures CliTrace(files, rank, cnt, line) == FlatMap(CallsOf(cnt), Inline(files, rank, line))
    decreases CliRank(files, rank, line), 0
  {
    hide DirectCalls;
    match LoadTarget(files, line)
    case None =>
      FlatMapAppend(CallsOf(cnt), [], [line]);
    case Some(f) =>
      LinesTraceIsInlined(files, rank, cnt, rank[f], Pieces(files[f]));
  }

  lemma {:induction false} LinesTraceIsInlined(files: FileStore, rank: map<string, nat>, cnt: nat, bound: nat,
                                               lines: seq<string>)
    requires Ranked(files, rank) && AllBelow(files, rank, bound, lines)
    ensures LinesTrace(files, rank, cnt, bound, lines) == FlatMap(CallsOf(cnt), InlineLines(files, rank, bound, lines))
    decreases 2 * bound + 2, |lines|
  {
    if lines != [] {
      TraceIsInlined(files, rank, cnt, lines[0]);
      LinesTraceIsInlined(files, rank, cnt, bound, lines[1..]);
      FlatMapAppend(CallsOf(cnt), Inline(files, rank, lines[0]), InlineLines(files, rank, bound, lines[1..]));
    }
  }

  /** No line of the inlined list loads a file any more. */
  lemma {:induction false} InlinedLoadsNothing(files: FileStore, rank: map<string, nat>, line: string)
    requires Ranked(files, rank) && Covered(files, rank, line)
    ensures forall i :: 0 <= i < |Inline(files, rank, line)| ==> LoadTarget(files, Inline(files, rank, line)[i]) == None
    decreases CliRank(files, rank, line), 0
  {
    match LoadTarget(files, line)
    case None =>
    case Some(f) =>
      InlinedLinesLoadNothing(files, rank, rank[f], Pieces(files[f]));
  }

  lemma {:induction false} InlinedLinesLoadNothing(files: FileStore, rank: map<string, nat>, bound: nat,
                                                   lines: seq<string>)
    requires Ranked(files, rank) && AllBelow(files, rank, bound, lines)
    ensures forall i :: 0 <= i < |InlineLines(files, rank, bound, lines)| ==>
              LoadTarget(files, InlineLines(files, rank, bound, lines)[i]) == None
    decreases 2 * bound + 2, |lines|
  {
    if lines != [] {
      InlinedLoadsNothing(files, rank, lines[0]);
      InlinedLinesLoadNothing(files, rank, bound, lines[1..]);
    }
  }

  /** The ranks only show that loading ends: any other ranking gives the same list. */
  lemma {:induction false} RankIrrelevant(files: FileStore, rank: map<string, nat>, other: map<string, nat>,
                                          line: string)
    requires Ranked(files, rank) && Ranked(files, other) && Covered(files, rank, line) && Covered(files, other, line)
    ensures Inline(files, rank, line) == Inline(files, other, line)
    decreases CliRank(files, rank, line), 0
  {
    match LoadTarget(files, line)
    case None =>
    case Some(f) =>
      RankIrrelevantLines(files, rank, other, rank[f], other[f], Pieces(files[f]));
  }

  lemma {:induction false} RankIrrelevantLines(files: FileStore, rank: map<string, nat>, other: map<string, nat>,
                                               bound: nat, bound': nat, lines: seq<string>)
    requires Ranked(files, rank) && Ranked(files, other)
    requires AllBelow(files, rank, bound, lines) && AllBelow(files, other, bound', lines)
    ensures InlineLines(files, rank, bound, lines) == InlineLines(files, other, bound', lines)
    decreases 2 * bound + 2, |lines|
  {
    if lines != [] {
      RankIrrelevant(files, rank, other, lines[0]);
      RankIrrelevantLines(files, rank, other, bound, bound', lines[1..]);
    }
  }

  // ----- What a run needs

  predicate Defined(cnt: nat, line: string) {
    match CliClassify(line)
    case Some(Run(op)) => BridgeLine(op, cnt, line) != BrUndefined
    case _ => true
  }

  predicate AllDefined(cnt: nat, lines: seq<string>) {
    forall i :: 0 <= i < |lines| ==> Defined(cnt, lines[i])
  }

  lemma {:induction false} LinesTraceAppend(files: FileStore, rank: map<string, nat>, cnt: nat, bound: nat,
                                            a: seq<string>, b: seq<string>)
    requires Ranked(files, rank) && AllBelow(files, rank, bound, a) && AllBelow(files, rank, bound, b)
    requires AllBelow(files, rank, bound, a + b)
    ensures LinesTrace(files, rank, cnt, bound, a + b) ==
            LinesTrace(files, rank, cnt, bound, a) + LinesTrace(files, rank, cnt, bound, b)
    ensures InlineLines(files, rank, bound, a + b) ==
            InlineLines(files, rank, bound, a) + InlineLines(files, rank, bound, b)
    decreases |a|
  {
    hide CliTrace, Inline, LoadsBelow;
    if a == [] {
      assert a + b == b;
    } else {
      assert (a + b)[1..] == a[1..] + b;
      LinesTraceAppend(files, rank, cnt, bound, a[1..], b);
    }
  }

  /** The next buffer of a file that is being loaded. */
  lemma PieceInFile(files: FileStore, rank: map<string, nat>, cnt: nat, name: string,
                    done: seq<string>, buf: string, rest: seq<string>)
    requires Ranked(files, rank) && name in rank && done + ([buf] + rest) == Pieces(files[name])
    requires AllBelow(files, rank, rank[name], Pieces(files[name]))
    requires AllDefined(cnt, InlineLines(files, rank, rank[name], Pieces(files[name])))
    ensures LoadsBelow(files, rank, rank[name], buf) && AllDefined(cnt, Inline(files, rank, buf))
    ensures done + [buf] <= Pieces(files[name])
    ensures FileTrace(files, rank, cnt, name, done + [buf]) ==
            FileTrace(files, rank, cnt, name, done) + CliTrace(files, rank, cnt, buf)
  {
    hide LoadsBelow, CliTrace, LinesTrace, Inline, InlineLines, Defined, Pieces;
    var bound, all := rank[name], Pieces(files[name]);
    assert all == done + [buf] + rest;
    assert forall i :: 0 <= i < |all| ==> LoadsBelow(files, rank, bound, all[i]);
    assert forall i :: 0 <= i < |done| ==> done[i] == all[i];
    assert AllBelow(files, rank, bound, done) && all[|done|] == buf;
    assert AllBelow(files, rank, bound, [buf]);
    assert AllBelow(files, rank, bound, done + [buf]);
    assert AllBelow(files, rank, bound, rest) by {
      assert forall i :: 0 <= i < |rest| ==> rest[i] == all[|done| + 1 + i];
    }
    LinesTraceAppend(files, rank, cnt, bound, done, [buf]);
    LinesTraceAppend(files, rank, cnt, bound, done + [buf], rest);
    BelowIsCovered(files, rank, bound, buf);
    OneLine(files, rank, cnt, bound, buf);
    var x, y := InlineLines(files, rank, bound, done), Inline(files, rank, buf);
    var z := InlineLines(files, rank, bound, rest);
    assert InlineLines(files, rank, bound, all) == x + y + z;
    assert forall i :: 0 <= i < |y| ==> y[i] == (x + y + z)[|x| + i];
  }

  lemma BelowIsCovered(files: FileStore, rank: map<string, nat>, bound: nat, line: string)
    requires LoadsBelow(files, rank, bound, line)
    ensures Covered(files, rank, line)
  {
  }

  lemma OneLine(files: FileStore, rank: map<string, nat>, cnt: nat, bound: nat, line: string)
    requires Ranked(files, rank) && Covered(files, rank, line) && AllBelow(files, rank, bound, [line])
    ensures LinesTrace(files, rank, cnt, bound, [line]) == CliTrace(files, rank, cnt, line)
    ensures InlineLines(files, rank, bound, [line]) == Inline(files, rank, line)
  {
    assert [line][1..] == [];
  }

  lemma CommandLine(files: FileStore, rank: map<string, nat>, cnt: nat, line: string)
    requires Ranked(files, rank) && Covered(files, rank, line) && CliClassify(line) != Some(Load)
    ensures CliTrace(files, rank, cnt, line) == DirectCalls(cnt, line)
    ensures AllDefined(cnt, Inline(files, rank, line)) ==> Defined(cnt, line)
  {
    assert Inline(files, rank, line) == [line];
    assert [line][0] == line;
  }

  /** A load line: its file, all of whose buffers have smaller ranks, or nothing. */
  lemma LoadLineTrace(files: FileStore, rank: map<string, nat>, cnt: nat, line: string)
    requires Ranked(files, rank) && Covered(files, rank, line) && CliClassify(line) == Some(Load) && "load" <= line
    ensures var cmd := line[4..];
            if |cmd| > 4 && cmd[1..] in files
            then && LoadTarget(files, line) == Some(cmd[1..]) && cmd[1..] in rank
                 && AllBelow(files, rank, rank[cmd[1..]], Pieces(files[cmd[1..]]))
                 && CliTrace(files, rank, cnt, line) == FileTrace(files, rank, cnt, cmd[1..], Pieces(files[cmd[1..]]))
                 && Inline(files, rank, line) == InlineLines(files, rank, rank[cmd[1..]], Pieces(files[cmd[1..]]))
            else CliTrace(files, rank, cnt, line) == []
  {
    assert |line| > 8 ==> line[4..][1..] == line[5..];
  }

  /** A line of a file is of smaller measure than the file. */
  lemma LineBelowFile(files: FileStore, rank: map<string, nat>, name: string, line: string)
    requires Ranked(files, rank) && name in rank && LoadsBelow(files, rank, rank[name], line)
    ensures CliRank(files, rank, line) < 2 * rank[name] + 2
  {
  }

  // ----- The tests of cli_cmd

  lemma CliTests(line: string)
    ensures CliClassify(line) ==
            if StrncmpEq(line, "help", 4) then Some(Help)
            else if StrncmpEq(line, "add-br-if", 9) then Some(Run(AddBrIf))
            else if StrncmpEq(line, "del-br-if", 9) then Some(Run(DelBrIf))
            else if StrncmpEq(line, "add-br", 6) then Some(Run(AddBr))
            else if StrncmpEq(line, "del-br", 6) then Some(Run(DelBr))
            else if StrncmpEq(line, "show", 4) then Some(Show)
            else if StrncmpEq(line, "set-age", 7) then Some(Run(SetAge))
            else if StrncmpEq(line, "load", 4) then Some(Load)
            else None
  {
    hide StrncmpEq, CliClassify;
    var m := CliIndex(line);
    CliTest(0, "help", line);
    CliTest(1, "add-br-if", line);
    CliTest(2, "del-br-if", line);
    CliTest(3, "add-br", line);
    CliTest(4, "del-br", line);
    CliTest(5, "show", line);
    CliTest(6, "set-age", line);
    CliTest(7, "load", line);
  }

  lemma CliIndex(line: string) returns (m: nat)
    ensures m <= |CLI_TABLE| && forall i :: 0 <= i < m ==> !(CLI_TABLE[i].key <= line)
    ensures m < |CLI_TABLE| ==> CLI_TABLE[m].key <= line
    ensures CliClassify(line) == if m < |CLI_TABLE| then Some(CLI_TABLE[m].word) else None
  {
    hide FirstMatch;
    m := FirstMatchIndex(CLI_TABLE, line);
  }

  lemma CliTest(i: nat, literal: string, line: string)
    requires i < |CLI_TABLE| && literal == CLI_TABLE[i].key
    ensures StrncmpEq(line, literal, |literal|) <==> CLI_TABLE[i].key <= line
  {
    assert literal[..|literal|] == literal;
  }

  /** Which lines are dispatched to which command, by their text. */
  lemma CliMeaning(line: string)
    ensures CliClassify(line) == Some(Run(AddBrIf)) <==> "add-br-if" <= line
    ensures CliClassify(line) == Some(Run(DelBrIf)) <==> "del-br-if" <= line
    ensures CliClassify(line) == Some(Run(AddBr)) <==> "add-br" <= line && !("add-br-if" <= line)
    ensures CliClassify(line) == Some(Run(DelBr)) <==> "del-br" <= line && !("del-br-if" <= line)
    ensures CliClassify(line) == Some(Run(SetAge)) <==> "set-age" <= line
    ensures CliClassify(line) == Some(Load) <==> "load" <= line
  {
    CliTests(line);
    LiteralTests(line);
    hide CliClassify, StrncmpEq;
    assert "help"[0] == 'h' && "add-br-if"[0] == 'a' && "add-br"[0] == 'a' && "del-br-if"[0] ==
           'd' && "del-br"[0] == 'd';
    assert "show"[0] == 's' && "show"[1] == 'h' && "set-age"[0] == 's' && "set-age"[1] == 'e' && "load"[0] == 'l';
  }

  lemma LiteralTests(line: string)
    ensures StrncmpEq(line, "help", 4) <==> "help" <= line
    ensures StrncmpEq(line, "add-br-if", 9) <==> "add-br-if" <= line
    ensures StrncmpEq(line, "del-br-if", 9) <==> "del-br-if" <= line
    ensures StrncmpEq(line, "add-br", 6) <==> "add-br" <= line
    ensures StrncmpEq(line, "del-br", 6) <==> "del-br" <= line
    ensures StrncmpEq(line, "show", 4) <==> "show" <= line
    ensures StrncmpEq(line, "set-age", 7) <==> "set-age" <= line
    ensures StrncmpEq(line, "load", 4) <==> "load" <= line
  {
    hide StrncmpEq;
    WholeLiteral(line, "help");
    WholeLiteral(line, "add-br-if");
    WholeLiteral(line, "del-br-if");
    WholeLiteral(line, "add-br");
    WholeLiteral(line, "del-br");
    WholeLiteral(line, "show");
    WholeLiteral(line, "set-age");
    WholeLiteral(line, "load");
  }

  lemma WholeLiteral(line: string, literal: string)
    ensures StrncmpEq(line, literal, |literal|) <==> literal <= line
  {
    StrncmpMeaning(line, literal, |literal|);
    assert literal[..|literal|] == literal;
  }
}
