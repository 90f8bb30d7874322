/** When loading a command file ends: exactly if no load cycle can be reached, and exactly if the
    files that can be reached have a ranking. */
module LoadEnds {
  import opened CStrings
  import opened BridgeSpec
  import opened BridgeLoad
  import opened Files

  // ----- Loading without a ranking

  /** The calls of a line if loading nests at most so many files deep, None if it nests deeper. */
  function RunWithin(files: FileStore, cnt: nat, depth: nat, line: string): Option<seq<BridgeCall>>
    decreases depth, 0
  {
    match LoadTarget(files, line)
    case None => Some(DirectCalls(cnt, line))
    case Some(f) => if depth == 0 then None else LinesWithin(files, cnt, depth - 1, Pieces(files[f]))
  }

  function LinesWithin(files: FileStore, cnt: nat, depth: nat, lines: seq<string>): Option<seq<BridgeCall>>
    decreases depth, |lines| + 1
  {
    if lines == [] then Some([])
    else
      match (RunWithin(files, cnt, depth, lines[0]), LinesWithin(files, cnt, depth, lines[1..]))
      case (Some(first), Some(rest)) => Some(first + rest)
      case _ => None
  }

  predicate FileEnds(files: FileStore, cnt: nat, depth: nat, f: string)
    requires f in files
  {
    LinesWithin(files, cnt, depth, Pieces(files[f])).Some?
  }

  lemma {:induction false} LinesWithinIff(files: FileStore, cnt: nat, depth: nat, lines: seq<string>)
    ensures LinesWithin(files, cnt, depth, lines).Some? <==>
            forall i :: 0 <= i < |lines| ==> RunWithin(files, cnt, depth, lines[i]).Some?
  {
    if lines != [] {
      var rest := lines[1..];
      LinesWithinIff(files, cnt, depth, rest);
      assert forall i :: 0 <= i < |rest| ==> rest[i] == lines[i + 1];
      hide RunWithin;
    }
  }

  /** More depth changes nothing. */
  lemma {:induction false} RunDeeper(files: FileStore, cnt: nat, depth: nat, line: string)
    requires RunWithin(files, cnt, depth, line).Some?
    ensures RunWithin(files, cnt, depth + 1, line) == RunWithin(files, cnt, depth, line)
    decreases depth, 0
  {
    match LoadTarget(files, line)
    case None =>
    case Some(f) => LinesDeeper(files, cnt, depth - 1, Pieces(files[f]));
  }

  lemma {:induction false} LinesDeeper(files: FileStore, cnt: nat, depth: nat, lines: seq<string>)
    requires LinesWithin(files, cnt, depth, lines).Some?
    ensures LinesWithin(files, cnt, depth + 1, lines) == LinesWithin(files, cnt, depth, lines)
    decreases depth, |lines| + 1
  {
    if lines != [] {
      RunDeeper(files, cnt, depth, lines[0]);
      LinesDeeper(files, cnt, depth, lines[1..]);
    }
  }

  // ----- A ranking makes it end

  /** With a ranking, the run ends, with the calls of the mutual recursion. */
  lemma {:induction false} RankedRunEnds(files: FileStore, rank: map<string, nat>, cnt: nat, depth: nat, line: string)
    requires Ranked(files, rank) && LoadsBelow(files, rank, depth, line)
    ensures Covered(files, rank, line)
    ensures RunWithin(files, cnt, depth, line) == Some(CliTrace(files, rank, cnt, line))
    decreases depth, 0
  {
    match LoadTarget(files, line)
    case None =>
    case Some(f) => RankedLinesEnd(files, rank, cnt, rank[f], depth - 1, Pieces(files[f]));
  }

  lemma {:induction false} RankedLinesEnd(files: FileStore, rank: map<string, nat>, cnt: nat, bound: nat, depth: nat,
                                          lines: seq<string>)
    requires Ranked(files, rank) && AllBelow(files, rank, bound, lines) && bound <= depth
    ensures LinesWithin(files, cnt, depth, lines) == Some(LinesTrace(files, rank, cnt, bound, lines))
    decreases depth, |lines| + 1
  {
    if lines != [] {
      RankedRunEnds(files, rank, cnt, depth, lines[0]);
      RankedLinesEnd(files, rank, cnt, bound, depth, lines[1..]);
    }
  }

  // ----- A run that ends gives a ranking

  /** The least depth, up to one that is enough, in which the file can be loaded. */
  function LeastDepth(files: FileStore, cnt: nat, depth: nat, f: string): (k: nat)
    requires f in files && FileEnds(files, cnt, depth, f)
    ensures k <= depth && FileEnds(files, cnt, k, f)
  {
    if depth == 0 || !FileEnds(files, cnt, depth - 1, f) then depth else LeastDepth(files, cnt, depth - 1, f)
  }

  lemma {:induction false} LeastDepthIsLeast(files: FileStore, cnt: nat, depth: nat, f: string, k: nat)
    requires f in files && k <= depth && FileEnds(files, cnt, k, f)
    ensures FileEnds(files, cnt, depth, f) && LeastDepth(files, cnt, depth, f) <= k
    decreases depth
  {
    if k < depth {
      LeastDepthIsLeast(files, cnt, depth - 1, f, k);
      LinesDeeper(files, cnt, depth - 1, Pieces(files[f]));
    }
  }

  /** The files that can be loaded in this depth, each with its least depth. */
  function DepthRank(files: FileStore, cnt: nat, depth: nat): map<string, nat> {
    map f | f in files && FileEnds(files, cnt, depth, f) :: LeastDepth(files, cnt, depth, f)
  }

  lemma TargetEnds(files: FileStore, cnt: nat, depth: nat, k: nat, line: string)
    requires k <= depth && RunWithin(files, cnt, k, line).Some?
    ensures LoadsBelow(files, DepthRank(files, cnt, depth), k, line)
  {
    match LoadTarget(files, line)
    case None =>
    case Some(g) =>
      assert FileEnds(files, cnt, k - 1, g);
      LeastDepthIsLeast(files, cnt, depth, g, k - 1);
  }

  lemma DepthIsRank(files: FileStore, cnt: nat, depth: nat)
    ensures Ranked(files, DepthRank(files, cnt, depth))
  {
    var rank := DepthRank(files, cnt, depth);
    forall f, i | f in rank && 0 <= i < |Pieces(files[f])|
      ensures LoadsBelow(files, rank, rank[f], Pieces(files[f])[i])
    {
      LinesWithinIff(files, cnt, rank[f], Pieces(files[f]));
      TargetEnds(files, cnt, depth, rank[f], Pieces(files[f])[i]);
    }
  }

  // ----- Load cycles

  ghost predicate LoadsFile(files: FileStore, f: string, g: string) {
    f in files && exists i :: 0 <= i < |Pieces(files[f])| && LoadTarget(files, Pieces(files[f])[i]) == Some(g)
  }

  /** Files, each loaded by a line of the one before it, the first one by the line. */
  ghost predicate LoadPath(files: FileStore, line: string, p: seq<string>) {
    && (p != [] ==> LoadTarget(files, line) == Some(p[0]))
    && forall i :: 0 < i < |p| ==> LoadsFile(files, p[i - 1], p[i])
  }

  ghost predicate Repeats<T>(p: seq<T>) {
    exists i, j :: 0 <= i < j < |p| && p[i] == p[j]
  }

  ghost predicate ReachesCycle(files: FileStore, line: string) {
    exists p :: LoadPath(files, line, p) && Repeats(p)
  }

  lemma {:induction false} RanksDescend(files: FileStore, rank: map<string, nat>, line: string, p: seq<string>,
                                        i: nat, j: nat)
    requires Ranked(files, rank) && Covered(files, rank, line) && LoadPath(files, line, p) && i <= j < |p|
    ensures p[i] in rank && p[j] in rank && (i < j ==> rank[p[j]] < rank[p[i]])
    decreases j
  {
    if j > 0 {
      RanksDescend(files, rank, line, p, if i < j then i else j - 1, j - 1);
      assert LoadsFile(files, p[j - 1], p[j]);
      var k :| 0 <= k < |Pieces(files[p[j - 1]])| && LoadTarget(files, Pieces(files[p[j - 1]])[k]) == Some(p[j]);
      assert LoadsBelow(files, rank, rank[p[j - 1]], Pieces(files[p[j - 1]])[k]);
    }
  }

  /** A run that does not end within a depth follows a path of loads that is longer. */
  lemma {:induction false} DeepPath(files: FileStore, cnt: nat, depth: nat, line: string) returns (p: seq<string>)
    requires RunWithin(files, cnt, depth, line).None?
    ensures |p| == depth + 1 && LoadPath(files, line, p)
    decreases depth
  {
    var f := LoadTarget(files, line).value;
    if depth == 0 {
      p := [f];
    } else {
      var lines := Pieces(files[f]);
      LinesWithinIff(files, cnt, depth - 1, lines);
      var i :| 0 <= i < |lines| && RunWithin(files, cnt, depth - 1, lines[i]).None?;
      var more := DeepPath(files, cnt, depth - 1, lines[i]);
      p := [f] + more;
      forall k | 0 < k < |p| ensures LoadsFile(files, p[k - 1], p[k]) {
        assert k > 1 ==> LoadsFile(files, more[k - 2], more[k - 1]);
      }
    }
  }

  lemma PathInFiles(files: FileStore, line: string, p: seq<string>)
    requires LoadPath(files, line, p)
    ensures forall i :: 0 <= i < |p| ==> p[i] in files.Keys
  {
    forall i | 0 <= i < |p| ensures p[i] in files.Keys {
      assert i > 0 ==> LoadsFile(files, p[i - 1], p[i]);
    }
  }

  lemma {:induction false} Pigeonhole<T>(p: seq<T>, s: set<T>)
    requires forall i :: 0 <= i < |p| ==> p[i] in s
    requires |p| > |s|
    ensures Repeats(p)
  {
    var front, x := p[..|p| - 1], p[|p| - 1];
    if i :| 0 <= i < |front| && front[i] == x {
      assert p[i] == p[|p| - 1];
    } else {
      Pigeonhole(front, s - {x});
      var i, j :| 0 <= i < j < |front| && front[i] == front[j];
      assert p[i] == p[j];
    }
  }

  // ----- The three are the same

  ghost predicate EndsSometime(files: FileStore, cnt: nat, line: string) {
    exists depth: nat :: RunWithin(files, cnt, depth, line).Some?
  }

  ghost predicate HasRank(files: FileStore, line: string) {
    exists rank: map<string, nat> :: Ranked(files, rank) && Covered(files, rank, line)
  }

  lemma RankedEnds(files: FileStore, rank: map<string, nat>, cnt: nat, line: string)
    requires Ranked(files, rank) && Covered(files, rank, line)
    ensures EndsSometime(files, cnt, line) && !ReachesCycle(files, line)
  {
    var depth := if LoadTarget(files, line).Some? then rank[LoadTarget(files, line).value] + 1 else 0;
    RankedRunEnds(files, rank, cnt, depth, line);
    forall p | LoadPath(files, line, p) ensures !Repeats(p) {
      forall i, j | 0 <= i < j < |p| ensures p[i] != p[j] {
        RanksDescend(files, rank, line, p, i, j);
      }
    }
  }

  /** Executing a line ends exactly if no load cycle can be reached from it, and exactly if the
      files that it reaches can be ranked; then it ends without nesting deeper than there are files. */
  lemma LoadEndsIff(files: FileStore, cnt: nat, line: string)
    ensures EndsSometime(files, cnt, line) <==> !ReachesCycle(files, line)
    ensures EndsSometime(files, cnt, line) <==> HasRank(files, line)
    ensures EndsSometime(files, cnt, line) <==> RunWithin(files, cnt, |files|, line).Some?
  {
    if HasRank(files, line) {
      var rank :| Ranked(files, rank) && Covered(files, rank, line);
      RankedEnds(files, rank, cnt, line);
    }
    if depth: nat :| RunWithin(files, cnt, depth, line).Some? {
      DepthIsRank(files, cnt, depth);
      TargetEnds(files, cnt, depth, depth, line);
      assert Covered(files, DepthRank(files, cnt, depth), line);
    }
    if RunWithin(files, cnt, |files|, line).None? {
      var p := DeepPath(files, cnt, |files|, line);
      PathInFiles(files, line, p);
      assert |files.Keys| == |files|;
      Pigeonhole(p, files.Keys);
      assert ReachesCycle(files, line);
    }
  }

  /** A run that ends makes the calls of the inlined command list, whatever ranking shows that it ends. */
  lemma RunIsInlined(files: FileStore, rank: map<string, nat>, cnt: nat, depth: nat, line: string)
    requires Ranked(files, rank) && Covered(files, rank, line) && RunWithin(files, cnt, depth, line).Some?
    ensures RunWithin(files, cnt, depth, line) == Some(FlatMap(CallsOf(cnt), Inline(files, rank, line)))
  {
    TraceIsInlined(files, rank, cnt, line);
    var enough := if LoadTarget(files, line).Some? then rank[LoadTarget(files, line).value] + 1 else 0;
    RankedRunEnds(files, rank, cnt, enough, line);
    SameRun(files, cnt, depth, enough, line);
  }

  lemma SameRun(files: FileStore, cnt: nat, a: nat, b: nat, line: string)
    requires RunWithin(files, cnt, a, line).Some? && RunWithin(files, cnt, b, line).Some?
    ensures RunWithin(files, cnt, a, line) == RunWithin(files, cnt, b, line)
  {
    hide RunWithin;
    if a < b {
      DeeperRun(files, cnt, a, b, line);
    } else {
      DeeperRun(files, cnt, b, a, line);
    }
  }

  lemma {:induction false} DeeperRun(files: FileStore, cnt: nat, a: nat, b: nat, line: string)
    requires a <= b && RunWithin(files, cnt, a, line).Some?
    ensures RunWithin(files, cnt, b, line) == RunWithin(files, cnt, a, line)
    decreases b
  {
    hide RunWithin;
    if a < b {
      DeeperRun(files, cnt, a, b - 1, line);
      RunDeeper(files, cnt, b - 1, line);
    }
  }

  /** Loading a file one of whose lines loads it again never ends. */
  lemma SelfLoadNeverEnds(files: FileStore, cnt: nat, line: string, f: string, i: nat)
    requires LoadTarget(files, line) == Some(f)
    requires i < |Pieces(files[f])| && LoadTarget(files, Pieces(files[f])[i]) == Some(f)
    ensures !EndsSometime(files, cnt, line)
  {
    var p := [f, f];
    assert LoadsFile(files, f, f);
    assert LoadPath(files, line, p);
    assert p[0] == p[1] && Repeats(p);
    LoadEndsIff(files, cnt, line);
  }

  // ----- Which file a load line opens

  lemma LoadDispatch(line: string)
    requires "load" <= line
    ensures CliClassify(line) == Some(CliWord.Load)
    ensures forall cnt :: DirectCalls(cnt, line) == []
  {
    assert line[0] == 'l';
    var m := CliIndex(line);
    assert CLI_TABLE[7].key <= line;
    assert forall i :: 0 <= i < 7 ==> CLI_TABLE[i].key[0] != 'l';
  }

  /** A load line opens the file that it names exactly if this file exists, its name has at least
      four characters, and no newline follows; with a newline it asks for another file. */
  lemma LoadOpensIff(files: FileStore, c: char, name: string, tail: LineEnd)
    ensures LoadTarget(files, LoadLine(c, name) + tail) == Some(name) <==> tail == "" && |name| >= 4 && name in files
    ensures LoadTarget(files, LoadLine(c, name) + tail) ==
            if |name + tail| >= 4 && name + tail in files then Some(name + tail) else None
  {
    var line := LoadLine(c, name) + tail;
    assert line[..4] == "load" && line[5..] == name + tail && |line| == 5 + |name + tail|;
    assert tail == "" ==> name + tail == name;
    assert |name + tail| == |name| + |tail|;
    LoadDispatch(line);
    hide CliClassify;
  }
}
