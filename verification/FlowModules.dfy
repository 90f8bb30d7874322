/** The flow protocol module: its device table, the filter command, and command files. */
module FlowModules {
  import opened CStrings
  import opened FlowTypes
  import opened FilterSpec
  import opened FilterInvariant
  import opened FilterRuns
  import opened Files
  import opened Devices

  /** One call through flw_devs[dev], as the device sees it. */
  datatype DeviceCall = DeviceCall(target: Device?, cmd: Cmd, dev: int, tbl: int,
                                   tuples: seq<Tuple>, actions: seq<Action>)

  /** The call goes to its slot of the table and carries what the command line determines. */
  ghost predicate Carries(d: DeviceCall, c: FlowCall, table: seq<Device?>) {
    && 0 <= c.dev < |table| && d.target == table[c.dev]
    && d.cmd == c.cmd && d.dev == c.dev && d.tbl == c.tbl
    && TuplesHold(d.tuples, c.tuples) && ActionsHold(d.actions, c.actions)
  }

  ghost predicate AllCarry(ds: seq<DeviceCall>, cs: seq<FlowCall>, table: seq<Device?>) {
    |ds| == |cs| && forall i :: 0 <= i < |ds| ==> Carries(ds[i], cs[i], table)
  }

  lemma NoCalls(trace: seq<DeviceCall>, table: seq<Device?>)
    ensures AllCarry(trace[|trace|..], [], table)
  {
  }

  lemma TraceGrows(t0: seq<DeviceCall>, t1: seq<DeviceCall>, t2: seq<DeviceCall>,
                   cs: seq<FlowCall>, fs: seq<FlowCall>, table: seq<Device?>)
    requires t0 <= t1 <= t2 && AllCarry(t1[|t0|..], cs, table) && AllCarry(t2[|t1|..], fs, table)
    ensures t0 <= t2 && AllCarry(t2[|t0|..], cs + fs, table)
  {
    assert t2[|t0|..] == t1[|t0|..] + t2[|t1|..];
  }

  // ----- Command files

  function CallsOfLine(cnt: nat): string -> seq<FlowCall> {
    line => LineCalls(cnt, line)
  }

  /** The device calls of a list of lines. */
  function FileCalls(cnt: nat, lines: seq<string>): seq<FlowCall> {
    FlatMap(CallsOfLine(cnt), lines)
  }

  lemma NoLines(cnt: nat)
    ensures FileCalls(cnt, []) == []
  {
  }

  /** No parser state survives a line: loading a closed file and then another one calls the
      devices as loading their concatenation does. */
  lemma LoadIsHomomorphism(cnt: nat, a: string, b: string)
    requires Closed(a)
    ensures FileCalls(cnt, Pieces(a + b)) == FileCalls(cnt, Pieces(a)) + FileCalls(cnt, Pieces(b))
  {
    PiecesOfConcatenationIff(a, b);
    FlatMapAppend(CallsOfLine(cnt), Pieces(a), Pieces(b));
  }

  /** The lines that "load" reads; cmd is the text behind the word. */
  function LoadedLines(files: FileStore, cmd: string): seq<string> {
    if |cmd| > 4 && cmd[1..] in files then Pieces(files[cmd[1..]]) else []
  }

  function CliCalls(cnt: nat, files: FileStore, cmd: string): seq<FlowCall> {
    if "help" <= cmd then []
    else if "filter" <= cmd then LineCalls(cnt, cmd)
    else if "show" <= cmd then []
    else if "load" <= cmd then FileCalls(cnt, LoadedLines(files, cmd[4..]))
    else []
  }

  /** The C program is defined on the line: in bounds, no null address, a registered device
      (UndefinedIff says which lines these are). */
  predicate LineDefined(cnt: nat, line: string) {
    FilterLine(cnt, line) != Undefined
  }

  predicate LinesDefined(cnt: nat, lines: seq<string>) {
    forall i :: 0 <= i < |lines| ==> LineDefined(cnt, lines[i])
  }

  /** What a defined line grants to the two loops and the dispatch. */
  lemma DefinedStages(cnt: nat, line: string, end: MatchEnd, result: Option<seq<Stored<ActionId>>>)
    requires LineDefined(cnt, line) && end == MatchRun(cnt, INIT, Tokens(Some(line)))
    requires result == if end.Matched? then ActionRun([], end.rest) else None
    ensures TuplesFit(cnt, INIT, Tokens(Some(line))) && end != Faulted
    ensures end.Matched? ==> ActionsFit(0, end.rest)
    ensures FilterLine(cnt, line).Accepted? <==> result.Some?
    ensures result.Some? ==> (end.st.cmd == NoCommand || 0 <= end.st.dev < cnt)
    ensures LineCalls(cnt, line) ==
            if result.Some? && end.st.cmd != NoCommand
            then [FlowCall(end.st.cmd, end.st.dev, end.st.tbl, end.st.tuples, result.value)] else []
  {
    if end.Matched? {
      ReachableInvariant(cnt, INIT, Tokens(Some(line)));
    }
  }

  class FlowModule {
    const flwDevs: array<Device?>
    var flwDevCnt: nat
    /** The device calls made so far. */
    var trace: seq<DeviceCall>

    ghost predicate Valid()
      reads this
    {
      flwDevs.Length == MAX_OBJECTS && flwDevCnt <= MAX_OBJECTS
    }

    ghost function Table(): seq<Device?>
      requires Valid()
      reads this, flwDevs
    {
      flwDevs[..flwDevCnt]
    }

    constructor ()
      ensures Valid() && fresh(flwDevs) && Table() == [] && trace == []
    {
      flwDevs := new Device?[MAX_OBJECTS](_ => null);
      flwDevCnt := 0;
      trace := [];
    }

    method RegisterDev(dev: Device)
      requires Valid() && flwDevCnt < MAX_OBJECTS
      modifies this`flwDevCnt, flwDevs
      ensures Valid() && Table() == old(Table()) + [dev]
    {
      flwDevs[flwDevCnt] := dev;
      flwDevCnt := flwDevCnt + 1;
    }

    /** Both loops and the dispatch; consumed lists the tokens taken from the line. */
    method FibCmdFilter(cmd: string) returns (ghost consumed: seq<string>)
      requires Valid() && LineDefined(flwDevCnt, cmd)
      modifies this`trace
      ensures old(trace) <= trace
      ensures AllCarry(trace[|old(trace)|..], LineCalls(flwDevCnt, cmd), Table())
      ensures Join(consumed) <= cmd
      ensures FilterLine(flwDevCnt, cmd).Accepted? ==> Join(consumed) == cmd
    {
      hide LineDefined, LineCalls, FilterLine, MatchRun, ActionRun, TuplesFit, ActionsFit, AllCarry, Carries;
      ghost var end := MatchRun(flwDevCnt, INIT, Tokens(Some(cmd)));
      ghost var result := if end.Matched? then ActionRun([], end.rest) else None;
      DefinedStages(flwDevCnt, cmd, end, result);
      NoCalls(trace, Table());
      var run := new FilterRun(cmd);
      var ok := run.BothPhases(flwDevCnt, end, result);
      consumed := run.consumed;
      ConsumedPart(cmd, consumed, Tokens(run.command));
      if ok {
        Dispatch(run);
      }
    }

    /** The call behind the loops; a line without a command word makes none. */
    method Dispatch(run: FilterRun)
      requires Valid() && run.Valid()
      requires run.flowCmd != NoCommand ==> 0 <= run.devId < flwDevCnt
      modifies this`trace
      ensures old(trace) <= trace
      ensures AllCarry(trace[|old(trace)|..], run.Calls(), Table())
    {
      var tuples, actions := run.tuples[..run.tupleCnt], run.actions[..run.actionCnt];
      if run.flowCmd == Add {
        trace := trace + [DeviceCall(flwDevs[run.devId], Add, run.devId, run.tblId, tuples, actions)];
      } else if run.flowCmd == Del {
        trace := trace + [DeviceCall(flwDevs[run.devId], Del, run.devId, run.tblId, tuples, actions)];
      } else if run.flowCmd == Dump {
        trace := trace + [DeviceCall(flwDevs[run.devId], Dump, run.devId, run.tblId, tuples, actions)];
      }
    }

    lemma ConsumedPart(cmd: string, consumed: seq<string>, rest: seq<string>)
      requires consumed + rest == Tokens(Some(cmd))
      ensures Join(consumed) <= cmd
      ensures rest == [] ==> Join(consumed) == cmd
    {
      assert consumed == Tokens(Some(cmd))[..|consumed|];
      ConsumedIsPrefix(cmd, |consumed|);
    }

    /** One buffer of a command file whose first buffers made the calls behind trace0. */
    method LoadPiece(buf: string, ghost trace0: seq<DeviceCall>, ghost done: seq<string>)
      requires Valid() && LineDefined(flwDevCnt, buf)
      requires trace0 <= trace && AllCarry(trace[|trace0|..], FileCalls(flwDevCnt, done), Table())
      modifies this`trace
      ensures trace0 <= trace && AllCarry(trace[|trace0|..], FileCalls(flwDevCnt, done + [buf]), Table())
    {
      ghost var before := trace;
      ghost var consumed := FibCmdFilter(buf);
      FlatMapAppend(CallsOfLine(flwDevCnt), done, [buf]);
      TraceGrows(trace0, before, trace, FileCalls(flwDevCnt, done), LineCalls(flwDevCnt, buf), Table());
    }

    /** load: every buffer of the file is a filter line of its own. */
    method CmdLoad(files: FileStore, cmd: string)
      requires Valid() && LinesDefined(flwDevCnt, LoadedLines(files, cmd))
      modifies this`trace
      ensures old(trace) <= trace
      ensures AllCarry(trace[|old(trace)|..], FileCalls(flwDevCnt, LoadedLines(files, cmd)), Table())
    {
      NoCalls(trace, Table());
      hide LineDefined, FlatMap, CallsOfLine, AllCarry, Pieces;
      assert FileCalls(flwDevCnt, []) == [] by { NoLines(flwDevCnt); }
      if |cmd| > 4 {
        if cmd[1..] !in files {
          return;
        }
        var fp := files[cmd[1..]];
        ghost var done: seq<string> := [];
        while fp != []
          invariant done + Pieces(fp) == LoadedLines(files, cmd)
          invariant old(trace) <= trace
          invariant AllCarry(trace[|old(trace)|..], FileCalls(flwDevCnt, done), Table())
          decreases |fp|
        {
          var buf := Fgets(fp);
          NextPiece(done, fp, LoadedLines(files, cmd));
          LoadedLineIsDefined(flwDevCnt, done, buf, Pieces(fp[PieceLength(fp)..]));
          LoadPiece(buf, old(trace), done);
          done := done + [buf];
          fp := fp[PieceLength(fp)..];
        }
        NextPiece(done, fp, LoadedLines(files, cmd));
      }
    }

    lemma LoadedLineIsDefined(cnt: nat, done: seq<string>, buf: string, rest: seq<string>)
      requires LinesDefined(cnt, done + ([buf] + rest))
      ensures LineDefined(cnt, buf)
    {
      assert (done + ([buf] + rest))[|done|] == buf;
    }

    method CliCmd(files: FileStore, cmd: string)
      requires Valid()
      requires "filter" <= cmd ==> LineDefined(flwDevCnt, cmd)
      requires "load" <= cmd ==> LinesDefined(flwDevCnt, LoadedLines(files, cmd[4..]))
      modifies this`trace
      ensures old(trace) <= trace
      ensures AllCarry(trace[|old(trace)|..], CliCalls(flwDevCnt, files, cmd), Table())
    {
      if "help" <= cmd {
      } else if "filter" <= cmd {
        ghost var consumed := FibCmdFilter(cmd);
      } else if "show" <= cmd {
      } else if "load" <= cmd {
        CmdLoad(files, cmd[4..]);
      }
    }
  }
}
