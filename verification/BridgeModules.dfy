/** The bridge protocol module: its device table, its five commands, and command files that may
    load further command files. */
module BridgeModules {
  import opened CStrings
  import opened Numerals
  import opened BridgeSpec
  import opened BridgeLoad
  import opened Files
  import opened Devices

  /** One call through br_devs[dev]. */
  datatype SentCall = SentCall(target: Device?, call: BridgeCall)

  /** The calls, each to its slot of the table. */
  function Sent(table: seq<Device?>, calls: seq<BridgeCall>): seq<SentCall> {
    if calls == [] then []
    else
      var c := calls[0];
      [SentCall(if 0 <= c.dev < |table| then table[c.dev] else null, c)] + Sent(table, calls[1..])
  }

  lemma {:induction false} SentAppend(table: seq<Device?>, a: seq<BridgeCall>, b: seq<BridgeCall>)
    ensures Sent(table, a + b) == Sent(table, a) + Sent(table, b)
  {
    if a == [] {
      assert a + b == b;
    } else {
      SentAppend(table, a[1..], b);
      assert (a + b)[1..] == a[1..] + b;
    }
  }

  /** Every call is sent, in order, to the device in the slot that it names. */
  lemma {:induction false} SentAt(table: seq<Device?>, calls: seq<BridgeCall>)
    ensures |Sent(table, calls)| == |calls|
    ensures forall i :: 0 <= i < |calls| ==>
              && Sent(table, calls)[i].call == calls[i]
              && (0 <= calls[i].dev < |table| ==> Sent(table, calls)[i].target == table[calls[i].dev])
  {
    if calls != [] {
      SentAt(table, calls[1..]);
    }
  }

  /** One round of an option loop: a valid option leads on to the same end, another one ends it. */
  lemma OptionRound(op: BrOp, cnt: nat, args: Args, command: string, end: Option<Args>)
    requires OptionRun(op, cnt, args, Tokens(Some(command))) == end
    ensures var s := Strsep(command);
            match WordOf(op, s.token)
            case CommandWord => OptionRun(op, cnt, args, Tokens(s.rest)) == end
            case Unknown => end == None
            case Option(key) =>
              if ValueOf(s.token).Some? && (key == DevKey ==> 0 <= NumberOf(s.token) <= cnt - 1)
              then OptionRun(op, cnt, SetArg(args, key, NumberOf(s.token)), Tokens(s.rest)) == end
              else end == None
  {
    var s := Strsep(command);
    assert Tokens(Some(command)) == [s.token] + Tokens(s.rest);
    assert ([s.token] + Tokens(s.rest))[1..] == Tokens(s.rest);
    hide WordOf, Strsep, Tokens, ValueOf, NumberOf, SetArg;
  }

  lemma StrsepShrinks(s: string)
    ensures Strsep(s).rest.Some? ==> |Strsep(s).rest.value| < |s|
  {
  }

  lemma OptionRunEnd(op: BrOp, cnt: nat, args: Args)
    ensures OptionRun(op, cnt, args, Tokens(None)) == Some(args)
  {
  }

  /** The chain of tests in the loops of add-br and del-br. */
  lemma TwoOptionTests(op: BrOp, tok: string, own: string, n: nat)
    requires OwnWord(op) == (own, n) && ThirdWord(op) == None
    ensures WordOf(op, tok) ==
            if StrncmpEq(tok, own, n) then CommandWord
            else if StrncmpEq(tok, "dev", 3) then OptionWord.Option(DevKey)
            else if StrncmpEq(tok, "br-id", 5) then OptionWord.Option(BrKey)
            else Unknown
  {
    WholeLiteral(tok, "dev");
    WholeLiteral(tok, "br-id");
  }

  /** The chain of tests in the other three loops. */
  lemma ThreeOptionTests(op: BrOp, tok: string, own: string, n: nat, third: string, m: nat)
    requires OwnWord(op) == (own, n) && ThirdWord(op) == Some(third) && m == |third|
    ensures WordOf(op, tok) ==
            if StrncmpEq(tok, own, n) then CommandWord
            else if StrncmpEq(tok, "dev", 3) then OptionWord.Option(DevKey)
            else if StrncmpEq(tok, "br-id", 5) then OptionWord.Option(BrKey)
            else if StrncmpEq(tok, third, m) then OptionWord.Option(ThirdKey)
            else Unknown
  {
    WholeLiteral(tok, "dev");
    WholeLiteral(tok, "br-id");
    WholeLiteral(tok, third);
  }

  lemma AddBrTests(option: string)
    ensures WordOf(AddBr, option) ==
            if StrncmpEq(option, "add-br", 9) then CommandWord
            else if StrncmpEq(option, "dev", 3) then OptionWord.Option(DevKey)
            else if StrncmpEq(option, "br-id", 5) then OptionWord.Option(BrKey)
            else Unknown
  {
    TwoOptionTests(AddBr, option, "add-br", 9);
  }

  lemma DelBrTests(option: string)
    ensures WordOf(DelBr, option) ==
            if StrncmpEq(option, "del-br", 9) then CommandWord
            else if StrncmpEq(option, "dev", 3) then OptionWord.Option(DevKey)
            else if StrncmpEq(option, "br-id", 5) then OptionWord.Option(BrKey)
            else Unknown
  {
    TwoOptionTests(DelBr, option, "del-br", 9);
  }

  lemma AddBrIfTests(option: string)
    ensures WordOf(AddBrIf, option) ==
            if StrncmpEq(option, "add-br-if", 9) then CommandWord
            else if StrncmpEq(option, "dev", 3) then OptionWord.Option(DevKey)
            else if StrncmpEq(option, "br-id", 5) then OptionWord.Option(BrKey)
            else if StrncmpEq(option, "if-id", 5) then OptionWord.Option(ThirdKey)
            else Unknown
  {
    ThreeOptionTests(AddBrIf, option, "add-br-if", 9, "if-id", 5);
  }

  lemma DelBrIfTests(option: string)
    ensures WordOf(DelBrIf, option) ==
            if StrncmpEq(option, "del-br-if", 9) then CommandWord
            else if StrncmpEq(option, "dev", 3) then OptionWord.Option(DevKey)
            else if StrncmpEq(option, "br-id", 5) then OptionWord.Option(BrKey)
            else if StrncmpEq(option, "if-id", 5) then OptionWord.Option(ThirdKey)
            else Unknown
  {
    ThreeOptionTests(DelBrIf, option, "del-br-if", 9, "if-id", 5);
  }

  lemma SetAgeTests(option: string)
    ensures WordOf(SetAge, option) ==
            if StrncmpEq(option, "set-age", 7) then CommandWord
            else if StrncmpEq(option, "dev", 3) then OptionWord.Option(DevKey)
            else if StrncmpEq(option, "br-id", 5) then OptionWord.Option(BrKey)
            else if StrncmpEq(option, "age", 3) then OptionWord.Option(ThirdKey)
            else Unknown
  {
    ThreeOptionTests(SetAge, option, "set-age", 7, "age", 3);
  }

  /** What the end of an option loop means for the device calls. */
  lemma EndOfLoop(op: BrOp, cnt: nat, line: string, end: Option<Args>)
    requires end == OptionRun(op, cnt, NO_ARGS, Tokens(Some(line))) && BridgeLine(op, cnt, line) != BrUndefined
    ensures end == None ==> OpCalls(op, cnt, line) == []
    ensures end.Some? ==>
              && end.value.dev.Some? && end.value.br.Some? && (ThirdWord(op).Some? ==> end.value.third.Some?)
              && OpCalls(op, cnt, line) ==
                 [BridgeCall(op, end.value.dev.value, end.value.br.value,
                   if end.value.third.Some? then end.value.third.value else 0)]
  {
  }

  /** strstr(option, "=") and the conversion (short)atoi of what follows. */
  method OptionValue(option: string) returns (ok: bool, value: int)
    ensures ok <==> ValueOf(option).Some?
    ensures ok ==> value == NumberOf(option)
  {
    var val := ValueOf(option);
    if val.None? {
      return false, 0;
    }
    return true, Short(Atoi(val.value));
  }

  class BridgeModule {
    const brDevs: array<Device?>
    var brDevCnt: nat
    /** The device calls made so far. */
    var trace: seq<SentCall>

    ghost predicate Valid()
      reads this
    {
      brDevs.Length == MAX_OBJECTS && brDevCnt <= MAX_OBJECTS
    }

    ghost function Table(): seq<Device?>
      requires Valid()
      reads this, brDevs
    {
      brDevs[..brDevCnt]
    }

    constructor ()
      ensures Valid() && fresh(brDevs) && Table() == [] && trace == []
    {
      brDevs := new Device?[MAX_OBJECTS](_ => null);
      brDevCnt := 0;
      trace := [];
    }

    method RegisterDev(dev: Device)
      requires Valid() && brDevCnt < MAX_OBJECTS
      modifies this`brDevCnt, brDevs
      ensures Valid() && Table() == old(Table()) + [dev]
    {
      brDevs[brDevCnt] := dev;
      brDevCnt := brDevCnt + 1;
    }

    /** br_devs[dev_id]->op(br_id, third) */
    method Call(op: BrOp, devId: int, brId: int, third: int)
      requires Valid() && 0 <= devId < brDevCnt
      modifies this`trace
      ensures trace == old(trace) + Sent(Table(), [BridgeCall(op, devId, brId, third)])
    {
      trace := trace + [SentCall(brDevs[devId], BridgeCall(op, devId, brId, third))];
    }

    // ----- The five option loops; a variable holds anything until an option assigns it

    method CmdAddBr(cmd: string)
      requires Valid() && BridgeLine(AddBr, brDevCnt, cmd) != BrUndefined
      modifies this`trace
      ensures trace == old(trace) + Sent(Table(), OpCalls(AddBr, brDevCnt, cmd))
    {
      ghost var args, end := NO_ARGS, OptionRun(AddBr, brDevCnt, NO_ARGS, Tokens(Some(cmd)));
      EndOfLoop(AddBr, brDevCnt, cmd, end);
      assert Sent(Table(), []) == [];
      hide OwnWord, ThirdWord, Tokens, Strsep, Remaining, OptionRun, BridgeLine, OpCalls, Sent, WordOf, StrncmpEq,
           ValueOf, NumberOf;
      var devId: int := *;
      var brId: int := *;
      var command := Some(cmd);
      while command.Some?
        invariant OptionRun(AddBr, brDevCnt, args, Tokens(command)) == end
        invariant trace == old(trace)
        invariant args.dev.Some? ==> args.dev.value == devId && 0 <= devId < brDevCnt
        invariant args.br.Some? ==> args.br.value == brId
        invariant args.third.Some? ==> false
        decreases command.Some?, if command.Some? then |command.value| else 0
      {
        OptionRound(AddBr, brDevCnt, args, command.value, end);
        var s := Strsep(command.value);
        StrsepShrinks(command.value);
        command := s.rest;
        var option := s.token;
        AddBrTests(option);
        if !StrncmpEq(option, "add-br", 9) {
          var ok, value := OptionValue(option);
          if StrncmpEq(option, "dev", 3) {
            if !ok {
              return;
            }
            devId := value;
            if devId > brDevCnt - 1 || devId < 0 {
              return;
            }
            args := SetArg(args, DevKey, devId);
          } else if StrncmpEq(option, "br-id", 5) {
            if !ok {
              return;
            }
            brId := value;
            args := SetArg(args, BrKey, brId);
          } else {
            return;
          }
        }
      }
      OptionRunEnd(AddBr, brDevCnt, args);
      Call(AddBr, devId, brId, 0);
    }

    method CmdDelBr(cmd: string)
      requires Valid() && BridgeLine(DelBr, brDevCnt, cmd) != BrUndefined
      modifies this`trace
      ensures trace == old(trace) + Sent(Table(), OpCalls(DelBr, brDevCnt, cmd))
    {
      ghost var args, end := NO_ARGS, OptionRun(DelBr, brDevCnt, NO_ARGS, Tokens(Some(cmd)));
      EndOfLoop(DelBr, brDevCnt, cmd, end);
      assert Sent(Table(), []) == [];
      hide OwnWord, ThirdWord, Tokens, Strsep, Remaining, OptionRun, BridgeLine, OpCalls, Sent, WordOf, StrncmpEq,
           ValueOf, NumberOf;
      var devId: int := *;
      var brId: int := *;
      var command := Some(cmd);
      while command.Some?
        invariant OptionRun(DelBr, brDevCnt, args, Tokens(command)) == end
        invariant trace == old(trace)
        invariant args.dev.Some? ==> args.dev.value == devId && 0 <= devId < brDevCnt
        invariant args.br.Some? ==> args.br.value == brId
        invariant args.third.Some? ==> false
        decreases command.Some?, if command.Some? then |command.value| else 0
      {
        OptionRound(DelBr, brDevCnt, args, command.value, end);
        var s := Strsep(command.value);
        StrsepShrinks(command.value);
        command := s.rest;
        var option := s.token;
        DelBrTests(option);
        if !StrncmpEq(option, "del-br", 9) {
          var ok, value := OptionValue(option);
          if StrncmpEq(option, "dev", 3) {
            if !ok {
              return;
            }
            devId := value;
            if devId > brDevCnt - 1 || devId < 0 {
              return;
            }
            args := SetArg(args, DevKey, devId);
          } else if StrncmpEq(option, "br-id", 5) {
            if !ok {
              return;
            }
            brId := value;
            args := SetArg(args, BrKey, brId);
          } else {
            return;
          }
        }
      }
      OptionRunEnd(DelBr, brDevCnt, args);
      Call(DelBr, devId, brId, 0);
    }

    method CmdDelBrIf(cmd: string)
      requires Valid() && BridgeLine(DelBrIf, brDevCnt, cmd) != BrUndefined
      modifies this`trace
      ensures trace == old(trace) + Sent(Table(), OpCalls(DelBrIf, brDevCnt, cmd))
    {
      ghost var args, end := NO_ARGS, OptionRun(DelBrIf, brDevCnt, NO_ARGS, Tokens(Some(cmd)));
      EndOfLoop(DelBrIf, brDevCnt, cmd, end);
      assert end.Some? ==> end.value.third.Some?;
      assert Sent(Table(), []) == [];
      hide OwnWord, ThirdWord, Tokens, Strsep, Remaining, OptionRun, BridgeLine, OpCalls, Sent, WordOf, StrncmpEq,
           ValueOf, NumberOf;
      var devId: int := *;
      var brId: int := *;
      var ifId: int := *;
      var command := Some(cmd);
      while command.Some?
        invariant OptionRun(DelBrIf, brDevCnt, args, Tokens(command)) == end
        invariant trace == old(trace)
        invariant args.dev.Some? ==> args.dev.value == devId && 0 <= devId < brDevCnt
        invariant args.br.Some? ==> args.br.value == brId
        invariant args.third.Some? ==> args.third.value == ifId
        decreases command.Some?, if command.Some? then |command.value| else 0
      {
        OptionRound(DelBrIf, brDevCnt, args, command.value, end);
        var s := Strsep(command.value);
        StrsepShrinks(command.value);
        command := s.rest;
        var option := s.token;
        DelBrIfTests(option);
        if !StrncmpEq(option, "del-br-if", 9) {
          var ok, value := OptionValue(option);
          if StrncmpEq(option, "dev", 3) {
            if !ok {
              return;
            }
            devId := value;
            if devId > brDevCnt - 1 || devId < 0 {
              return;
            }
            args := SetArg(args, DevKey, devId);
          } else if StrncmpEq(option, "br-id", 5) {
            if !ok {
              return;
            }
            brId := value;
            args := SetArg(args, BrKey, brId);
          } else if StrncmpEq(option, "if-id", 5) {
            if !ok {
              return;
            }
            ifId := value;
            args := SetArg(args, ThirdKey, ifId);
          } else {
            return;
          }
        }
      }
      OptionRunEnd(DelBrIf, brDevCnt, args);
      Call(DelBrIf, devId, brId, ifId);
    }

    method CmdAddBrIf(cmd: string)
      requires Valid() && BridgeLine(AddBrIf, brDevCnt, cmd) != BrUndefined
      modifies this`trace
      ensures trace == old(trace) + Sent(Table(), OpCalls(AddBrIf, brDevCnt, cmd))
    {
      ghost var args, end := NO_ARGS, OptionRun(AddBrIf, brDevCnt, NO_ARGS, Tokens(Some(cmd)));
      EndOfLoop(AddBrIf, brDevCnt, cmd, end);
      assert end.Some? ==> end.value.third.Some?;
      assert Sent(Table(), []) == [];
      hide OwnWord, ThirdWord, Tokens, Strsep, Remaining, OptionRun, BridgeLine, OpCalls, Sent, WordOf, StrncmpEq,
           ValueOf, NumberOf;
      var devId: int := *;
      var brId: int := *;
      var ifId: int := *;
      var command := Some(cmd);
      while command.Some?
        invariant OptionRun(AddBrIf, brDevCnt, args, Tokens(command)) == end
        invariant trace == old(trace)
        invariant args.dev.Some? ==> args.dev.value == devId && 0 <= devId < brDevCnt
        invariant args.br.Some? ==> args.br.value == brId
        invariant args.third.Some? ==> args.third.value == ifId
        decreases command.Some?, if command.Some? then |command.value| else 0
      {
        OptionRound(AddBrIf, brDevCnt, args, command.value, end);
        var s := Strsep(command.value);
        StrsepShrinks(command.value);
        command := s.rest;
        var option := s.token;
        AddBrIfTests(option);
        if !StrncmpEq(option, "add-br-if", 9) {
          var ok, value := OptionValue(option);
          if StrncmpEq(option, "dev", 3) {
            if !ok {
              return;
            }
            devId := value;
            if devId > brDevCnt - 1 || devId < 0 {
              return;
            }
            args := SetArg(args, DevKey, devId);
          } else if StrncmpEq(option, "br-id", 5) {
            if !ok {
              return;
            }
            brId := value;
            args := SetArg(args, BrKey, brId);
          } else if StrncmpEq(option, "if-id", 5) {
            if !ok {
              return;
            }
            ifId := value;
            args := SetArg(args, ThirdKey, ifId);
          } else {
            return;
          }
        }
      }
      OptionRunEnd(AddBrIf, brDevCnt, args);
      Call(AddBrIf, devId, brId, ifId);
    }

    method CmdSetAge(cmd: string)
      requires Valid() && BridgeLine(SetAge, brDevCnt, cmd) != BrUndefined
      modifies this`trace
      ensures trace == old(trace) + Sent(Table(), OpCalls(SetAge, brDevCnt, cmd))
    {
      ghost var args, end := NO_ARGS, OptionRun(SetAge, brDevCnt, NO_ARGS, Tokens(Some(cmd)));
      EndOfLoop(SetAge, brDevCnt, cmd, end);
      assert end.Some? ==> end.value.third.Some?;
      assert Sent(Table(), []) == [];
      hide OwnWord, ThirdWord, Tokens, Strsep, Remaining, OptionRun, BridgeLine, OpCalls, Sent, WordOf, StrncmpEq,
           ValueOf, NumberOf;
      var devId: int := *;
      var brId: int := *;
      var age: int := *;
      var command := Some(cmd);
      while command.Some?
        invariant OptionRun(SetAge, brDevCnt, args, Tokens(command)) == end
        invariant trace == old(trace)
        invariant args.dev.Some? ==> args.dev.value == devId && 0 <= devId < brDevCnt
        invariant args.br.Some? ==> args.br.value == brId
        invariant args.third.Some? ==> args.third.value == age
        decreases command.Some?, if command.Some? then |command.value| else 0
      {
        OptionRound(SetAge, brDevCnt, args, command.value, end);
        var s := Strsep(command.value);
        StrsepShrinks(command.value);
        command := s.rest;
        var option := s.token;
        SetAgeTests(option);
        if !StrncmpEq(option, "set-age", 7) {
          var ok, value := OptionValue(option);
          if StrncmpEq(option, "dev", 3) {
            if !ok {
              return;
            }
            devId := value;
            if devId > brDevCnt - 1 || devId < 0 {
              return;
            }
            args := SetArg(args, DevKey, devId);
          } else if StrncmpEq(option, "br-id", 5) {
            if !ok {
              return;
            }
            brId := value;
            args := SetArg(args, BrKey, brId);
          } else if StrncmpEq(option, "age", 3) {
            if !ok {
              return;
            }
            age := value;
            args := SetArg(args, ThirdKey, age);
          } else {
            return;
          }
        }
      }
      OptionRunEnd(SetAge, brDevCnt, args);
      Call(SetAge, devId, brId, age);
    }

    // ----- Command files

    /** cli_cmd: dispatch in the order of the tests. */
    method CliCmd(files: FileStore, ghost rank: map<string, nat>, line: string)
      requires Valid() && Ranked(files, rank) && Covered(files, rank, line)
      requires AllDefined(brDevCnt, Inline(files, rank, line))
      modifies this`trace
      ensures trace == old(trace) + Sent(Table(), CliTrace(files, rank, brDevCnt, line))
      decreases CliRank(files, rank, line), 1
    {
      CliTests(line);
      WholeLiteral(line, "load");
      if CliClassify(line) != Some(Load) {
        CommandLine(files, rank, brDevCnt, line);
      }
      hide StrncmpEq, CliClassify, Ranked, CliTrace, Inline, BridgeLine, OpCalls, LoadTarget;
      if StrncmpEq(line, "help", 4) {
      } else if StrncmpEq(line, "add-br-if", 9) {
        CmdAddBrIf(line);
      } else if StrncmpEq(line, "del-br-if", 9) {
        CmdDelBrIf(line);
      } else if StrncmpEq(line, "add-br", 6) {
        CmdAddBr(line);
      } else if StrncmpEq(line, "del-br", 6) {
        CmdDelBr(line);
      } else if StrncmpEq(line, "show", 4) {
      } else if StrncmpEq(line, "set-age", 7) {
        CmdSetAge(line);
      } else if StrncmpEq(line, "load", 4) {
        CmdLoad(files, rank, line[4..], line);
      }
    }

    /** One buffer of a file whose first buffers made the calls behind trace0. */
    method LoadPiece(files: FileStore, ghost rank: map<string, nat>, ghost name: string,
                     ghost trace0: seq<SentCall>, ghost done: seq<string>, buf: string, ghost rest: seq<string>)
      requires Valid() && Ranked(files, rank) && name in rank && done + ([buf] + rest) == Pieces(files[name])
      requires AllBelow(files, rank, rank[name], Pieces(files[name]))
      requires AllDefined(brDevCnt, InlineLines(files, rank, rank[name], Pieces(files[name])))
      requires trace == trace0 + Sent(Table(), FileTrace(files, rank, brDevCnt, name, done))
      modifies this`trace
      ensures done + [buf] <= Pieces(files[name])
      ensures trace == trace0 + Sent(Table(), FileTrace(files, rank, brDevCnt, name, done + [buf]))
      decreases 2 * rank[name] + 2, 2
    {
      hide CliTrace, Inline, InlineLines, LinesTrace, Ranked, Covered, LoadsBelow, Pieces, AllDefined, AllBelow,
           FileTrace;
      PieceInFile(files, rank, brDevCnt, name, done, buf, rest);
      BelowIsCovered(files, rank, rank[name], buf);
      LineBelowFile(files, rank, name, buf);
      CliCmd(files, rank, buf);
      SentAppend(Table(), FileTrace(files, rank, brDevCnt, name, done), CliTrace(files, rank, brDevCnt, buf));
    }

    /** cmd_load: every buffer of the file is a command of its own, and may load again. */
    method CmdLoad(files: FileStore, ghost rank: map<string, nat>, cmd: string, ghost line: string)
      requires Valid() && Ranked(files, rank) && Covered(files, rank, line)
      requires AllDefined(brDevCnt, Inline(files, rank, line))
      requires "load" <= line && cmd == line[4..] && CliClassify(line) == Some(Load)
      modifies this`trace
      ensures trace == old(trace) + Sent(Table(), CliTrace(files, rank, brDevCnt, line))
      decreases CliRank(files, rank, line), 0
    {
      LoadLineTrace(files, rank, brDevCnt, line);
      hide CliClassify, CliTrace, Inline, InlineLines, LinesTrace, Defined, Ranked, Pieces;
      if |cmd| > 4 {
        if cmd[1..] !in files {
          return;
        }
        var fp := files[cmd[1..]];
        ghost var name := cmd[1..];
        ghost var done: seq<string> := [];
        NothingLoaded(files, rank, brDevCnt, name);
        while fp != []
          invariant done + Pieces(fp) == Pieces(files[name])
          invariant trace == old(trace) + Sent(Table(), FileTrace(files, rank, brDevCnt, name, done))
          decreases |fp|
        {
          var buf := Fgets(fp);
          NextPiece(done, fp, Pieces(files[name]));
          LoadPiece(files, rank, name, old(trace), done, buf, Pieces(fp[PieceLength(fp)..]));
          done := done + [buf];
          fp := fp[PieceLength(fp)..];
        }
        NextPiece(done, fp, Pieces(files[name]));
      }
    }

    lemma NothingLoaded(files: FileStore, rank: map<string, nat>, cnt: nat, name: string)
      requires Ranked(files, rank) && name in rank
      ensures FileTrace(files, rank, cnt, name, []) == []
    {
    }
  }
}
