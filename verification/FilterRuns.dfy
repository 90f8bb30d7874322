/** One activation of fib_cmd_filter: its local variables, and the loop bodies that update them. */
module FilterRuns {
  import opened CStrings
  import opened Numerals
  import opened FlowTypes
  import opened FilterSpec
  import opened Keywords

  predicate Fails(i: nat, option: string)
    requires i < |FILTER_TABLE|
  {
    !(FILTER_TABLE[i].key <= option)
  }

  /** strncmp(option, literal, n) == 0, the test for entry i of the keyword table. */
  method Strncmp(option: string, literal: string, n: nat, ghost i: nat) returns (zero: bool)
    requires i < |FILTER_TABLE| && n <= |literal| && literal[..n] == FILTER_TABLE[i].key
    ensures if zero then Classify(option) == FILTER_TABLE[i].word else Fails(i, option)
  {
    zero := StrncmpEq(option, literal, n);
    StrncmpMeaning(option, literal, n);
    if zero {
      Keyword(i, option);
    }
  }

  lemma AllTestsFail(option: string)
    requires forall i :: 0 <= i < |FILTER_TABLE| ==> Fails(i, option)
    ensures Classify(option) == Unknown
  {
    var m := FirstMatchIndex(FILTER_TABLE, option);
    assert m < |FILTER_TABLE| ==> Fails(m, option);
  }

  /** One round of the match loop on a non-empty token list. */
  lemma MatchRunFirst(cnt: nat, st: State, toks: seq<string>)
    requires toks != [] && TuplesFit(cnt, st, toks)
    ensures WritesTuple(st, toks[0]) ==> |st.tuples| < SLOTS
    ensures match MatchStep(cnt, st, toks[0])
            case Next(st') => MatchRun(cnt, st, toks) == MatchRun(cnt, st', toks[1..]) && TuplesFit(cnt, st', toks[1..])
            case Stop => MatchRun(cnt, st, toks) == Matched(st, toks[1..])
            case Refuse => MatchRun(cnt, st, toks) == Mismatch
            case Fault => MatchRun(cnt, st, toks) == Faulted
  {
  }

  lemma MatchRunEnd(cnt: nat, st: State)
    ensures MatchRun(cnt, st, Tokens(None)) == Matched(st, []) && Tokens(None) == []
  {
  }

  /** One round of the action loop on a non-empty token list. */
  lemma ActionRunFirst(acts: seq<Stored<ActionId>>, n: nat, toks: seq<string>)
    requires toks != [] && ActionsFit(n, toks)
    ensures WritesAction(toks[0]) ==> n < SLOTS
    ensures match ActionOf(toks[0])
            case Dropped => ActionRun(acts, toks) == ActionRun(acts, toks[1..]) && ActionsFit(n, toks[1..])
            case Output(a) => ActionRun(acts, toks) == ActionRun(acts + [a], toks[1..]) && ActionsFit(n + 1, toks[1..])
            case NotAnAction => ActionRun(acts, toks) == None
  {
  }

  class FilterRun {
    const tuples: array<Tuple>
    const actions: array<Action>
    var command: Option<string>
    var rqdField: nat
    var tupleCnt: nat
    var actionCnt: nat
    var devId: int
    var tblId: int
    var flowCmd: Cmd
    /** What the options read so far determine of the filled slots. */
    ghost var stored: seq<Stored<TupleId>>
    ghost var acts: seq<Stored<ActionId>>
    /** The tokens of the line, and those of them taken so far. */
    ghost const toks: seq<string>
    ghost var consumed: seq<string>

    ghost predicate Valid()
      reads this, tuples, actions
    {
      && tuples.Length == SLOTS && actions.Length == SLOTS
      && tupleCnt <= SLOTS && actionCnt <= SLOTS
      && TuplesHold(tuples[..tupleCnt], stored)
      && ActionsHold(actions[..actionCnt], acts)
    }

    /** The tokens taken and the tokens left are the tokens of the line. */
    ghost predicate Conserved()
      reads this
    {
      consumed + Tokens(command) == toks
    }

    ghost function Now(): State
      reads this
    {
      State(flowCmd, devId, tblId, rqdField, stored)
    }

    /** The call that the dispatch behind the loops would make now. */
    ghost function Calls(): seq<FlowCall>
      reads this
    {
      if flowCmd == NoCommand then [] else [FlowCall(flowCmd, devId, tblId, stored, acts)]
    }

    constructor (cmd: string)
      ensures Valid() && Conserved() && fresh(tuples) && fresh(actions)
      ensures command == Some(cmd) && Now() == INIT && acts == [] && actionCnt == 0 && toks == Tokens(Some(cmd))
    {
      tuples := new Tuple[SLOTS];
      actions := new Action[SLOTS];
      command := Some(cmd);
      rqdField, tupleCnt, actionCnt, devId, tblId, flowCmd := 0, 0, 0, 0, 0, NoCommand;
      stored, acts, consumed, toks := [], [], [], Tokens(Some(cmd));
    }

    /** option = strsep(&command, " ") */
    method NextToken(ghost before: seq<string>) returns (option: string)
      requires Conserved() && command.Some? && before == Tokens(command)
      modifies this`command, this`consumed
      ensures Conserved() && before != [] && option == before[0] && Tokens(command) == before[1..]
      ensures Remaining(command) < old(Remaining(command))
    {
      var s := Strsep(command.value);
      assert before == [s.token] + Tokens(s.rest);
      option, command := s.token, s.rest;
      consumed := consumed + [option];
    }

    // ----- Writes into tuples[tuple_cnt]

    method SetTupleId(id: TupleId)
      requires tupleCnt < tuples.Length
      modifies tuples
      ensures tuples[tupleCnt] == Tuple(id, old(tuples[tupleCnt].value))
      ensures forall i :: 0 <= i < tuples.Length && i != tupleCnt ==> tuples[i] == old(tuples[i])
    {
      tuples[tupleCnt] := tuples[tupleCnt].(id := id);
    }

    method SetTupleByte(k: nat, b: Byte)
      requires tupleCnt < tuples.Length && k < 16
      modifies tuples
      ensures tuples[tupleCnt] == Tuple(old(tuples[tupleCnt].id), old(tuples[tupleCnt].value)[k := b])
      ensures forall i :: 0 <= i < tuples.Length && i != tupleCnt ==> tuples[i] == old(tuples[i])
    {
      tuples[tupleCnt] := tuples[tupleCnt].(value := tuples[tupleCnt].value[k := b]);
    }

    /** tuple_cnt ++, after the value has been written. */
    method Keep(ghost f: Stored<TupleId>)
      requires tupleCnt < SLOTS && tuples.Length == SLOTS && actions.Length == SLOTS && actionCnt <= SLOTS
      requires TuplesHold(tuples[..tupleCnt], stored) && TupleHolds(tuples[tupleCnt], f)
      requires ActionsHold(actions[..actionCnt], acts)
      modifies this`tupleCnt, this`stored
      ensures Valid() && stored == old(stored) + [f]
    {
      tupleCnt := tupleCnt + 1;
      stored := stored + [f];
    }

    /** The value of a numeric option, in base 10 or 16, into the first two bytes. */
    method NumberField(option: string, id: TupleId, hex: bool, ghost pos: Place) returns (verdict: Verdict)
      requires Valid() && tupleCnt < SLOTS && id == CHAIN[pos] && rqdField == Stage(pos)
      requires pos !in {2, 3, 5, 6} && (hex <==> pos == 4)
      modifies this`tupleCnt, this`stored, tuples
      ensures Valid() && Took(FieldStep(old(Now()), pos, ValueOf(option)), old(Now()), verdict, Now())
    {
      SetTupleId(id);
      var val := ValueOf(option);
      if val.None? {
        return Out;
      }
      var x := Short(if hex then Strtol16(val.value) else Atoi(val.value));
      SetTupleByte(0, ShortBytes(x)[0]);
      SetTupleByte(1, ShortBytes(x)[1]);
      Keep(Stored(id, ShortBytes(x)));
      verdict := Continue;
    }

    method CopyOctets(octets: seq<Byte>)
      requires tupleCnt < tuples.Length && |octets| == 6
      modifies tuples
      ensures TupleHolds(tuples[tupleCnt], Stored(old(tuples[tupleCnt].id), octets))
      ensures forall i :: 0 <= i < tupleCnt ==> tuples[i] == old(tuples[i])
    {
      SetTupleByte(0, octets[0]);
      SetTupleByte(1, octets[1]);
      SetTupleByte(2, octets[2]);
      SetTupleByte(3, octets[3]);
      SetTupleByte(4, octets[4]);
      SetTupleByte(5, octets[5]);
    }

    method DlDstField(option: string) returns (verdict: Verdict)
      requires Valid() && tupleCnt < SLOTS && rqdField == Stage(2)
      modifies this`tupleCnt, this`stored, tuples
      ensures Valid() && Took(FieldStep(old(Now()), 2, ValueOf(option)), old(Now()), verdict, Now())
    {
      SetTupleId(DL_DST);
      var val := ValueOf(option);
      if val.None? {
        return Out;
      }
      var addr := EtherAton(val.value);
      if addr.None? {
        return Out;
      }
      CopyOctets(addr.value);
      Keep(Stored(DL_DST, addr.value));
      verdict := Continue;
    }

    /** Without a check of the address, which therefore has to be one. */
    method DlSrcField(option: string) returns (verdict: Verdict)
      requires Valid() && tupleCnt < SLOTS && rqdField == Stage(3)
      requires ValueOf(option).Some? ==> EtherAton(ValueOf(option).value).Some?
      modifies this`tupleCnt, this`stored, tuples
      ensures Valid() && Took(FieldStep(old(Now()), 3, ValueOf(option)), old(Now()), verdict, Now())
    {
      SetTupleId(DL_SRC);
      var val := ValueOf(option);
      if val.None? {
        return Out;
      }
      var addr := EtherAton(val.value);
      CopyOctets(addr.value);
      Keep(Stored(DL_SRC, addr.value));
      verdict := Continue;
    }

    /** inet_pton(AF_INET, text, value): nothing is written when the text is malformed. */
    method PtonInto(text: string)
      requires tupleCnt < tuples.Length
      modifies tuples
      ensures tuples[tupleCnt].id == old(tuples[tupleCnt].id)
      ensures match InetPton(text)
              case Some(q) => q <= tuples[tupleCnt].value
              case None => tuples[tupleCnt] == old(tuples[tupleCnt])
      ensures forall i :: 0 <= i < tupleCnt ==> tuples[i] == old(tuples[i])
    {
      var q := InetPton(text);
      if q.Some? {
        SetTupleByte(0, q.value[0]);
        SetTupleByte(1, q.value[1]);
        SetTupleByte(2, q.value[2]);
        SetTupleByte(3, q.value[3]);
      }
    }

    /** Exchange bytes a and b through a signed char, as the source does for the hardware. */
    method SwapBytes(a: nat, b: nat)
      requires tupleCnt < tuples.Length && a < b < 16
      modifies tuples
      ensures var v := old(tuples[tupleCnt].value);
              tuples[tupleCnt] == Tuple(old(tuples[tupleCnt].id), v[a := v[b]][b := v[a]])
      ensures forall i :: 0 <= i < tupleCnt ==> tuples[i] == old(tuples[i])
    {
      var tempChar := SignedChar(tuples[tupleCnt].value[a]);
      SetTupleByte(a, tuples[tupleCnt].value[b]);
      SetTupleByte(b, UnsignedByte(tempChar));
    }

    method Ip4Field(option: string, id: TupleId, ghost pos: Place) returns (verdict: Verdict)
      requires Valid() && tupleCnt < SLOTS && id == CHAIN[pos] && rqdField == Stage(pos) && pos in {5, 6}
      modifies this`tupleCnt, this`stored, tuples
      ensures Valid() && Took(FieldStep(old(Now()), pos, ValueOf(option)), old(Now()), verdict, Now())
    {
      SetTupleId(id);
      var val := ValueOf(option);
      if val.None? {
        return Out;
      }
      PtonInto(val.value);
      SwapBytes(0, 3);
      SwapBytes(1, 2);
      Keep(Stored(id, Decode(pos, val.value).bytes));
      verdict := Continue;
    }

    // ----- Match phase

    /** The tests for filter and the command words. */
    method CommandOption(devCnt: nat, option: string) returns (hit: bool)
      requires Valid()
      modifies this`flowCmd
      ensures Valid()
      ensures hit ==> MatchStep(devCnt, old(Now()), option) == Next(Now())
      ensures !hit ==>
                && flowCmd == old(flowCmd)
                && Fails(0, option) && Fails(1, option) && Fails(2, option) && Fails(3, option)
    {
      hide Classify, OptionStep, TuplesHold, ActionsHold, ValueOf;
      hit := Strncmp(option, "filter", 6, 0);
      if hit {
        return;
      }
      hit := Strncmp(option, "add", 3, 1);
      if hit {
        flowCmd := Add;
        return;
      }
      hit := DelOrDump(devCnt, option);
    }

    method DelOrDump(devCnt: nat, option: string) returns (hit: bool)
      requires Valid()
      modifies this`flowCmd
      ensures Valid()
      ensures hit ==> MatchStep(devCnt, old(Now()), option) == Next(Now())
      ensures !hit ==> flowCmd == old(flowCmd) && Fails(2, option) && Fails(3, option)
    {
      hide Classify, OptionStep, TuplesHold, ActionsHold, ValueOf;
      hit := Strncmp(option, "del", 3, 2);
      if hit {
        flowCmd := Del;
        return;
      }
      hit := Strncmp(option, "dump", 4, 3);
      if hit {
        flowCmd := Dump;
      }
    }

    /** One round of the match loop. */
    method MatchOption(devCnt: nat, option: string) returns (verdict: Verdict)
      requires Valid()
      requires MatchStep(devCnt, Now(), option) != Fault
      requires WritesTuple(Now(), option) ==> tupleCnt < SLOTS
      modifies this`rqdField, this`tupleCnt, this`devId, this`tblId, this`flowCmd, this`stored, tuples
      ensures Valid() && Took(MatchStep(devCnt, old(Now()), option), old(Now()), verdict, Now())
    {
      var hit := CommandOption(devCnt, option);
      if hit {
        return Continue;
      }
      NoCommandWord(option);
      if flowCmd == NoCommand {
        return Out;
      }
      hide Classify, TuplesHold, ActionsHold;
      verdict := NumberOption(devCnt, option);
    }

    lemma NoCommandWord(option: string)
      requires Fails(0, option) && Fails(1, option) && Fails(2, option) && Fails(3, option)
      ensures !Classify(option).FilterWord? && !Classify(option).Command?
    {
      var m := FirstMatchIndex(FILTER_TABLE, option);
      assert m < |FILTER_TABLE| ==> !Fails(m, option);
    }

    method DevOption(devCnt: nat, option: string) returns (verdict: Verdict)
      requires Valid()
      modifies this`devId
      ensures Valid() && Took(OptionStep(devCnt, old(Now()), Dev, ValueOf(option)), old(Now()), verdict, Now())
    {
      var val := ValueOf(option);
      if val.None? {
        return Out;
      }
      devId := Short(Atoi(val.value));
      if devId > devCnt || devId < 0 {
        return Out;
      }
      verdict := Continue;
    }

    method TblOption(devCnt: nat, option: string) returns (verdict: Verdict)
      requires Valid()
      modifies this`tblId
      ensures Valid() && Took(OptionStep(devCnt, old(Now()), Tbl, ValueOf(option)), old(Now()), verdict, Now())
    {
      var val := ValueOf(option);
      if val.None? {
        return Out;
      }
      tblId := Short(Atoi(val.value));
      if tblId < 0 {
        return Out;
      }
      verdict := Continue;
    }

    /** The dev and tbl tests of the chain. */
    method NumberOption(devCnt: nat, option: string) returns (verdict: Verdict)
      requires Valid() && Fails(0, option) && Fails(1, option) && Fails(2, option) && Fails(3, option)
      requires Classify(option).Field? ==> CanStore(Classify(option).pos, option)
      modifies this`rqdField, this`tupleCnt, this`devId, this`tblId, this`stored, tuples
      ensures Valid()
      ensures Took(OptionStep(devCnt, old(Now()), Classify(option), ValueOf(option)), old(Now()), verdict, Now())
    {
      var hit := Strncmp(option, "dev", 3, 4);
      if hit {
        verdict := DevOption(devCnt, option);
        return;
      }
      hit := Strncmp(option, "tbl", 3, 5);
      if hit {
        verdict := TblOption(devCnt, option);
        return;
      }
      verdict := PortOption(devCnt, option);
    }

    // The branches of the chain: check the order, advance rqd_field, store the value.

    method InPhyPort(option: string) returns (verdict: Verdict)
      requires CanStore(0, option)
      modifies this`rqdField, this`tupleCnt, this`stored, tuples
      ensures Valid() && Took(PlaceStep(old(Now()), 0, ValueOf(option)), old(Now()), verdict, Now())
    {
      rqdField := 1;
      verdict := NumberField(option, IN_PHY_PORT, false, 0);
    }

    method InPort(option: string) returns (verdict: Verdict)
      requires CanStore(1, option)
      modifies this`rqdField, this`tupleCnt, this`stored, tuples
      ensures Valid() && Took(PlaceStep(old(Now()), 1, ValueOf(option)), old(Now()), verdict, Now())
    {
      if rqdField != 1 {
        return Out;
      }
      rqdField := 2;
      verdict := NumberField(option, IN_PORT, false, 1);
    }

    method DlDst(option: string) returns (verdict: Verdict)
      requires CanStore(2, option)
      modifies this`rqdField, this`tupleCnt, this`stored, tuples
      ensures Valid() && Took(PlaceStep(old(Now()), 2, ValueOf(option)), old(Now()), verdict, Now())
    {
      if rqdField != 2 {
        return Out;
      }
      rqdField := 3;
      verdict := DlDstField(option);
    }

    method DlSrc(option: string) returns (verdict: Verdict)
      requires CanStore(3, option)
      modifies this`rqdField, this`tupleCnt, this`stored, tuples
      ensures Valid() && Took(PlaceStep(old(Now()), 3, ValueOf(option)), old(Now()), verdict, Now())
    {
      if rqdField != 3 {
        return Out;
      }
      rqdField := 4;
      verdict := DlSrcField(option);
    }

    method DlType(option: string) returns (verdict: Verdict)
      requires CanStore(4, option)
      modifies this`rqdField, this`tupleCnt, this`stored, tuples
      ensures Valid() && Took(PlaceStep(old(Now()), 4, ValueOf(option)), old(Now()), verdict, Now())
    {
      if rqdField != 4 {
        return Out;
      }
      rqdField := 5;
      verdict := NumberField(option, DL_TYPE, true, 4);
    }

    method NwDst(option: string) returns (verdict: Verdict)
      requires CanStore(5, option)
      modifies this`rqdField, this`tupleCnt, this`stored, tuples
      ensures Valid() && Took(PlaceStep(old(Now()), 5, ValueOf(option)), old(Now()), verdict, Now())
    {
      if rqdField != 5 {
        return Out;
      }
      rqdField := 6;
      verdict := Ip4Field(option, NW4_DST, 5);
    }

    method NwSrc(option: string) returns (verdict: Verdict)
      requires CanStore(6, option)
      modifies this`rqdField, this`tupleCnt, this`stored, tuples
      ensures Valid() && Took(PlaceStep(old(Now()), 6, ValueOf(option)), old(Now()), verdict, Now())
    {
      if rqdField != 6 {
        return Out;
      }
      rqdField := 7;
      verdict := Ip4Field(option, NW4_SRC, 6);
    }

    method NwEcn(option: string) returns (verdict: Verdict)
      requires CanStore(7, option)
      modifies this`rqdField, this`tupleCnt, this`stored, tuples
      ensures Valid() && Took(PlaceStep(old(Now()), 7, ValueOf(option)), old(Now()), verdict, Now())
    {
      if rqdField != 7 {
        return Out;
      }
      rqdField := 8;
      verdict := NumberField(option, NW_ECN, false, 7);
    }

    method NwProto(option: string) returns (verdict: Verdict)
      requires CanStore(8, option)
      modifies this`rqdField, this`tupleCnt, this`stored, tuples
      ensures Valid() && Took(PlaceStep(old(Now()), 8, ValueOf(option)), old(Now()), verdict, Now())
    {
      if rqdField != 8 {
        return Out;
      }
      rqdField := 9;
      verdict := NumberField(option, NW_PROTO, false, 8);
    }

    method TpDst(option: string) returns (verdict: Verdict)
      requires CanStore(9, option)
      modifies this`rqdField, this`tupleCnt, this`stored, tuples
      ensures Valid() && Took(PlaceStep(old(Now()), 9, ValueOf(option)), old(Now()), verdict, Now())
    {
      if rqdField != 9 {
        return Out;
      }
      rqdField := 11;
      verdict := NumberField(option, TP_DST, false, 9);
    }

    method TpSrc(option: string) returns (verdict: Verdict)
      requires CanStore(10, option)
      modifies this`rqdField, this`tupleCnt, this`stored, tuples
      ensures Valid() && Took(PlaceStep(old(Now()), 10, ValueOf(option)), old(Now()), verdict, Now())
    {
      if rqdField != 11 {
        return Out;
      }
      rqdField := 12;
      verdict := NumberField(option, TP_SRC, false, 10);
    }

    ghost predicate CanStore(pos: Place, option: string)
      reads this, tuples, actions
    {
      && Valid() && PlaceStep(Now(), pos, ValueOf(option)) != Fault
      && (InOrder(rqdField, pos) ==> tupleCnt < SLOTS)
    }

    /** Ports */
    method PortOption(devCnt: nat, option: string) returns (verdict: Verdict)
      requires Valid() && forall i :: 0 <= i < 6 ==> Fails(i, option)
      requires Classify(option).Field? ==> CanStore(Classify(option).pos, option)
      modifies this`rqdField, this`tupleCnt, this`stored, tuples
      ensures Valid()
      ensures Took(OptionStep(devCnt, old(Now()), Classify(option), ValueOf(option)), old(Now()), verdict, Now())
    {
      var hit := Strncmp(option, "in-phy-port", 11, 6);
      if hit {
        verdict := InPhyPort(option);
        return;
      }
      hit := Strncmp(option, "in-port", 7, 7);
      if hit {
        verdict := InPort(option);
        return;
      }
      verdict := EthernetOption(devCnt, option);
    }

    /** Ethernet */
    method EthernetOption(devCnt: nat, option: string) returns (verdict: Verdict)
      requires Valid() && forall i :: 0 <= i < 8 ==> Fails(i, option)
      requires Classify(option).Field? ==> CanStore(Classify(option).pos, option)
      modifies this`rqdField, this`tupleCnt, this`stored, tuples
      ensures Valid()
      ensures Took(OptionStep(devCnt, old(Now()), Classify(option), ValueOf(option)), old(Now()), verdict, Now())
    {
      hide Classify, PlaceStep, TuplesHold, ActionsHold;
      var hit := Strncmp(option, "dl-dst", 6, 8);
      if hit {
        verdict := DlDst(option);
        return;
      }
      hit := Strncmp(option, "dl-src", 6, 9);
      if hit {
        verdict := DlSrc(option);
        return;
      }
      hit := Strncmp(option, "dl-type", 6, 10);
      if hit {
        verdict := DlType(option);
        return;
      }
      verdict := Ip4Option(devCnt, option);
    }

    /** IP v4 */
    method Ip4Option(devCnt: nat, option: string) returns (verdict: Verdict)
      requires Valid() && forall i :: 0 <= i < 11 ==> Fails(i, option)
      requires Classify(option).Field? ==> CanStore(Classify(option).pos, option)
      modifies this`rqdField, this`tupleCnt, this`stored, tuples
      ensures Valid()
      ensures Took(OptionStep(devCnt, old(Now()), Classify(option), ValueOf(option)), old(Now()), verdict, Now())
    {
      hide Classify, PlaceStep, TuplesHold, ActionsHold;
      var hit := Strncmp(option, "nw-dst", 6, 11);
      if hit {
        verdict := NwDst(option);
        return;
      }
      hit := Strncmp(option, "nw-src", 6, 12);
      if hit {
        verdict := NwSrc(option);
        return;
      }
      hit := Strncmp(option, "nw-ecn", 6, 13);
      if hit {
        verdict := NwEcn(option);
        return;
      }
      hit := Strncmp(option, "nw-proto", 8, 14);
      if hit {
        verdict := NwProto(option);
        return;
      }
      verdict := TransportOption(devCnt, option);
    }

    /** Transport ports, the action word, and the unknown option */
    method TransportOption(devCnt: nat, option: string) returns (verdict: Verdict)
      requires Valid() && forall i :: 0 <= i < 15 ==> Fails(i, option)
      requires Classify(option).Field? ==> CanStore(Classify(option).pos, option)
      modifies this`rqdField, this`tupleCnt, this`stored, tuples
      ensures Valid()
      ensures Took(OptionStep(devCnt, old(Now()), Classify(option), ValueOf(option)), old(Now()), verdict, Now())
    {
      hide PlaceStep, TuplesHold, ActionsHold;
      var hit := Strncmp(option, "tp-dst", 6, 15);
      if hit {
        verdict := TpDst(option);
        return;
      }
      hit := Strncmp(option, "tp-src", 6, 16);
      if hit {
        verdict := TpSrc(option);
        return;
      }
      hit := Strncmp(option, "action", 6, 17);
      if hit {
        return Break;
      }
      AllTestsFail(option);
      verdict := Out;
    }

    /** The match loop, left by the end of the line, by break at an action word, or by goto out. */
    method MatchPhase(devCnt: nat, ghost end: MatchEnd) returns (ok: bool)
      requires Valid() && Conserved() && MatchRun(devCnt, Now(), Tokens(command)) == end != Faulted
      requires TuplesFit(devCnt, Now(), Tokens(command))
      modifies this`command, this`consumed, this`rqdField, this`tupleCnt, this`devId, this`tblId, this`flowCmd,
               this`stored, tuples
      ensures Valid() && Conserved()
      ensures match end
              case Matched(st, rest) => ok && Now() == st && Tokens(command) == rest
              case _ => !ok
    {
      hide MatchStep, MatchRun, TuplesFit, TupleHolds, ActionsHold, WritesTuple;
      while command.Some?
        invariant Valid() && Conserved()
        invariant MatchRun(devCnt, Now(), Tokens(command)) == end
        invariant TuplesFit(devCnt, Now(), Tokens(command))
        decreases Remaining(command)
      {
        ghost var before := Tokens(command);
        MatchRunFirst(devCnt, Now(), before);
        var option := NextToken(before);
        var verdict := MatchOption(devCnt, option);
        if verdict == Out {
          return false;
        }
        if verdict == Break {
          break;
        }
      }
      MatchRunEnd(devCnt, Now());
      ok := true;
    }

    // ----- Action phase

    lemma ActionTests(option: string)
      ensures StrncmpEq(option, "drop", 4) <==> "drop" <= option
      ensures StrncmpEq(option, "out-port", 8) <==> "out-port" <= option
    {
      StrncmpMeaning(option, "drop", 4);
      StrncmpMeaning(option, "out-port", 8);
      assert "drop"[..4] == "drop" && "out-port"[..8] == "out-port";
    }

    /** One round of the action loop. */
    method ActionOption(option: string) returns (verdict: Verdict)
      requires Valid()
      requires WritesAction(option) ==> actionCnt < SLOTS
      modifies this`actionCnt, this`acts, actions
      ensures Valid()
      ensures match ActionOf(option)
              case Dropped => verdict == Continue && acts == old(acts) && actionCnt == old(actionCnt)
              case Output(a) => verdict == Continue && acts == old(acts) + [a] && actionCnt == old(actionCnt) + 1
              case NotAnAction => verdict == Out
    {
      ActionTests(option);
      hide StrncmpEq, ValueOf, Atoi, Short;
      if StrncmpEq(option, "drop", 4) {
        actions[actionCnt] := actions[actionCnt].(id := DROP);
        return Continue;
      } else if StrncmpEq(option, "out-port", 8) {
        actions[actionCnt] := actions[actionCnt].(id := OUT_PORT);
        var val := ValueOf(option);
        if val.None? {
          return Out;
        }
        var bytes := ShortBytes(Short(Atoi(val.value)));
        var v := actions[actionCnt].value;
        actions[actionCnt] := actions[actionCnt].(value := v[0 := bytes[0]][1 := bytes[1]]);
        acts := acts + [Stored(OUT_PORT, bytes)];
      } else {
        return Out;
      }
      actionCnt := actionCnt + 1;
      verdict := Continue;
    }

    /** The action loop; without an action word there is nothing left to read. */
    method ActionPhase(ghost result: Option<seq<Stored<ActionId>>>) returns (ok: bool)
      requires Valid() && Conserved() && ActionRun(acts, Tokens(command)) == result
      requires ActionsFit(actionCnt, Tokens(command))
      modifies this`command, this`consumed, this`actionCnt, this`acts, actions
      ensures Valid() && Conserved()
      ensures match result
              case Some(all) => ok && acts == all && command == None
              case None => !ok
    {
      hide ActionOf, WritesAction;
      while command.Some?
        invariant Valid() && Conserved()
        invariant ActionRun(acts, Tokens(command)) == result
        invariant ActionsFit(actionCnt, Tokens(command))
        decreases Remaining(command)
      {
        ghost var before := Tokens(command);
        ActionRunFirst(acts, actionCnt, before);
        var option := NextToken(before);
        var verdict := ActionOption(option);
        if verdict == Out {
          return false;
        }
      }
      ok := true;
    }

    /** Both loops of fib_cmd_filter; false where they leave by goto out. */
    method BothPhases(devCnt: nat, ghost end: MatchEnd, ghost result: Option<seq<Stored<ActionId>>>) returns (ok: bool)
      requires Valid() && Conserved() && MatchRun(devCnt, Now(), Tokens(command)) == end != Faulted
      requires TuplesFit(devCnt, Now(), Tokens(command)) && acts == [] && actionCnt == 0
      requires end.Matched? ==> ActionRun([], end.rest) == result && ActionsFit(0, end.rest)
      modifies this, tuples, actions
      ensures Valid() && Conserved()
      ensures ok <==> end.Matched? && result.Some?
      ensures ok ==> Now() == end.st && acts == result.value && command == None
    {
      ok := MatchPhase(devCnt, end);
      if ok {
        ok := ActionPhase(result);
      }
    }
  }
}
