/** The canonical command line of a bridge call, and what the bridge parser makes of it. */
module BridgeText {
  import opened CStrings
  import opened Numerals
  import opened Keywords
  import opened BridgeSpec
  import opened BridgeLoad

  /** The calls that command lines can ask for. */
  predicate WellFormedCall(cnt: nat, c: BridgeCall) {
    && 0 <= c.dev < cnt && c.dev < 0x8000 && -0x8000 <= c.br < 0x8000 && -0x8000 <= c.third < 0x8000
    && (!Needs(c.op, ThirdKey) ==> c.third == 0)
  }

  function KeyText(op: BrOp, key: Key): string
    requires Needs(op, key)
  {
    match key
    case DevKey => "dev"
    case BrKey => "br-id"
    case ThirdKey => ThirdWord(op).value
  }

  function OptionText(op: BrOp, key: Key, n: int): string
    requires Needs(op, key)
  {
    KeyValue(KeyText(op, key), DecSigned(n))
  }

  /** dev=0 br-id=1 if-id=2 */
  function OptionTexts(c: BridgeCall): seq<string> {
    [OptionText(c.op, DevKey, c.dev), OptionText(c.op, BrKey, c.br)] +
    if Needs(c.op, ThirdKey) then [OptionText(c.op, ThirdKey, c.third)] else []
  }

  function LineTokens(c: BridgeCall): seq<string> {
    [OwnWord(c.op).0] + OptionTexts(c)
  }

  function Render(c: BridgeCall): string {
    Join(LineTokens(c))
  }

  // ----- Tokens

  lemma KeyTextChars(op: BrOp, key: Key)
    requires Needs(op, key)
    ensures '=' !in KeyText(op, key) && IsWord(KeyText(op, key)) && |KeyText(op, key)| >= 3
  {
  }

  /** Which test succeeds on an option that starts with its key. */
  lemma WordOfKey(op: BrOp, key: Key, rest: string)
    requires Needs(op, key)
    ensures WordOf(op, KeyText(op, key) + rest) == OptionWord.Option(key)
  {
    var k := KeyText(op, key);
    var tok := k + rest;
    assert tok[..|k|] == k && k <= tok;
    assert tok[0] == k[0] && tok[1] == k[1] && tok[2] == k[2];
    assert !StrncmpEq(tok, OwnWord(op).0, OwnWord(op).1) by {
      NotOwnWord(op, tok);
    }
  }

  lemma NotOwnWord(op: BrOp, tok: string)
    requires |tok| >= 3 && (tok[0] == 'd' ==> tok[2] == 'v') && tok[0] != 's'
    requires tok[0] == 'a' ==> tok[1] == 'g'
    ensures !StrncmpEq(tok, OwnWord(op).0, OwnWord(op).1)
  {
    var own, n := OwnWord(op).0, OwnWord(op).1;
    assert Take(tok, n)[0] == tok[0] && Take(tok, n)[1] == tok[1] && Take(tok, n)[2] == tok[2];
  }

  lemma OptionRead(op: BrOp, key: Key, n: int, tail: LineEnd)
    requires Needs(op, key) && -0x8000 <= n < 0x8000
    ensures var tok := OptionText(op, key, n) + tail;
            WordOf(op, tok) == OptionWord.Option(key) && ValueOf(tok).Some? && NumberOf(tok) == n
  {
    hide WordOf, KeyText, ValueOf, NumberOf, DecSigned, ThirdWord, IsDigit;
    var k := KeyText(op, key);
    KeyTextChars(op, key);
    LineEndIsNoDigit(tail);
    NumberOfText(k, n, tail);
    WordOfKey(op, key, "=" + DecSigned(n) + tail);
    assert OptionText(op, key, n) + tail == k + ("=" + DecSigned(n) + tail);
  }

  lemma LineEndIsNoDigit(tail: LineEnd)
    ensures tail == [] || !IsDigit(tail[0], 10)
  {
  }

  lemma OptionIsWord(op: BrOp, key: Key, n: int)
    requires Needs(op, key)
    ensures IsWord(OptionText(op, key, n))
  {
    hide KeyText, DecSigned, ThirdWord;
    KeyTextChars(op, key);
    DecSignedIsPlain(n);
  }

  lemma OwnWordRead(op: BrOp)
    ensures WordOf(op, OwnWord(op).0) == CommandWord
  {
  }

  // ----- The option loop on canonical tokens

  /** The arguments that are given in the first n options of the canonical line. */
  function ArgsUpTo(c: BridgeCall, n: nat): Args {
    Args(if n > 0 then Some(c.dev) else None, if n > 1 then Some(c.br) else None, if n > 2 then Some(c.third) else None)
  }

  lemma OneOption(op: BrOp, cnt: nat, args: Args, key: Key, n: int, tail: LineEnd, rest: seq<string>)
    requires Needs(op, key) && -0x8000 <= n < 0x8000 && (key == DevKey ==> 0 <= n < cnt)
    ensures OptionRun(op, cnt, args, [OptionText(op, key, n) + tail] + rest) ==
            OptionRun(op, cnt, SetArg(args, key, n), rest)
  {
    OptionRead(op, key, n, tail);
    hide WordOf, ValueOf, NumberOf, OptionText;
    var t := OptionText(op, key, n) + tail;
    assert ([t] + rest)[1..] == rest;
  }

  lemma OwnWordRun(op: BrOp, cnt: nat, args: Args, rest: seq<string>)
    ensures OptionRun(op, cnt, args, [OwnWord(op).0] + rest) == OptionRun(op, cnt, args, rest)
  {
    OwnWordRead(op);
    hide WordOf, OwnWord;
    assert ([OwnWord(op).0] + rest)[1..] == rest;
  }

  lemma CanonicalRun(cnt: nat, c: BridgeCall, tail: LineEnd)
    requires WellFormedCall(cnt, c)
    ensures OptionRun(c.op, cnt, NO_ARGS, Ended(LineTokens(c), tail)) ==
            Some(ArgsUpTo(c, if Needs(c.op, ThirdKey) then 3 else 2))
  {
    hide OptionRun, OptionText, OwnWord;
    var own := OwnWord(c.op).0;
    var dev, br := OptionText(c.op, DevKey, c.dev), OptionText(c.op, BrKey, c.br);
    assert dev + "" == dev && br + "" == br;
    if Needs(c.op, ThirdKey) {
      var third := OptionText(c.op, ThirdKey, c.third);
      assert Ended(LineTokens(c), tail) == [own] + ([dev] + ([br] + ([third + tail] + [])));
      OwnWordRun(c.op, cnt, NO_ARGS, [dev] + ([br] + ([third + tail] + [])));
      OneOption(c.op, cnt, NO_ARGS, DevKey, c.dev, "", [br] + ([third + tail] + []));
      OneOption(c.op, cnt, ArgsUpTo(c, 1), BrKey, c.br, "", [third + tail] + []);
      OneOption(c.op, cnt, ArgsUpTo(c, 2), ThirdKey, c.third, tail, []);
    } else {
      assert Ended(LineTokens(c), tail) == [own] + ([dev] + ([br + tail] + []));
      OwnWordRun(c.op, cnt, NO_ARGS, [dev] + ([br + tail] + []));
      OneOption(c.op, cnt, NO_ARGS, DevKey, c.dev, "", [br + tail] + []);
      OneOption(c.op, cnt, ArgsUpTo(c, 1), BrKey, c.br, tail, []);
    }
    EmptyRun(c.op, cnt, ArgsUpTo(c, if Needs(c.op, ThirdKey) then 3 else 2));
  }

  lemma EmptyRun(op: BrOp, cnt: nat, args: Args)
    ensures OptionRun(op, cnt, args, []) == Some(args)
  {
  }

  lemma LineTokensAreWords(c: BridgeCall)
    ensures AllWords(LineTokens(c))
  {
    hide OptionText, OwnWord, Needs, IsWord;
    assert IsWord(OwnWord(c.op).0) by { OwnWordIsWord(c.op); }
    assert Needs(c.op, DevKey) && Needs(c.op, BrKey) by { AlwaysNeeded(c.op); }
    OptionIsWord(c.op, DevKey, c.dev);
    OptionIsWord(c.op, BrKey, c.br);
    if Needs(c.op, ThirdKey) {
      OptionIsWord(c.op, ThirdKey, c.third);
    }
  }

  lemma AlwaysNeeded(op: BrOp)
    ensures Needs(op, DevKey) && Needs(op, BrKey)
  {
  }

  lemma OwnWordIsWord(op: BrOp)
    ensures IsWord(OwnWord(op).0)
  {
  }

  /** Parsing the canonical line of a call, with or without a newline, gives the call back. */
  lemma ParseOfRender(cnt: nat, c: BridgeCall, tail: LineEnd)
    requires WellFormedCall(cnt, c)
    ensures BridgeLine(c.op, cnt, Render(c) + tail) == BrCalled(c)
  {
    LineTokensAreWords(c);
    TokensOfEnded(LineTokens(c), tail);
    CanonicalRun(cnt, c, tail);
    hide OptionRun, LineTokens, Tokens, Ended, OwnWord;
  }

  lemma WordOfOption(op: BrOp, key: Key, n: int)
    requires Needs(op, key)
    ensures WordOf(op, OptionText(op, key, n)) == OptionWord.Option(key)
  {
    hide KeyText, WordOf, DecSigned, ThirdWord;
    WordOfKey(op, key, "=" + DecSigned(n));
    assert OptionText(op, key, n) == KeyText(op, key) + ("=" + DecSigned(n));
  }

  lemma ThreeDistinct(op: BrOp, own: string, dev: string, br: string)
    requires WordOf(op, own) == CommandWord
    requires WordOf(op, dev) == OptionWord.Option(DevKey) && WordOf(op, br) == OptionWord.Option(BrKey)
    ensures DistinctOptions(op, [own, dev, br])
    ensures forall third :: WordOf(op, third) == OptionWord.Option(ThirdKey) ==>
              DistinctOptions(op, [own, dev, br, third])
  {
    hide WordOf;
  }

  lemma OptionsAreDistinct(c: BridgeCall)
    ensures DistinctOptions(c.op, LineTokens(c))
  {
    hide WordOf, OptionText, OwnWord, Needs, DistinctOptions;
    var own := OwnWord(c.op).0;
    AlwaysNeeded(c.op);
    OwnWordRead(c.op);
    var dev, br := OptionText(c.op, DevKey, c.dev), OptionText(c.op, BrKey, c.br);
    WordOfOption(c.op, DevKey, c.dev);
    WordOfOption(c.op, BrKey, c.br);
    ThreeDistinct(c.op, own, dev, br);
    if Needs(c.op, ThirdKey) {
      WordOfOption(c.op, ThirdKey, c.third);
      assert LineTokens(c) == [own, dev, br, OptionText(c.op, ThirdKey, c.third)];
    } else {
      assert LineTokens(c) == [own, dev, br];
    }
  }

  /** The options of the canonical line in any order make the same call. */
  lemma ParseOfReordered(cnt: nat, c: BridgeCall, options: seq<string>)
    requires WellFormedCall(cnt, c) && Permutation(OptionTexts(c), options)
    ensures BridgeLine(c.op, cnt, Join([OwnWord(c.op).0] + options)) == BrCalled(c)
  {
    hide OwnWord, OptionTexts, WordOf;
    LineTokensAreWords(c);
    assert forall i :: 0 <= i < |OptionTexts(c)| ==> OptionTexts(c)[i] == LineTokens(c)[i + 1];
    forall i | 0 <= i < |options| ensures IsWord(options[i]) {
      var j := PermutationMember(options, OptionTexts(c), i);
    }
    assert IsWord(LineTokens(c)[0]);
    OptionsAreDistinct(c);
    PermutedLine(c.op, cnt, OwnWord(c.op).0, OptionTexts(c), options);
    ParseOfRender(cnt, c, "");
    assert Render(c) + "" == Render(c);
  }

  function EntryOf(op: BrOp): (i: nat)
    ensures i < |CLI_TABLE| && CLI_TABLE[i] == Entry(OwnWord(op).0, Run(op))
  {
    match op
    case AddBrIf => 1
    case DelBrIf => 2
    case AddBr => 3
    case DelBr => 4
    case SetAge => 6
  }

  /** A line that starts with a command word and a space is dispatched to this command. */
  lemma CommandWordDispatch(op: BrOp, line: string)
    requires OwnWord(op).0 + " " <= line
    ensures CliClassify(line) == Some(Run(op))
  {
    hide FirstMatch;
    var i, own := EntryOf(op), OwnWord(op).0;
    assert own <= line && line[|own|] == ' ';
    CliPicksLongest();
    var m := FirstMatchIndex(CLI_TABLE, line);
    assert !(m > i);
    var key := CLI_TABLE[m].key;
    assert CLI_TABLE[i] in CLI_TABLE && IsLongest(CLI_TABLE, line, CLI_TABLE[m]);
    PrefixesCompare(own, key, line);
    if m != i {
      CliPrefixes(i, m);
    }
  }

  lemma RenderedWord(c: BridgeCall, tail: LineEnd)
    ensures CliClassify(Render(c) + tail) == Some(Run(c.op))
  {
    hide OwnWord, OptionText;
    var own, rest := OwnWord(c.op).0, OptionTexts(c);
    JoinAppend([own], rest);
    assert Render(c) + tail == own + " " + (Join(rest) + tail);
    CommandWordDispatch(c.op, Render(c) + tail);
  }

  /** The well-formed calls are exactly the ones that some command line makes. */
  lemma WellFormedCallIff(cnt: nat, c: BridgeCall)
    ensures WellFormedCall(cnt, c) <==> exists line :: DirectCalls(cnt, line) == [c]
  {
    if WellFormedCall(cnt, c) {
      ParseOfRender(cnt, c, "");
      RenderedWord(c, "");
      assert DirectCalls(cnt, Render(c) + "") == [c];
    }
    if line :| DirectCalls(cnt, line) == [c] {
      var op := CliClassify(line).value.op;
      CallIsWellFormed(op, cnt, line, c);
    }
  }

  lemma CallIsWellFormed(op: BrOp, cnt: nat, line: string, c: BridgeCall)
    requires BridgeLine(op, cnt, line) == BrCalled(c)
    ensures WellFormedCall(cnt, c)
  {
    var toks := Tokens(Some(line));
    BridgeLanguage(op, cnt, line);
    ArgInRange(op, cnt, toks, DevKey, c);
    ArgInRange(op, cnt, toks, BrKey, c);
    if Needs(op, ThirdKey) {
      ArgInRange(op, cnt, toks, ThirdKey, c);
    }
  }

  lemma ArgInRange(op: BrOp, cnt: nat, toks: seq<string>, key: Key, c: BridgeCall)
    requires AllValid(op, cnt, toks) && Complete(op, toks) && IsCallOf(op, toks, c) && Needs(op, key)
    ensures -0x8000 <= ArgOf(c, key) < 0x8000 && (key == DevKey ==> 0 <= c.dev < cnt)
  {
    assert HasOption(op, key, toks);
    var k := LastArgIndex(op, key, toks);
    assert k < |toks| && ValidOption(op, cnt, toks[k]);
    assert ArgOf(c, key) == NumberOf(toks[k]);
  }

  /** The command word alone is accepted, and the call then reads variables never assigned. */
  lemma BareCommand(op: BrOp, cnt: nat)
    ensures BridgeLine(op, cnt, OwnWord(op).0) == BrUndefined
  {
    var own := OwnWord(op).0;
    OwnWordIsWord(op);
    TokensOfJoin([own]);
    OwnWordRun(op, cnt, NO_ARGS, []);
    EmptyRun(op, cnt, NO_ARGS);
    hide OptionRun, Tokens, OwnWord;
    assert [own] + [] == [own] && Join([own]) == own;
  }
}
