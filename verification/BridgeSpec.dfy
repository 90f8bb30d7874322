/** The five bridge commands as instances of one option parser, without any order of the options. */
module BridgeSpec {
  import opened CStrings
  import opened Numerals
  import opened Keywords

  datatype BrOp = AddBr | DelBr | AddBrIf | DelBrIf | SetAge

  /** One call of a bridge device; third is the interface or the age, 0 for the two-argument calls. */
  datatype BridgeCall = BridgeCall(op: BrOp, dev: int, br: int, third: int)

  // ----- Options

  datatype Key = DevKey | BrKey | ThirdKey

  datatype OptionWord = CommandWord | Option(key: Key) | Unknown

  /** The literal that the loop skips, and how many characters strncmp compares: nine, so that
      "add-br" and "del-br" have to be the whole token. */
  function OwnWord(op: BrOp): (string, nat) {
    match op
    case AddBr => ("add-br", 9)
    case DelBr => ("del-br", 9)
    case AddBrIf => ("add-br-if", 9)
    case DelBrIf => ("del-br-if", 9)
    case SetAge => ("set-age", 7)
  }

  function ThirdWord(op: BrOp): Option<string> {
    match op
    case AddBrIf => Some("if-id")
    case DelBrIf => Some("if-id")
    case SetAge => Some("age")
    case _ => None
  }

  function WordOf(op: BrOp, tok: string): OptionWord {
    if StrncmpEq(tok, OwnWord(op).0, OwnWord(op).1) then CommandWord
    else if "dev" <= tok then Option(DevKey)
    else if "br-id" <= tok then Option(BrKey)
    else if ThirdWord(op).Some? && ThirdWord(op).value <= tok then Option(ThirdKey)
    else Unknown
  }

  predicate IsOwnWord(op: BrOp, tok: string) {
    match op
    case AddBr => tok == "add-br"
    case DelBr => tok == "del-br"
    case AddBrIf => "add-br-if" <= tok
    case DelBrIf => "del-br-if" <= tok
    case SetAge => "set-age" <= tok
  }

  predicate IsThirdWord(op: BrOp, tok: string) {
    match op
    case AddBrIf => "if-id" <= tok
    case DelBrIf => "if-id" <= tok
    case SetAge => "age" <= tok
    case _ => false
  }

  /** The tokens of the five loops by their text; "add-br" and "del-br" have to be the whole token. */
  lemma WordMeaning(op: BrOp, tok: string)
    ensures WordOf(op, tok) == CommandWord <==> IsOwnWord(op, tok)
    ensures WordOf(op, tok) == Option(DevKey) <==> "dev" <= tok
    ensures WordOf(op, tok) == Option(BrKey) <==> "br-id" <= tok
    ensures WordOf(op, tok) == Option(ThirdKey) <==> IsThirdWord(op, tok)
  {
    StrncmpMeaning(tok, OwnWord(op).0, OwnWord(op).1);
    OwnWordPrefix(op);
    WordsDiffer(op, tok);
    hide StrncmpEq;
  }

  lemma OwnWordPrefix(op: BrOp)
    ensures OwnWord(op).1 <= |OwnWord(op).0| ==> OwnWord(op).0[..OwnWord(op).1] == OwnWord(op).0
  {
  }

  /** No two of the words start the same token. */
  lemma WordsDiffer(op: BrOp, tok: string)
    ensures "dev" <= tok ==> !IsOwnWord(op, tok) && !("br-id" <= tok) && !IsThirdWord(op, tok)
    ensures "br-id" <= tok ==> !IsOwnWord(op, tok) && !IsThirdWord(op, tok)
    ensures IsThirdWord(op, tok) ==> !IsOwnWord(op, tok)
  {
    assert "dev"[0] == 'd' && "dev"[2] == 'v' && "br-id"[0] == 'b' && "if-id"[0] == 'i' && "age"[0] ==
           'a' && "age"[1] == 'g';
    assert "add-br"[0] == 'a' && "add-br"[1] == 'd' && "del-br"[0] == 'd' && "del-br"[2] == 'l' && "set-age"[0] == 's';
    assert "add-br-if"[0] == 'a' && "add-br-if"[1] == 'd' && "del-br-if"[0] == 'd' && "del-br-if"[2] == 'l';
  }

  /** dev_id, br_id and if_id or age, None while the variable has not been assigned. */
  datatype Args = Args(dev: Option<int>, br: Option<int>, third: Option<int>)

  const NO_ARGS := Args(None, None, None)

  function SetArg(args: Args, key: Key, n: int): Args {
    match key
    case DevKey => args.(dev := Some(n))
    case BrKey => args.(br := Some(n))
    case ThirdKey => args.(third := Some(n))
  }

  /** A value is required, and a device has to be one of the cnt registered ones. */
  predicate ValidOption(op: BrOp, cnt: nat, tok: string) {
    match WordOf(op, tok)
    case CommandWord => true
    case Option(key) => ValueOf(tok).Some? && (key == DevKey ==> 0 <= NumberOf(tok) <= cnt - 1)
    case Unknown => false
  }

  /** Which tokens a loop takes, by their text: its own word, and an option with a value, which for a
      device is the number of a registered one. */
  lemma ValidMeaning(op: BrOp, cnt: nat, tok: string)
    ensures ValidOption(op, cnt, tok) <==>
            || IsOwnWord(op, tok)
            || (ValueOf(tok).Some? && (
                 || ("dev" <= tok && 0 <= Short(Atoi(ValueOf(tok).value)) < cnt)
                 || "br-id" <= tok || IsThirdWord(op, tok)))
  {
    WordMeaning(op, tok);
    WordsDiffer(op, tok);
    hide WordOf, IsOwnWord, IsThirdWord, Atoi, Short, ValueOf;
  }

  /** The option loop; None where it leaves by goto out. */
  function OptionRun(op: BrOp, cnt: nat, args: Args, toks: seq<string>): Option<Args>
    decreases |toks|
  {
    if toks == [] then Some(args)
    else if !ValidOption(op, cnt, toks[0]) then None
    else OptionRun(op, cnt, AfterOption(op, args, toks[0]), toks[1..])
  }

  function AfterOption(op: BrOp, args: Args, tok: string): Args {
    match WordOf(op, tok)
    case Option(key) => SetArg(args, key, NumberOf(tok))
    case _ => args
  }

  /** Undefined where the C program reads a variable that it never assigned. */
  datatype BrOutcome = BrRejected | BrUndefined | BrCalled(call: BridgeCall)

  function Finish(op: BrOp, end: Option<Args>): BrOutcome {
    match end
    case None => BrRejected
    case Some(Args(dev, br, third)) =>
      if dev.None? || br.None? || (ThirdWord(op).Some? && third.None?) then BrUndefined
      else BrCalled(BridgeCall(op, dev.value, br.value, if third.Some? then third.value else 0))
  }

  function BridgeLine(op: BrOp, cnt: nat, line: string): BrOutcome {
    Finish(op, OptionRun(op, cnt, NO_ARGS, Tokens(Some(line))))
  }

  function OpCalls(op: BrOp, cnt: nat, line: string): seq<BridgeCall> {
    match BridgeLine(op, cnt, line)
    case BrCalled(c) => [c]
    case _ => []
  }

  // ----- Meaning of an option list: the last option of every key wins

  ghost predicate AllValid(op: BrOp, cnt: nat, toks: seq<string>) {
    forall i :: 0 <= i < |toks| ==> ValidOption(op, cnt, toks[i])
  }

  function LastArg(op: BrOp, key: Key, toks: seq<string>): Option<int> {
    if toks == [] then None
    else if WordOf(op, toks[|toks| - 1]) == Option(key) then Some(NumberOf(toks[|toks| - 1]))
    else LastArg(op, key, toks[..|toks| - 1])
  }

  function LastArgs(op: BrOp, toks: seq<string>): Args {
    Args(LastArg(op, DevKey, toks), LastArg(op, BrKey, toks), LastArg(op, ThirdKey, toks))
  }

  lemma {:induction false} OptionRunSnoc(op: BrOp, cnt: nat, args: Args, toks: seq<string>, t: string)
    ensures OptionRun(op, cnt, args, toks + [t]) ==
            match OptionRun(op, cnt, args, toks)
            case None => None
            case Some(a) => if ValidOption(op, cnt, t) then Some(AfterOption(op, a, t)) else None
    decreases |toks|
  {
    hide ValidOption, AfterOption;
    if toks == [] {
      assert ([] + [t])[1..] == [];
    } else {
      assert (toks + [t])[1..] == toks[1..] + [t];
      OptionRunSnoc(op, cnt, AfterOption(op, args, toks[0]), toks[1..], t);
    }
  }

  /** A loop accepts exactly the lists of valid options, in any order, and the last one wins. */
  lemma {:induction false} OptionLanguage(op: BrOp, cnt: nat, toks: seq<string>)
    ensures OptionRun(op, cnt, NO_ARGS, toks) == if AllValid(op, cnt, toks) then Some(LastArgs(op, toks)) else None
    decreases |toks|
  {
    if toks != [] {
      var front, t := toks[..|toks| - 1], toks[|toks| - 1];
      assert toks == front + [t];
      OptionLanguage(op, cnt, front);
      OptionRunSnoc(op, cnt, NO_ARGS, front, t);
      assert AllValid(op, cnt, toks) <==> AllValid(op, cnt, front) && ValidOption(op, cnt, t);
      hide ValidOption, WordOf, OptionRun;
    }
  }

  // ----- Which lines call, and what

  ghost predicate HasOption(op: BrOp, key: Key, toks: seq<string>) {
    exists i :: 0 <= i < |toks| && WordOf(op, toks[i]) == Option(key)
  }

  /** The last option with this key. */
  ghost predicate LastAt(op: BrOp, key: Key, toks: seq<string>, k: nat)
    requires k < |toks|
  {
    WordOf(op, toks[k]) == Option(key) && forall j :: k < j < |toks| ==> WordOf(op, toks[j]) != Option(key)
  }

  /** Where LastArg comes from. */
  lemma {:induction false} LastArgIndex(op: BrOp, key: Key, toks: seq<string>) returns (k: nat)
    ensures k <= |toks|
    ensures if k < |toks| then LastAt(op, key, toks, k) && LastArg(op, key, toks) == Some(NumberOf(toks[k]))
            else LastArg(op, key, toks) == None && !HasOption(op, key, toks)
  {
    hide WordOf, NumberOf;
    if toks == [] {
      k := 0;
    } else if WordOf(op, toks[|toks| - 1]) == Option(key) {
      k := |toks| - 1;
    } else {
      k := LastArgIndex(op, key, toks[..|toks| - 1]);
      if k == |toks| - 1 {
        k := |toks|;
      }
    }
  }

  predicate Needs(op: BrOp, key: Key) {
    key == ThirdKey ==> ThirdWord(op).Some?
  }

  /** Every option that the call needs is given. */
  ghost predicate Complete(op: BrOp, toks: seq<string>) {
    forall key :: Needs(op, key) ==> HasOption(op, key, toks)
  }

  function ArgOf(c: BridgeCall, key: Key): int {
    match key
    case DevKey => c.dev
    case BrKey => c.br
    case ThirdKey => c.third
  }

  /** The call of the operation with the last value of every key. */
  ghost predicate IsCallOf(op: BrOp, toks: seq<string>, c: BridgeCall) {
    && c.op == op && (!Needs(op, ThirdKey) ==> c.third == 0)
    && forall key, k :: Needs(op, key) && 0 <= k < |toks| && LastAt(op, key, toks, k) ==>
      ArgOf(c, key) == NumberOf(toks[k])
  }

  lemma LastArgValue(op: BrOp, key: Key, toks: seq<string>)
    ensures LastArg(op, key, toks).Some? <==> HasOption(op, key, toks)
    ensures forall k :: 0 <= k < |toks| && LastAt(op, key, toks, k) ==>
              LastArg(op, key, toks) == Some(NumberOf(toks[k]))
    ensures !Needs(op, key) ==> LastArg(op, key, toks) == None
  {
    hide NumberOf, LastArg;
    var m := LastArgIndex(op, key, toks);
    forall k | 0 <= k < |toks| && LastAt(op, key, toks, k) ensures LastArg(op, key, toks) == Some(NumberOf(toks[k])) {
      assert m < |toks| && k == m;
    }
  }

  /** A line is refused exactly if some token is not a valid option; the program reads a variable
      that it never assigned exactly if all are valid and a needed option is missing; every other
      line makes the one call with the last value of every key. */
  lemma BridgeLanguage(op: BrOp, cnt: nat, line: string)
    ensures var toks := Tokens(Some(line));
            && (BridgeLine(op, cnt, line) == BrRejected <==> !AllValid(op, cnt, toks))
            && (BridgeLine(op, cnt, line) == BrUndefined <==> AllValid(op, cnt, toks) && !Complete(op, toks))
            && (BridgeLine(op, cnt, line).BrCalled? <==> AllValid(op, cnt, toks) && Complete(op, toks))
            && (BridgeLine(op, cnt, line).BrCalled? ==> IsCallOf(op, toks, BridgeLine(op, cnt, line).call))
  {
    var toks := Tokens(Some(line));
    OptionLanguage(op, cnt, toks);
    LastArgValue(op, DevKey, toks);
    LastArgValue(op, BrKey, toks);
    LastArgValue(op, ThirdKey, toks);
    hide OptionRun, AllValid, LastArg, HasOption, LastAt, NumberOf, ThirdWord, Tokens;
    assert Complete(op, toks) <==>
           && HasOption(op, DevKey, toks) && HasOption(op, BrKey, toks)
           && (Needs(op, ThirdKey) ==> HasOption(op, ThirdKey, toks)) by {
      assert Needs(op, DevKey) && Needs(op, BrKey);
    }
  }

  // ----- The order of the options

  /** Options with the same key give the same value; so do distinct keys, or repeated options. */
  ghost predicate Unambiguous(op: BrOp, toks: seq<string>) {
    forall i, j :: 0 <= i < |toks| && 0 <= j < |toks| && Clash(op, toks[i], toks[j]) ==>
      NumberOf(toks[i]) == NumberOf(toks[j])
  }

  predicate Clash(op: BrOp, s: string, t: string) {
    WordOf(op, s).Option? && WordOf(op, s) == WordOf(op, t)
  }

  ghost predicate DistinctOptions(op: BrOp, toks: seq<string>) {
    forall i, j :: 0 <= i < j < |toks| ==> !Clash(op, toks[i], toks[j])
  }

  ghost predicate Permutation(a: seq<string>, b: seq<string>) {
    multiset(a) == multiset(b)
  }

  lemma PermutationMember(a: seq<string>, b: seq<string>, i: nat) returns (j: nat)
    requires Permutation(a, b) && i < |a|
    ensures j < |b| && b[j] == a[i]
  {
    assert a[i] in multiset(b);
    j :| 0 <= j < |b| && b[j] == a[i];
  }

  lemma PermutedArg(op: BrOp, key: Key, a: seq<string>, b: seq<string>)
    requires Permutation(a, b) && Unambiguous(op, a)
    ensures LastArg(op, key, a) == LastArg(op, key, b)
  {
    hide WordOf, NumberOf, LastArg;
    var i := LastArgIndex(op, key, a);
    var j := LastArgIndex(op, key, b);
    if i < |a| {
      var i' := PermutationMember(a, b, i);
    }
    if j < |b| {
      var j' := PermutationMember(b, a, j);
      if i < |a| {
        assert Clash(op, a[i], a[j']);
      }
    }
  }

  lemma PermutedValid(op: BrOp, cnt: nat, a: seq<string>, b: seq<string>)
    requires Permutation(a, b) && AllValid(op, cnt, a)
    ensures AllValid(op, cnt, b)
  {
    forall j | 0 <= j < |b| ensures ValidOption(op, cnt, b[j]) {
      var i := PermutationMember(b, a, j);
    }
  }

  /** Reordering options that do not contradict each other changes nothing. */
  lemma PermutedRun(op: BrOp, cnt: nat, a: seq<string>, b: seq<string>)
    requires Permutation(a, b) && Unambiguous(op, a)
    ensures OptionRun(op, cnt, NO_ARGS, a) == OptionRun(op, cnt, NO_ARGS, b)
  {
    OptionLanguage(op, cnt, a);
    OptionLanguage(op, cnt, b);
    PermutedArg(op, DevKey, a, b);
    PermutedArg(op, BrKey, a, b);
    PermutedArg(op, ThirdKey, a, b);
    if AllValid(op, cnt, a) {
      PermutedValid(op, cnt, a, b);
    }
    if AllValid(op, cnt, b) {
      PermutedValid(op, cnt, b, a);
    }
  }

  lemma DistinctIsUnambiguous(op: BrOp, toks: seq<string>)
    requires DistinctOptions(op, toks)
    ensures Unambiguous(op, toks)
  {
    forall i, j | 0 <= i < |toks| && 0 <= j < |toks| && Clash(op, toks[i], toks[j])
      ensures NumberOf(toks[i]) == NumberOf(toks[j])
    {
      assert Clash(op, toks[j], toks[i]);
    }
  }

  /** toks with the i-th token moved to the end. */
  function MovedLast(toks: seq<string>, i: nat): seq<string>
    requires i < |toks|
  {
    toks[..i] + toks[i + 1..] + [toks[i]]
  }

  lemma MovedLastIsPermutation(toks: seq<string>, i: nat)
    requires i < |toks|
    ensures Permutation(MovedLast(toks, i), toks)
  {
    assert toks == toks[..i] + [toks[i]] + toks[i + 1..];
  }

  lemma MovedLastArg(op: BrOp, toks: seq<string>, i: nat)
    requires i < |toks| && WordOf(op, toks[i]).Option?
    ensures LastArg(op, WordOf(op, toks[i]).key, MovedLast(toks, i)) == Some(NumberOf(toks[i]))
  {
  }

  ghost predicate OrderIrrelevant(op: BrOp, cnt: nat, toks: seq<string>) {
    forall other :: Permutation(other, toks) ==> OptionRun(op, cnt, NO_ARGS, other) == OptionRun(op, cnt, NO_ARGS, toks)
  }

  lemma InvalidInAnyOrder(op: BrOp, cnt: nat, toks: seq<string>, other: seq<string>)
    requires Permutation(other, toks) && !AllValid(op, cnt, toks)
    ensures OptionRun(op, cnt, NO_ARGS, other) == OptionRun(op, cnt, NO_ARGS, toks)
  {
    if AllValid(op, cnt, other) {
      PermutedValid(op, cnt, other, toks);
    }
    OptionLanguage(op, cnt, toks);
    OptionLanguage(op, cnt, other);
  }

  /** The order of the options is irrelevant exactly if some option is not valid, which every order
      meets, or no two of them contradict each other. */
  lemma OrderIrrelevantIff(op: BrOp, cnt: nat, toks: seq<string>)
    ensures OrderIrrelevant(op, cnt, toks) <==> (AllValid(op, cnt, toks) ==> Unambiguous(op, toks))
  {
    if !AllValid(op, cnt, toks) {
      forall other | Permutation(other, toks)
        ensures OptionRun(op, cnt, NO_ARGS, other) == OptionRun(op, cnt, NO_ARGS, toks)
      {
        InvalidInAnyOrder(op, cnt, toks, other);
      }
    } else if Unambiguous(op, toks) {
      forall other | Permutation(other, toks)
        ensures OptionRun(op, cnt, NO_ARGS, other) == OptionRun(op, cnt, NO_ARGS, toks)
      {
        PermutedRun(op, cnt, toks, other);
      }
    }
    if OrderIrrelevant(op, cnt, toks) && AllValid(op, cnt, toks) {
      forall i, j | 0 <= i < |toks| && 0 <= j < |toks| && Clash(op, toks[i], toks[j])
        ensures NumberOf(toks[i]) == NumberOf(toks[j])
      {
        SameLast(op, cnt, toks, i);
        SameLast(op, cnt, toks, j);
      }
    }
  }

  lemma SameLast(op: BrOp, cnt: nat, toks: seq<string>, i: nat)
    requires AllValid(op, cnt, toks) && OrderIrrelevant(op, cnt, toks)
    requires i < |toks| && WordOf(op, toks[i]).Option?
    ensures LastArg(op, WordOf(op, toks[i]).key, toks) == Some(NumberOf(toks[i]))
  {
    var other := MovedLast(toks, i);
    MovedLastIsPermutation(toks, i);
    MovedLastArg(op, toks, i);
    assert OptionRun(op, cnt, NO_ARGS, other) == OptionRun(op, cnt, NO_ARGS, toks);
    OptionLanguage(op, cnt, toks);
    OptionLanguage(op, cnt, other);
    hide WordOf, LastArg, OptionRun, MovedLast;
    match WordOf(op, toks[i]).key
    case DevKey =>
    case BrKey =>
    case ThirdKey =>
  }

  /** Every option of a list with distinct keys is passed to the device. */
  ghost predicate PassesAll(op: BrOp, toks: seq<string>, c: BridgeCall) {
    && c.op == op && (!Needs(op, ThirdKey) ==> c.third == 0)
    && forall i :: 0 <= i < |toks| && WordOf(op, toks[i]).Option? ==>
      ArgOf(c, WordOf(op, toks[i]).key) == NumberOf(toks[i])
  }

  lemma DistinctArePassed(op: BrOp, toks: seq<string>, c: BridgeCall)
    requires DistinctOptions(op, toks) && IsCallOf(op, toks, c)
    ensures PassesAll(op, toks, c)
  {
    forall i | 0 <= i < |toks| && WordOf(op, toks[i]).Option?
      ensures ArgOf(c, WordOf(op, toks[i]).key) == NumberOf(toks[i])
    {
      forall j | i < j < |toks| ensures WordOf(op, toks[j]) != WordOf(op, toks[i]) {
        assert !Clash(op, toks[i], toks[j]);
      }
      assert LastAt(op, WordOf(op, toks[i]).key, toks, i);
    }
  }

  /** On text: the options of a command line with distinct keys, in any order behind the command
      word, call alike; valid and complete ones make the one call that passes each of them. */
  lemma PermutedLine(op: BrOp, cnt: nat, word: string, a: seq<string>, b: seq<string>)
    requires IsWord(word) && AllWords(a) && AllWords(b)
    requires Permutation(a, b) && DistinctOptions(op, [word] + a)
    ensures BridgeLine(op, cnt, Join([word] + a)) == BridgeLine(op, cnt, Join([word] + b))
    ensures AllValid(op, cnt, [word] + a) && Complete(op, [word] + a) ==>
            && BridgeLine(op, cnt, Join([word] + b)).BrCalled?
            && PassesAll(op, [word] + a, BridgeLine(op, cnt, Join([word] + b)).call)
  {
    TokensOfJoin([word] + a);
    TokensOfJoin([word] + b);
    assert multiset([word] + a) == multiset{word} + multiset(a);
    assert multiset([word] + b) == multiset{word} + multiset(b);
    DistinctIsUnambiguous(op, [word] + a);
    PermutedRun(op, cnt, [word] + a, [word] + b);
    BridgeLanguage(op, cnt, Join([word] + a));
    if AllValid(op, cnt, [word] + a) && Complete(op, [word] + a) {
      DistinctArePassed(op, [word] + a, BridgeLine(op, cnt, Join([word] + a)).call);
    }
    hide OptionRun, AllValid, Complete, DistinctOptions, PassesAll, IsCallOf, Tokens, Join;
  }

  // ----- Command words

  datatype CliWord = Help | Run(op: BrOp) | Show | Load

  /** The tests of cli_cmd, in their order. */
  const CLI_TABLE: seq<Entry<CliWord>> := [
    Entry("help", Help),
    Entry("add-br-if", Run(AddBrIf)),
    Entry("del-br-if", Run(DelBrIf)),
    Entry("add-br", Run(AddBr)),
    Entry("del-br", Run(DelBr)),
    Entry("show", Show),
    Entry("set-age", Run(SetAge)),
    Entry("load", Load)]

  function CliClassify(line: string): Option<CliWord> {
    match FirstMatch(CLI_TABLE, line)
    case None => None
    case Some(e) => Some(e.word)
  }

  lemma CliPrefixes(i: nat, j: nat)
    requires i < |CLI_TABLE| && j < |CLI_TABLE| && i != j
    ensures CLI_TABLE[i].key <= CLI_TABLE[j].key <==> (i == 3 && j == 1) || (i == 4 && j == 2)
  {
    var a, b := CLI_TABLE[i].key, CLI_TABLE[j].key;
    if (i == 3 && j == 1) || (i == 4 && j == 2) {
      assert b[..6] == a;
    } else {
      assert |b| < |a| || a[0] != b[0] || a[1] != b[1] || a[2] != b[2];
    }
  }

  /** The order of the tests implements longest-keyword match. */
  lemma CliPicksLongest()
    ensures DistinctKeys(CLI_TABLE) && NoShadowing(CLI_TABLE) && PicksLongest(CLI_TABLE)
  {
    forall i, j | 0 <= i < j < |CLI_TABLE|
      ensures !(CLI_TABLE[i].key <= CLI_TABLE[j].key) && CLI_TABLE[i].key != CLI_TABLE[j].key
    {
      CliPrefixes(i, j);
    }
    LongestMatchIff(CLI_TABLE);
  }

  /** Every test for the longer word of an overlapping pair stands before the shorter one's. */
  ghost predicate LongerFirst(table: seq<Entry<CliWord>>) {
    forall i, j :: 0 <= i < |table| && 0 <= j < |table|
                && (|| (table[i] == CLI_TABLE[1] && table[j] == CLI_TABLE[3])
                    || (table[i] == CLI_TABLE[2] && table[j] == CLI_TABLE[4]))
                ==> i < j
  }

  /** Another order of the tests dispatches every line alike exactly if add-br-if stays before
      add-br and del-br-if before del-br. */
  lemma CliReorderingIff(other: seq<Entry<CliWord>>)
    requires DistinctKeys(other) && SameEntries(CLI_TABLE, other)
    ensures Agree(other, CLI_TABLE) <==> LongerFirst(other)
  {
    CliPicksLongest();
    ReorderingIff(CLI_TABLE, other);
    if NoShadowing(other) {
      forall i, j | 0 <= i < |other| && 0 <= j < |other|
                  && (|| (other[i] == CLI_TABLE[1] && other[j] == CLI_TABLE[3])
                      || (other[i] == CLI_TABLE[2] && other[j] == CLI_TABLE[4]))
        ensures i < j
      {
        CliPrefixes(3, 1);
        CliPrefixes(4, 2);
      }
    }
    if LongerFirst(other) {
      forall i, j | 0 <= i < j < |other| ensures !(other[i].key <= other[j].key) {
        assert other[i] in other && other[j] in other;
        assert other[i] in CLI_TABLE && other[j] in CLI_TABLE;
        var m :| 0 <= m < |CLI_TABLE| && CLI_TABLE[m] == other[i];
        var n :| 0 <= n < |CLI_TABLE| && CLI_TABLE[n] == other[j];
        assert other[i].key != other[j].key;
        CliPrefixes(m, n);
      }
    }
  }
}
