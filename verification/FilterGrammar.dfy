/** The language of filter lines, stated without the automaton, and the proof that the automaton
    accepts exactly this language and computes its meaning. */
module FilterGrammar {
  import opened CStrings
  import opened Numerals
  import opened FlowTypes
  import opened FilterSpec

  // ----- Order of the fields

  type Length = n: nat | 1 <= n <= 11 witness 1

  function UpTo(n: Length): seq<Place> {
    seq(n, i requires 0 <= i < n => i)
  }

  function Runs(lens: seq<Length>): seq<Place> {
    if lens == [] then [] else Runs(lens[..|lens| - 1]) + UpTo(lens[|lens| - 1])
  }

  /** Chain places that form a concatenation of non-empty prefixes of the chain. */
  ghost predicate InChains(ps: seq<Place>) {
    exists lens :: ps == Runs(lens)
  }

  predicate Follows(p: Place, q: Place) {
    p as int + 1 == q
  }

  predicate StepOk(ps: seq<Place>, i: nat)
    requires i < |ps|
  {
    ps[i] == 0 || (i > 0 && Follows(ps[i - 1], ps[i]))
  }

  /** The same, locally: every place is the first one or follows its predecessor. */
  predicate Stepwise(ps: seq<Place>) {
    forall i :: 0 <= i < |ps| ==> StepOk(ps, i)
  }

  lemma {:induction false} RunsAreStepwise(lens: seq<Length>)
    ensures Stepwise(Runs(lens))
    ensures lens != [] ==> |Runs(lens)| > 0 && Runs(lens)[|Runs(lens)| - 1] as int + 1 == lens[|lens| - 1]
  {
    if lens != [] {
      var ps, front := Runs(lens), Runs(lens[..|lens| - 1]);
      RunsAreStepwise(lens[..|lens| - 1]);
      forall i | 0 <= i < |ps| ensures StepOk(ps, i) {
        assert i < |front| ==> StepOk(front, i);
      }
    }
  }

  lemma {:induction false} StepwiseAreRuns(ps: seq<Place>) returns (lens: seq<Length>)
    requires Stepwise(ps)
    ensures Runs(lens) == ps
    ensures ps != [] ==> lens != [] && ps[|ps| - 1] as int + 1 == lens[|lens| - 1]
  {
    if ps == [] {
      lens := [];
    } else {
      var front, p := ps[..|ps| - 1], ps[|ps| - 1];
      assert forall i :: 0 <= i < |front| ==> StepOk(front, i) == StepOk(ps, i);
      assert StepOk(ps, |front|);
      var before := StepwiseAreRuns(front);
      assert ps == front + [p];
      if p == 0 {
        lens := before + [1];
        assert lens[..|lens| - 1] == before;
        assert UpTo(1) == [0];
      } else {
        assert Follows(ps[|ps| - 2], p) && front[|front| - 1] == ps[|ps| - 2];
        var init, last := before[..|before| - 1], before[|before| - 1];
        var next: Length := last as int + 1;
        lens := init + [next];
        assert lens[..|lens| - 1] == init;
        assert UpTo(next) == UpTo(last) + [p];
        assert Runs(lens) == Runs(init) + (UpTo(last) + [p]) == Runs(before) + [p];
      }
    }
  }

  lemma InChainsIff(ps: seq<Place>)
    ensures InChains(ps) <==> Stepwise(ps)
  {
    if InChains(ps) {
      var lens :| ps == Runs(lens);
      RunsAreStepwise(lens);
    }
    if Stepwise(ps) {
      var lens := StepwiseAreRuns(ps);
    }
  }

  // ----- Tokens one by one

  function StoreOf(tok: string): Stored<TupleId>
    requires Classify(tok).Field?
  {
    var pos := Classify(tok).pos;
    match ValueOf(tok)
    case None => Stored(CHAIN[pos], [])
    case Some(v) => Stored(CHAIN[pos], if Decode(pos, v).Bytes? then Decode(pos, v).bytes else [])
  }

  predicate ValidToken(cnt: nat, tok: string) {
    match Classify(tok)
    case FilterWord => true
    case Command(_) => true
    case Dev => ValueOf(tok).Some? && 0 <= NumberOf(tok) <= cnt
    case Tbl => ValueOf(tok).Some? && 0 <= NumberOf(tok)
    case Field(pos) => ValueOf(tok).Some? && Decode(pos, ValueOf(tok).value).Bytes?
    case ActionWord => false
    case Unknown => false
  }

  predicate IsCommand(tok: string) {
    Classify(tok).Command?
  }

  /** Every word other than filter and the commands needs a command before it. */
  predicate NeedsCommand(tok: string) {
    !Classify(tok).FilterWord? && !Classify(tok).Command?
  }

  ghost predicate HasCommand(toks: seq<string>) {
    exists j :: 0 <= j < |toks| && IsCommand(toks[j])
  }

  ghost predicate CommandsFirst(toks: seq<string>) {
    forall i :: 0 <= i < |toks| && NeedsCommand(toks[i]) ==> HasCommand(toks[..i])
  }

  ghost predicate ValidTokens(cnt: nat, toks: seq<string>) {
    forall i :: 0 <= i < |toks| ==> ValidToken(cnt, toks[i])
  }

  // ----- Meaning of a token list: the last command, dev and tbl win, fields add up in order

  function LastCommand(toks: seq<string>): Cmd {
    if toks == [] then NoCommand
    else if IsCommand(toks[|toks| - 1]) then Classify(toks[|toks| - 1]).cmd
    else LastCommand(toks[..|toks| - 1])
  }

  function LastNumber(w: Word, toks: seq<string>): int {
    if toks == [] then 0
    else if Classify(toks[|toks| - 1]) == w then NumberOf(toks[|toks| - 1])
    else LastNumber(w, toks[..|toks| - 1])
  }

  function Places(toks: seq<string>): seq<Place> {
    if toks == [] then []
    else
      var w := Classify(toks[|toks| - 1]);
      Places(toks[..|toks| - 1]) + if w.Field? then [w.pos] else []
  }

  function Stores(toks: seq<string>): seq<Stored<TupleId>> {
    if toks == [] then []
    else
      var t := toks[|toks| - 1];
      Stores(toks[..|toks| - 1]) + if Classify(t).Field? then [StoreOf(t)] else []
  }

  function StageAfter(ps: seq<Place>): nat {
    if ps == [] then 0 else Stage(ps[|ps| - 1])
  }

  function Meaning(toks: seq<string>): State {
    State(LastCommand(toks), LastNumber(Dev, toks), LastNumber(Tbl, toks), StageAfter(Places(toks)), Stores(toks))
  }

  /** The language of the match phase. */
  ghost predicate Grammar(cnt: nat, toks: seq<string>) {
    && ValidTokens(cnt, toks)
    && CommandsFirst(toks)
    && InChains(Places(toks))
  }

  predicate NoAction(toks: seq<string>) {
    forall i :: 0 <= i < |toks| ==> !Classify(toks[i]).ActionWord?
  }

  // ----- The automaton on a list and one more token

  lemma {:induction false} MatchRunSnoc(cnt: nat, st: State, toks: seq<string>, t: string)
    requires NoAction(toks)
    ensures MatchRun(cnt, st, toks).Matched? ==> MatchRun(cnt, st, toks).rest == []
    ensures MatchRun(cnt, st, toks + [t]) ==
            match MatchRun(cnt, st, toks)
            case Matched(st', _) => MatchRun(cnt, st', [t])
            case end => end
    decreases |toks|
  {
    if toks == [] {
      assert toks + [t] == [t];
    } else {
      assert (toks + [t])[1..] == toks[1..] + [t];
      if MatchStep(cnt, st, toks[0]).Next? {
        MatchRunSnoc(cnt, MatchStep(cnt, st, toks[0]).st, toks[1..], t);
      }
    }
  }

  lemma {:induction false} HasCommandIff(toks: seq<string>)
    ensures HasCommand(toks) <==> LastCommand(toks) != NoCommand
  {
    if toks != [] {
      var front := toks[..|toks| - 1];
      HasCommandIff(front);
      assert toks == front + [toks[|toks| - 1]];
      if HasCommand(front) {
        var j :| 0 <= j < |front| && IsCommand(front[j]);
        assert IsCommand(toks[j]);
      }
      if HasCommand(toks) && !IsCommand(toks[|toks| - 1]) {
        var j :| 0 <= j < |toks| && IsCommand(toks[j]);
        assert IsCommand(front[j]);
      }
    }
  }

  lemma StepwiseSnoc(ps: seq<Place>, p: Place)
    ensures Stepwise(ps + [p]) <==> Stepwise(ps) && InOrder(StageAfter(ps), p)
  {
    var all := ps + [p];
    assert forall i :: 0 <= i < |ps| ==> StepOk(all, i) == StepOk(ps, i);
    assert StepOk(all, |ps|) == InOrder(StageAfter(ps), p);
  }

  lemma CommandsFirstSnoc(toks: seq<string>, t: string)
    ensures CommandsFirst(toks + [t]) <==> CommandsFirst(toks) && (NeedsCommand(t) ==> HasCommand(toks))
  {
    var all := toks + [t];
    assert all[..|toks|] == toks && all[|toks|] == t;
    assert forall i :: 0 <= i < |toks| ==> all[i] == toks[i] && all[..i] == toks[..i];
    if CommandsFirst(all) {
      forall i | 0 <= i < |toks| && NeedsCommand(toks[i]) ensures HasCommand(toks[..i]) {
        assert NeedsCommand(all[i]) && all[..i] == toks[..i];
      }
    }
  }

  lemma ValidTokensSnoc(cnt: nat, toks: seq<string>, t: string)
    ensures ValidTokens(cnt, toks + [t]) <==> ValidTokens(cnt, toks) && ValidToken(cnt, t)
  {
    var all := toks + [t];
    assert all[|toks|] == t;
    assert forall i :: 0 <= i < |toks| ==> all[i] == toks[i];
  }

  /** The grammar, one token at a time. */
  lemma GrammarSnoc(cnt: nat, toks: seq<string>, t: string)
    ensures Grammar(cnt, toks + [t]) <==>
            && Grammar(cnt, toks) && ValidToken(cnt, t)
            && (NeedsCommand(t) ==> LastCommand(toks) != NoCommand)
            && (Classify(t).Field? ==> InOrder(StageAfter(Places(toks)), Classify(t).pos))
  {
    var all := toks + [t];
    assert all[..|all| - 1] == toks;
    HasCommandIff(toks);
    CommandsFirstSnoc(toks, t);
    ValidTokensSnoc(cnt, toks, t);
    InChainsIff(Places(toks));
    InChainsIff(Places(all));
    match Classify(t)
    case Field(pos) =>
      StepwiseSnoc(Places(toks), pos);
    case _ =>
      assert Places(all) == Places(toks);
  }

  /** The match phase accepts exactly the grammar, and its final state is the meaning. */
  lemma {:induction false} MatchLanguage(cnt: nat, toks: seq<string>)
    requires NoAction(toks)
    ensures MatchRun(cnt, INIT, toks).Matched? <==> Grammar(cnt, toks)
    ensures Grammar(cnt, toks) ==> MatchRun(cnt, INIT, toks) == Matched(Meaning(toks), [])
  {
    if toks == [] {
      InChainsIff([]);
    } else {
      var front, t := toks[..|toks| - 1], toks[|toks| - 1];
      assert toks == front + [t];
      MatchLanguage(cnt, front);
      MatchRunSnoc(cnt, INIT, front, t);
      GrammarSnoc(cnt, front, t);
      if Grammar(cnt, front) {
        TokenStep(cnt, front, t);
      }
    }
  }

  lemma MeaningSnoc(front: seq<string>, t: string)
    ensures var before, w := Meaning(front), Classify(t);
            Meaning(front + [t]) ==
            State(if w.Command? then w.cmd else before.cmd,
                  if w == Dev then NumberOf(t) else before.dev,
                  if w == Tbl then NumberOf(t) else before.tbl,
                  if w.Field? then Stage(w.pos) else before.stage,
                  before.tuples + if w.Field? then [StoreOf(t)] else [])
  {
    var toks := front + [t];
    assert toks[..|toks| - 1] == front;
  }

  lemma TokenStep(cnt: nat, front: seq<string>, t: string)
    requires Grammar(cnt, front) && !Classify(t).ActionWord?
    ensures MatchStep(cnt, Meaning(front), t).Next? <==> Grammar(cnt, front + [t])
    ensures Grammar(cnt, front + [t]) ==> MatchStep(cnt, Meaning(front), t) == Next(Meaning(front + [t]))
  {
    GrammarSnoc(cnt, front, t);
    MeaningSnoc(front, t);
    hide Grammar, LastCommand, LastNumber, Places, Stores;
  }

  // ----- Where the C program faults

  /** dl-src with a value that ether_aton does not take. */
  predicate NullSource(tok: string) {
    && Classify(tok) == Field(3) && ValueOf(tok).Some? && EtherAton(ValueOf(tok).value).None?
  }

  /** The token that faults: a dl-src in its place with a malformed address, after a correct prefix. */
  ghost predicate Faults(cnt: nat, before: seq<string>, tok: string) {
    && Grammar(cnt, before) && LastCommand(before) != NoCommand
    && StageAfter(Places(before)) == Stage(2) && NullSource(tok)
  }

  ghost predicate FaultsAt(cnt: nat, toks: seq<string>, k: nat)
    requires k < |toks|
  {
    Faults(cnt, toks[..k], toks[k])
  }

  /** The match phase faults exactly at such a token. */
  lemma {:induction false} MatchFaultsIff(cnt: nat, toks: seq<string>)
    requires NoAction(toks)
    ensures MatchRun(cnt, INIT, toks).Faulted? <==> exists k :: 0 <= k < |toks| && FaultsAt(cnt, toks, k)
  {
    if toks != [] {
      var front, t := toks[..|toks| - 1], toks[|toks| - 1];
      assert toks == front + [t];
      MatchFaultsIff(cnt, front);
      MatchRunSnoc(cnt, INIT, front, t);
      MatchLanguage(cnt, front);
      LastTokenFaults(cnt, front, t);
      forall k | 0 <= k < |front| ensures FaultsAt(cnt, toks, k) == FaultsAt(cnt, front, k) {
        assert toks[..k] == front[..k];
      }
      assert FaultsAt(cnt, toks, |front|) == Faults(cnt, front, t);
    }
  }

  lemma LastTokenFaults(cnt: nat, front: seq<string>, t: string)
    ensures Grammar(cnt, front) && MatchRun(cnt, Meaning(front), [t]).Faulted? <==> Faults(cnt, front, t)
  {
    assert [t][1..] == [];
  }

  // ----- The action phase

  predicate ValidAction(tok: string) {
    "drop" <= tok || ("out-port" <= tok && ValueOf(tok).Some?)
  }

  predicate IsOutput(tok: string) {
    "out-port" <= tok && ValueOf(tok).Some?
  }

  function OutputsOf(tok: string): seq<Stored<ActionId>> {
    if IsOutput(tok) then [Stored(OUT_PORT, ShortBytes(NumberOf(tok)))] else []
  }

  /** The out-port options, in order, each with its value reduced to 16 bits. */
  function Outputs(toks: seq<string>): seq<Stored<ActionId>> {
    if toks == [] then [] else OutputsOf(toks[0]) + Outputs(toks[1..])
  }

  ghost predicate ValidActions(toks: seq<string>) {
    forall i :: 0 <= i < |toks| ==> ValidAction(toks[i])
  }

  lemma DropIsNotOutput(tok: string)
    ensures !("drop" <= tok && "out-port" <= tok)
  {
    assert "drop"[0] == 'd' && "out-port"[0] == 'o';
  }

  lemma ValidActionsStep(toks: seq<string>)
    requires toks != []
    ensures ValidActions(toks) <==> ValidAction(toks[0]) && ValidActions(toks[1..])
  {
    var rest := toks[1..];
    assert forall i :: 0 <= i < |rest| ==> rest[i] == toks[i + 1];
    assert forall i :: 0 < i < |toks| ==> toks[i] == rest[i - 1];
  }

  /** The action phase delivers exactly the out-port options; drop options leave no trace. */
  lemma {:induction false} ActionLanguage(acts: seq<Stored<ActionId>>, toks: seq<string>)
    ensures ActionRun(acts, toks) == if ValidActions(toks) then Some(acts + Outputs(toks)) else None
    decreases |toks|
  {
    if toks == [] {
      assert acts + [] == acts;
    } else {
      var rest := toks[1..];
      DropIsNotOutput(toks[0]);
      ValidActionsStep(toks);
      match ActionOf(toks[0])
      case Dropped =>
        ActionLanguage(acts, rest);
        assert [] + Outputs(rest) == Outputs(rest);
      case Output(a) =>
        ActionLanguage(acts + [a], rest);
        assert acts + [a] + Outputs(rest) == acts + ([a] + Outputs(rest));
      case NotAnAction =>
    }
  }

  lemma {:induction false} OutputsAppend(a: seq<string>, b: seq<string>)
    ensures Outputs(a + b) == Outputs(a) + Outputs(b)
  {
    hide OutputsOf;
    if a == [] {
      assert a + b == b && [] + Outputs(b) == Outputs(b);
    } else {
      OutputsAppend(a[1..], b);
      assert (a + b)[1..] == a[1..] + b && (a + b)[0] == a[0];
      assert OutputsOf(a[0]) + (Outputs(a[1..]) + Outputs(b)) == OutputsOf(a[0]) + Outputs(a[1..]) + Outputs(b);
    }
  }

  /** A drop option anywhere among the actions changes neither the verdict nor what is delivered. */
  lemma {:induction false} DropIsInvisible(acts: seq<Stored<ActionId>>, a: seq<string>, t: string, b: seq<string>)
    requires "drop" <= t
    ensures ActionRun(acts, a + [t] + b) == ActionRun(acts, a + b)
    decreases |a|
  {
    assert ActionOf(t) == Dropped;
    hide ActionOf;
    var with := a + [t] + b;
    if a == [] {
      assert with[0] == t && with[1..] == b && a + b == b;
    } else {
      assert with[0] == a[0] && with[1..] == a[1..] + [t] + b && (a + b)[1..] == a[1..] + b;
      match ActionOf(a[0])
      case Dropped => DropIsInvisible(acts, a[1..], t, b);
      case Output(x) => DropIsInvisible(acts + [x], a[1..], t, b);
      case NotAnAction =>
    }
  }
}
