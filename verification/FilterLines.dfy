/** The language of whole filter lines: which are accepted and what they ask for, which are
    rejected, and which have undefined behaviour. */
module FilterLines {
  import opened CStrings
  import opened FlowTypes
  import opened FilterSpec
  import opened FilterGrammar
  import opened Capacity

  // ----- The two parts of a line

  /** Position of the first action word, or |toks|. */
  function ActionAt(toks: seq<string>): (k: nat)
    ensures k <= |toks| && NoAction(toks[..k])
    ensures k < |toks| ==> Classify(toks[k]).ActionWord?
  {
    if toks == [] || Classify(toks[0]).ActionWord? then 0
    else
      var k := ActionAt(toks[1..]);
      assert toks[..k + 1] == [toks[0]] + toks[1..][..k];
      k + 1
  }

  lemma {:induction false} MatchRunStops(cnt: nat, st: State, pre: seq<string>, t: string, post: seq<string>)
    requires NoAction(pre) && Classify(t).ActionWord?
    ensures MatchRun(cnt, st, pre + [t] + post) ==
            match MatchRun(cnt, st, pre)
            case Matched(st', _) => if st'.cmd == NoCommand then Mismatch else Matched(st', post)
            case end => end
    decreases |pre|
  {
    var toks := pre + [t] + post;
    if pre == [] {
      assert toks[0] == t && toks[1..] == post;
    } else {
      var step := MatchStep(cnt, st, pre[0]);
      assert toks[0] == pre[0] && toks[1..] == pre[1..] + [t] + post;
      if step.Next? {
        MatchRunStops(cnt, step.st, pre[1..], t, post);
      } else {
        assert !step.Stop?;
      }
    }
  }

  /** The tokens before the action word, and those behind it. */
  function FieldPart(toks: seq<string>): seq<string> {
    toks[..ActionAt(toks)]
  }

  function ActionPart(toks: seq<string>): seq<string> {
    if HasActionWord(toks) then toks[ActionAt(toks) + 1..] else []
  }

  predicate HasActionWord(toks: seq<string>) {
    ActionAt(toks) < |toks|
  }

  /** The match loop is left for the action loop. */
  ghost predicate ReachesActions(cnt: nat, toks: seq<string>) {
    Grammar(cnt, FieldPart(toks)) && (HasActionWord(toks) ==> HasCommand(FieldPart(toks)))
  }

  ghost predicate LineGrammar(cnt: nat, toks: seq<string>) {
    ReachesActions(cnt, toks) && ValidActions(ActionPart(toks))
  }

  /** The call an accepted line asks for. */
  function CallOf(toks: seq<string>): FlowCall {
    var st := Meaning(FieldPart(toks));
    FlowCall(st.cmd, st.dev, st.tbl, st.tuples, Outputs(ActionPart(toks)))
  }

  function WithAction(end: MatchEnd, action: bool, post: seq<string>): MatchEnd {
    match end
    case Matched(st, _) => if action && st.cmd == NoCommand then Mismatch else Matched(st, post)
    case _ => end
  }

  lemma MatchRunParts(cnt: nat, toks: seq<string>)
    ensures MatchRun(cnt, INIT, toks) ==
            WithAction(MatchRun(cnt, INIT, FieldPart(toks)), HasActionWord(toks), ActionPart(toks))
  {
    var k := ActionAt(toks);
    if k < |toks| {
      MatchRunStops(cnt, INIT, toks[..k], toks[k], toks[k + 1..]);
      assert toks == toks[..k] + [toks[k]] + toks[k + 1..];
    } else {
      assert toks[..k] == toks;
      MatchLanguage(cnt, toks);
    }
  }

  lemma PartsOutcome(cnt: nat, pre: seq<string>, action: bool, post: seq<string>)
    requires NoAction(pre)
    ensures AfterMatch(cnt, WithAction(MatchRun(cnt, INIT, pre), action, post)) ==
            if Grammar(cnt, pre) && (action ==> HasCommand(pre)) && ValidActions(post)
            then Dispatch(cnt, Meaning(pre), Outputs(post))
            else if MatchRun(cnt, INIT, pre).Faulted? then Undefined else Rejected
  {
    MatchLanguage(cnt, pre);
    ActionLanguage([], post);
    HasCommandIff(pre);
    assert [] + Outputs(post) == Outputs(post);
  }

  // ----- Which lines stay inside the arrays

  lemma {:induction false} TuplesFitStops(cnt: nat, st: State, pre: seq<string>, t: string, post: seq<string>)
    requires NoAction(pre) && Classify(t).ActionWord?
    ensures TuplesFit(cnt, st, pre + [t] + post) <==> TuplesFit(cnt, st, pre)
    decreases |pre|
  {
    var toks := pre + [t] + post;
    if pre == [] {
      assert toks[0] == t && toks[1..] == post;
    } else {
      assert toks[0] == pre[0] && toks[1..] == pre[1..] + [t] + post;
      if MatchStep(cnt, st, pre[0]).Next? {
        TuplesFitStops(cnt, MatchStep(cnt, st, pre[0]).st, pre[1..], t, post);
      }
    }
  }

  lemma TuplesFitParts(cnt: nat, toks: seq<string>)
    ensures TuplesFit(cnt, INIT, toks) <==> TuplesFit(cnt, INIT, FieldPart(toks))
  {
    var k := ActionAt(toks);
    if k < |toks| {
      TuplesFitStops(cnt, INIT, toks[..k], toks[k], toks[k + 1..]);
      assert toks == toks[..k] + [toks[k]] + toks[k + 1..];
    } else {
      assert toks[..k] == toks;
    }
  }

  /** A line stays inside both arrays exactly if no field option overruns the tuples, and, where the
      action loop is reached, at most 24 out-port options precede each of its writes. */
  lemma LineFitsIff(cnt: nat, line: string)
    ensures var toks := Tokens(Some(line));
            LineFits(cnt, line) <==>
            && !(exists k :: 0 <= k < |FieldPart(toks)| && OverrunsAt(cnt, FieldPart(toks), k))
            && (ReachesActions(cnt, toks) ==> ActionBound(0, ActionPart(toks)))
  {
    var toks := Tokens(Some(line));
    var pre, post := FieldPart(toks), ActionPart(toks);
    TuplesFitParts(cnt, toks);
    TuplesFitIff(cnt, pre);
    MatchRunParts(cnt, toks);
    ActionsFitIff(0, post);
    MatchLanguage(cnt, pre);
    HasCommandIff(pre);
    hide MatchRun, TuplesFit, ActionsFit, Grammar, HasCommand, ActionBound, OverrunsAt, Tokens, LastCommand, Places,
         Stores;
  }

  /** Lines with at most two in-phy-port options can only overrun the actions. */
  lemma TwoChainLines(cnt: nat, line: string)
    requires PhyPorts(Tokens(Some(line))) <= 2
    ensures var toks := Tokens(Some(line));
            LineFits(cnt, line) <==> (ReachesActions(cnt, toks) ==> ActionBound(0, ActionPart(toks)))
  {
    var toks := Tokens(Some(line));
    TwoChainsFit(cnt, INIT, toks, 0);
    TuplesFitParts(cnt, toks);
    TuplesFitIff(cnt, FieldPart(toks));
    LineFitsIff(cnt, line);
    hide PhyPorts, TuplesFit, LineFits, Grammar, HasCommand, ActionBound, OverrunsAt, Tokens;
  }

  /** Room for what a line of the grammar stores: at most 25 fields, at most 25 out-port options, and
      no drop option behind the 25th. */
  ghost predicate HasRoom(toks: seq<string>) {
    && |Stores(FieldPart(toks))| <= SLOTS
    && |Outputs(ActionPart(toks))| <= SLOTS && DropsInTime(ActionPart(toks))
  }

  lemma GrammarLineFitsIff(cnt: nat, line: string)
    requires LineGrammar(cnt, Tokens(Some(line)))
    ensures LineFits(cnt, line) <==> HasRoom(Tokens(Some(line)))
  {
    var toks := Tokens(Some(line));
    var pre, post := FieldPart(toks), ActionPart(toks);
    TuplesFitParts(cnt, toks);
    GrammarFitsIff(cnt, pre);
    MatchRunParts(cnt, toks);
    ActionCapacity(post);
    MatchLanguage(cnt, pre);
    HasCommandIff(pre);
    hide MatchRun, TuplesFit, ActionsFit, Grammar, HasCommand, DropsInTime, Tokens, LastCommand, Places, Stores,
         Outputs;
  }

  // ----- The three outcomes

  /** All or nothing, apart from the arrays: a line of the grammar whose device exists asks for the
      one call it means if it has a command word, and for none otherwise. */
  lemma UnboundedLanguage(cnt: nat, line: string)
    ensures var toks := Tokens(Some(line));
            && (UnboundedLine(cnt, line).Accepted? <==>
                LineGrammar(cnt, toks) && (HasCommand(FieldPart(toks)) ==> CallOf(toks).dev < cnt))
            && (UnboundedLine(cnt, line).Accepted? ==>
                UnboundedLine(cnt, line).call == if HasCommand(FieldPart(toks)) then Some(CallOf(toks)) else None)
  {
    var toks := Tokens(Some(line));
    MatchRunParts(cnt, toks);
    PartsOutcome(cnt, FieldPart(toks), HasActionWord(toks), ActionPart(toks));
    HasCommandIff(FieldPart(toks));
    hide MatchRun, Grammar, ValidActions, HasCommand, Tokens, LastCommand, LastNumber, Places, Stores, Outputs;
  }

  /** All or nothing: a line of the grammar with room for what it stores asks for the one call it
      means if it has a command word and the device exists, and for none if it has no command word;
      any other line asks for no call, however much of it was read before it went wrong. */
  lemma LineLanguage(cnt: nat, line: string)
    ensures var toks := Tokens(Some(line));
            && (FilterLine(cnt, line).Accepted? <==>
                && LineGrammar(cnt, toks) && HasRoom(toks)
                && (HasCommand(FieldPart(toks)) ==> CallOf(toks).dev < cnt))
            && (FilterLine(cnt, line).Accepted? ==>
                FilterLine(cnt, line).call == if HasCommand(FieldPart(toks)) then Some(CallOf(toks)) else None)
  {
    UnboundedLanguage(cnt, line);
    if LineGrammar(cnt, Tokens(Some(line))) {
      GrammarLineFitsIff(cnt, line);
    }
    hide UnboundedLine, LineFits, LineGrammar, HasCommand, HasRoom, Tokens, CallOf;
  }

  /** What the loops make of a line fits the arrays exactly if the call has at most 25 tuples and 25
      actions and no drop option stands behind the 25th out-port option. */
  lemma AcceptedFitsIff(cnt: nat, line: string, c: FlowCall)
    requires UnboundedLine(cnt, line) == Accepted(Some(c))
    ensures LineFits(cnt, line) <==>
            |c.tuples| <= 25 && |c.actions| <= 25 && DropsInTime(ActionPart(Tokens(Some(line))))
  {
    UnboundedLanguage(cnt, line);
    GrammarLineFitsIff(cnt, line);
    hide UnboundedLine, LineFits, LineGrammar, HasCommand, Tokens, DropsInTime, Stores, Outputs;
  }

  /** The call of an accepted line. */
  lemma AcceptedCall(cnt: nat, line: string, c: FlowCall)
    requires FilterLine(cnt, line) == Accepted(Some(c))
    ensures LineGrammar(cnt, Tokens(Some(line))) && HasRoom(Tokens(Some(line)))
    ensures HasCommand(FieldPart(Tokens(Some(line)))) && c == CallOf(Tokens(Some(line))) && c.dev < cnt
  {
    LineLanguage(cnt, line);
    hide LineGrammar, HasRoom, HasCommand, CallOf, FilterLine, Tokens;
  }

  lemma {:induction false} LastDevInRange(cnt: nat, toks: seq<string>)
    requires ValidTokens(cnt, toks)
    ensures 0 <= LastNumber(Dev, toks) <= cnt
  {
    if toks != [] {
      LastDevInRange(cnt, toks[..|toks| - 1]);
    }
  }

  lemma UndefinedParts(cnt: nat, pre: seq<string>, action: bool, post: seq<string>)
    requires NoAction(pre)
    ensures AfterMatch(cnt, WithAction(MatchRun(cnt, INIT, pre), action, post)).Undefined? <==>
            || MatchRun(cnt, INIT, pre).Faulted?
            || (&& Grammar(cnt, pre) && (action ==> HasCommand(pre)) && ValidActions(post)
                && HasCommand(pre) && LastNumber(Dev, pre) == cnt)
  {
    PartsOutcome(cnt, pre, action, post);
    MatchLanguage(cnt, pre);
    HasCommandIff(pre);
    if Grammar(cnt, pre) {
      LastDevInRange(cnt, pre);
    }
    hide MatchRun, Grammar, ValidActions, HasCommand, LastCommand, LastNumber, Places, Stores, Outputs;
  }

  lemma UnboundedUndefinedIff(cnt: nat, line: string)
    ensures var toks := Tokens(Some(line));
            UnboundedLine(cnt, line).Undefined? <==>
            || (exists k :: 0 <= k < |FieldPart(toks)| && FaultsAt(cnt, FieldPart(toks), k))
            || (LineGrammar(cnt, toks) && HasCommand(FieldPart(toks)) && CallOf(toks).dev == cnt)
  {
    hide MatchRun, Grammar, ValidActions, HasCommand, Faults, LastCommand, LastNumber, Places, Stores, Outputs;
    var toks := Tokens(Some(line));
    MatchRunParts(cnt, toks);
    UndefinedParts(cnt, FieldPart(toks), HasActionWord(toks), ActionPart(toks));
    MatchFaultsIff(cnt, FieldPart(toks));
  }

  /** Undefined behaviour, exactly: a faulting dl-src option; a field option that overruns the tuples;
      an action list that overruns the actions; or an otherwise correct command whose last dev option
      (0 without one) is flw_dev_cnt, which the guard of the dev option lets pass. */
  lemma UndefinedIff(cnt: nat, line: string)
    ensures var toks := Tokens(Some(line));
            FilterLine(cnt, line).Undefined? <==>
            || (exists k :: 0 <= k < |FieldPart(toks)| && FaultsAt(cnt, FieldPart(toks), k))
            || (exists k :: 0 <= k < |FieldPart(toks)| && OverrunsAt(cnt, FieldPart(toks), k))
            || (ReachesActions(cnt, toks) && !ActionBound(0, ActionPart(toks)))
            || (LineGrammar(cnt, toks) && HasCommand(FieldPart(toks)) && CallOf(toks).dev == cnt)
  {
    UnboundedUndefinedIff(cnt, line);
    LineFitsIff(cnt, line);
    hide UnboundedLine, LineFits, LineGrammar, ReachesActions, ActionBound, HasCommand, CallOf, FaultsAt, OverrunsAt,
         Tokens, ActionPart;
  }
}
