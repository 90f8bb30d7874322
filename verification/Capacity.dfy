/** When the fixed arrays of 25 tuples and 25 actions are big enough, exactly. */
module Capacity {
  import opened FlowTypes
  import opened FilterSpec
  import opened FilterGrammar
  import opened FilterInvariant

  // ----- Capacity of tuples[]

  /** Room for what the match loop writes at one more token. */
  predicate RoomAt(end: MatchEnd, t: string) {
    end.Matched? && WritesTuple(end.st, t) ==> |end.st.tuples| < SLOTS
  }

  lemma {:induction false} TuplesFitSnoc(cnt: nat, st: State, toks: seq<string>, t: string)
    requires NoAction(toks)
    ensures TuplesFit(cnt, st, toks + [t]) <==> TuplesFit(cnt, st, toks) && RoomAt(MatchRun(cnt, st, toks), t)
    decreases |toks|
  {
    var all := toks + [t];
    if toks == [] {
      assert all[0] == t && all[1..] == [];
    } else {
      assert all[0] == toks[0] && all[1..] == toks[1..] + [t];
      if MatchStep(cnt, st, toks[0]).Next? {
        TuplesFitSnoc(cnt, MatchStep(cnt, st, toks[0]).st, toks[1..], t);
      }
    }
  }

  /** A field option in its place, after a correct prefix that has filled the array. */
  ghost predicate Overruns(cnt: nat, before: seq<string>, tok: string) {
    && Grammar(cnt, before) && LastCommand(before) != NoCommand && Classify(tok).Field?
    && InOrder(StageAfter(Places(before)), Classify(tok).pos) && |Stores(before)| >= SLOTS
  }

  ghost predicate OverrunsAt(cnt: nat, toks: seq<string>, k: nat)
    requires k < |toks|
  {
    Overruns(cnt, toks[..k], toks[k])
  }

  lemma LastTokenOverruns(cnt: nat, front: seq<string>, t: string)
    requires NoAction(front)
    ensures RoomAt(MatchRun(cnt, INIT, front), t) <==> !Overruns(cnt, front, t)
  {
    MatchLanguage(cnt, front);
  }

  lemma NothingToWrite(cnt: nat, st: State)
    ensures TuplesFit(cnt, st, [])
  {
  }

  /** The match loop writes past tuples[24] exactly at such a token; the value of the option does
      not matter, because the id is stored before the value is looked at. */
  lemma {:induction false} TuplesFitIff(cnt: nat, toks: seq<string>)
    requires NoAction(toks)
    ensures TuplesFit(cnt, INIT, toks) <==> !exists k :: 0 <= k < |toks| && OverrunsAt(cnt, toks, k)
  {
    hide TuplesFit, MatchRun, Overruns, RoomAt;
    if toks == [] {
      assert TuplesFit(cnt, INIT, []) by { NothingToWrite(cnt, INIT); }
    } else {
      var front, t := toks[..|toks| - 1], toks[|toks| - 1];
      assert toks == front + [t];
      TuplesFitIff(cnt, front);
      TuplesFitSnoc(cnt, INIT, front, t);
      LastTokenOverruns(cnt, front, t);
      forall k | 0 <= k < |front| ensures OverrunsAt(cnt, toks, k) == OverrunsAt(cnt, front, k) {
        assert toks[..k] == front[..k];
      }
      assert OverrunsAt(cnt, toks, |front|) == Overruns(cnt, front, t);
    }
  }

  /** A list of the grammar fits exactly if it has at most 25 field options. */
  lemma {:induction false} GrammarFitsIff(cnt: nat, toks: seq<string>)
    requires Grammar(cnt, toks)
    ensures TuplesFit(cnt, INIT, toks) <==> |Stores(toks)| <= 25
  {
    if toks != [] {
      var front, t := toks[..|toks| - 1], toks[|toks| - 1];
      assert toks == front + [t];
      GrammarSnoc(cnt, front, t);
      GrammarFitsIff(cnt, front);
      GrammarHasNoAction(cnt, front);
      TuplesFitSnoc(cnt, INIT, front, t);
      LastTokenOverruns(cnt, front, t);
    }
  }

  lemma GrammarHasNoAction(cnt: nat, toks: seq<string>)
    requires Grammar(cnt, toks)
    ensures NoAction(toks)
  {
    forall i | 0 <= i < |toks| ensures !Classify(toks[i]).ActionWord? {
      assert ValidToken(cnt, toks[i]);
    }
  }

  // ----- Chains and tuples

  /** The in-phy-port options before the action word. */
  function PhyPorts(toks: seq<string>): nat {
    if toks == [] || Classify(toks[0]).ActionWord? then 0
    else (if Classify(toks[0]) == Field(0) then 1 else 0) + PhyPorts(toks[1..])
  }

  /** Length of the chain prefix that ends at this stage. */
  function ChainLength(stage: nat): int {
    if stage <= 9 then stage else stage - 1
  }

  /** With c in-phy-port options read, only the last of their c chains can still grow. */
  predicate Bounded(st: State, c: nat) {
    if st.stage == 0 then |st.tuples| == 0 else |st.tuples| <= 11 * (c - 1) + ChainLength(st.stage)
  }

  lemma StepStaysBounded(cnt: nat, st: State, tok: string, c: nat)
    requires Invariant(cnt, st) && Bounded(st, c) && MatchStep(cnt, st, tok).Next?
    ensures Bounded(MatchStep(cnt, st, tok).st, c + if Classify(tok) == Field(0) then 1 else 0)
  {
  }

  /** At most 11 tuples for every in-phy-port option. */
  lemma {:induction false} TupleBound(cnt: nat, st: State, toks: seq<string>, c: nat)
    requires Invariant(cnt, st) && Bounded(st, c) && MatchRun(cnt, st, toks).Matched?
    ensures |MatchRun(cnt, st, toks).st.tuples| <= 11 * (c + PhyPorts(toks))
    decreases |toks|
  {
    if toks != [] {
      var step := MatchStep(cnt, st, toks[0]);
      if step.Next? {
        StepKeepsInvariant(cnt, st, toks[0]);
        StepStaysBounded(cnt, st, toks[0], c);
        TupleBound(cnt, step.st, toks[1..], c + if Classify(toks[0]) == Field(0) then 1 else 0);
      }
    }
  }

  /** Two in-phy-port options cannot make the match loop write past the array. */
  lemma {:induction false} TwoChainsFit(cnt: nat, st: State, toks: seq<string>, c: nat)
    requires Invariant(cnt, st) && Bounded(st, c) && c + PhyPorts(toks) <= 2
    ensures TuplesFit(cnt, st, toks)
    decreases |toks|
  {
    if toks != [] {
      var step := MatchStep(cnt, st, toks[0]);
      if step.Next? {
        StepKeepsInvariant(cnt, st, toks[0]);
        StepStaysBounded(cnt, st, toks[0], c);
        TwoChainsFit(cnt, step.st, toks[1..], c + if Classify(toks[0]) == Field(0) then 1 else 0);
      }
    }
  }

  // ----- Capacity of actions[]

  /** A write to actions[action_cnt] happens at every drop or out-port option that the loop reaches. */
  ghost predicate ActionBound(n: nat, toks: seq<string>) {
    forall i :: 0 <= i < |toks| && ValidActions(toks[..i]) && WritesAction(toks[i]) ==> n + |Outputs(toks[..i])| < SLOTS
  }

  /** The action array is big enough exactly if at most 24 out-port options precede every drop or
      out-port option that the loop reaches. */
  lemma {:induction false} ActionsFitIff(n: nat, toks: seq<string>)
    ensures ActionsFit(n, toks) <==> ActionBound(n, toks)
    decreases |toks|
  {
    if toks != [] {
      var rest := toks[1..];
      var m := n + if IsOutput(toks[0]) then 1 else 0;
      DropIsNotOutput(toks[0]);
      ActionsFitIff(m, rest);
      ActionBoundStep(n, m, toks);
    }
  }

  lemma PrefixStep(toks: seq<string>, i: nat)
    requires i < |toks| - 1
    ensures ValidActions(toks[..i + 1]) <==> ValidAction(toks[0]) && ValidActions(toks[1..][..i])
    ensures |Outputs(toks[..i + 1])| == (if IsOutput(toks[0]) then 1 else 0) + |Outputs(toks[1..][..i])|
  {
    var a, b := toks[..i + 1], toks[1..][..i];
    assert a == [toks[0]] + b && a[1..] == b;
    assert forall k :: 0 <= k < |b| ==> b[k] == a[k + 1];
    if ValidAction(toks[0]) && ValidActions(b) {
      forall k | 0 <= k < |a| ensures ValidAction(a[k]) {
        assert k > 0 ==> a[k] == b[k - 1];
      }
    }
  }

  lemma ActionBoundStep(n: nat, m: nat, toks: seq<string>)
    requires toks != [] && m == n + if IsOutput(toks[0]) then 1 else 0
    ensures ActionBound(n, toks) <==>
            && (WritesAction(toks[0]) ==> n < SLOTS)
            && (ValidAction(toks[0]) ==> ActionBound(m, toks[1..]))
  {
    var rest := toks[1..];
    assert toks[..0] == [] && Outputs([]) == [];
    forall i | 0 <= i < |rest|
      ensures ValidActions(toks[..i + 1]) <==> ValidAction(toks[0]) && ValidActions(rest[..i])
      ensures n + |Outputs(toks[..i + 1])| == m + |Outputs(rest[..i])|
    {
      PrefixStep(toks, i);
    }
    if ActionBound(n, toks) && ValidAction(toks[0]) {
      forall i | 0 <= i < |rest| && ValidActions(rest[..i]) && WritesAction(rest[i])
        ensures m + |Outputs(rest[..i])| < SLOTS
      {
        assert toks[i + 1] == rest[i];
      }
    }
    if (WritesAction(toks[0]) ==> n < SLOTS) && (ValidAction(toks[0]) ==> ActionBound(m, rest)) {
      forall i | 0 <= i < |toks| && ValidActions(toks[..i]) && WritesAction(toks[i])
        ensures n + |Outputs(toks[..i])| < SLOTS
      {
        if i > 0 {
          assert toks[i] == rest[i - 1];
          assert ValidActions(toks[..(i - 1) + 1]);
        }
      }
    }
  }

  lemma OneMoreOutput(toks: seq<string>, i: nat)
    requires i < |toks|
    ensures |Outputs(toks[..i + 1])| == |Outputs(toks[..i])| + if IsOutput(toks[i]) then 1 else 0
    ensures |Outputs(toks[..i + 1])| <= |Outputs(toks)|
  {
    assert toks[..i + 1] == toks[..i] + [toks[i]] && toks == toks[..i + 1] + toks[i + 1..];
    OutputsAppend(toks[..i], [toks[i]]);
    OutputsAppend(toks[..i + 1], toks[i + 1..]);
    assert [toks[i]][1..] == [];
  }

  /** No drop option behind the 25th out-port option. */
  ghost predicate DropsInTime(toks: seq<string>) {
    forall i :: 0 <= i < |toks| && "drop" <= toks[i] ==> |Outputs(toks[..i])| < SLOTS
  }

  lemma {:induction false} BoundedOutputs(toks: seq<string>, k: nat)
    requires ValidActions(toks) && ActionBound(0, toks) && k <= |toks|
    ensures |Outputs(toks[..k])| <= SLOTS
  {
    if k > 0 {
      BoundedOutputs(toks, k - 1);
      OneMoreOutput(toks, k - 1);
      assert ValidActions(toks[..k - 1]);
    }
  }

  /** A list of valid actions fits exactly if it has at most 25 out-port options and no drop
      option behind the 25th. */
  lemma ActionCapacity(toks: seq<string>)
    requires ValidActions(toks)
    ensures ActionsFit(0, toks) <==> |Outputs(toks)| <= 25 && DropsInTime(toks)
  {
    ActionsFitIff(0, toks);
    assert forall i :: 0 <= i < |toks| ==> ValidActions(toks[..i]);
    if ActionBound(0, toks) {
      BoundedOutputs(toks, |toks|);
      assert toks[..|toks|] == toks;
    }
    if |Outputs(toks)| <= SLOTS && DropsInTime(toks) {
      forall i | 0 <= i < |toks| && ValidActions(toks[..i]) && WritesAction(toks[i])
        ensures 0 + |Outputs(toks[..i])| < SLOTS
      {
        OneMoreOutput(toks, i);
        assert ValidAction(toks[i]);
      }
    }
  }

  /** A drop option needs room although it leaves nothing: inserting one keeps an action list within
      the array exactly if fewer than 25 out-port options stand before it, or it is not reached. */
  lemma {:induction false} DropNeedsRoom(n: nat, a: seq<string>, t: string, b: seq<string>)
    requires "drop" <= t
    ensures ActionsFit(n, a + [t] + b) <==> ActionsFit(n, a + b) && (ValidActions(a) ==> n + |Outputs(a)| < SLOTS)
    decreases |a|
  {
    var with := a + [t] + b;
    if a == [] {
      assert with[0] == t && with[1..] == b && a + b == b;
    } else {
      var rest := a[1..];
      assert with[0] == a[0] && with[1..] == rest + [t] + b && (a + b)[1..] == rest + b;
      DropIsNotOutput(a[0]);
      ValidActionsStep(a);
      DropNeedsRoom(n + if IsOutput(a[0]) then 1 else 0, rest, t, b);
    }
  }
}
