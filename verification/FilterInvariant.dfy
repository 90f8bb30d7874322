/** What every reachable state of the match loop satisfies. */
module FilterInvariant {
  import opened CStrings
  import opened FlowTypes
  import opened FilterSpec

  function Ids(ts: seq<Stored<TupleId>>): seq<TupleId> {
    seq(|ts|, i requires 0 <= i < |ts| => ts[i].id)
  }

  /** The last tuples are exactly the chain up to this place, in order. */
  predicate EndsWithChain(ts: seq<Stored<TupleId>>, pos: Place) {
    pos < |ts| && Ids(ts)[|ts| - (pos + 1)..] == CHAIN[..pos + 1]
  }

  /** rqd_field is the stage of the last stored tuple (0 when there is none), and the tuples from
      the last in-phy-port on are the prefix of the chain that ends at this stage. */
  ghost predicate StageInvariant(st: State) {
    if st.tuples == [] then st.stage == 0
    else exists pos: Place :: st.stage == Stage(pos) && EndsWithChain(st.tuples, pos)
  }

  /** Tuples are stored, and devices and tables chosen, only under a command. */
  predicate CommandInvariant(cnt: nat, st: State) {
    && (st.cmd == NoCommand ==> st == INIT)
    && 0 <= st.dev <= cnt && 0 <= st.tbl < 0x8000
  }

  ghost predicate Invariant(cnt: nat, st: State) {
    StageInvariant(st) && CommandInvariant(cnt, st)
  }

  lemma StepKeepsInvariant(cnt: nat, st: State, tok: string)
    requires Invariant(cnt, st) && MatchStep(cnt, st, tok).Next?
    ensures Invariant(cnt, MatchStep(cnt, st, tok).st)
  {
    match Classify(tok)
    case Field(pos) =>
      var bs := Decode(pos, ValueOf(tok).value).bytes;
      ChainGrows(st, pos, Stored(CHAIN[pos], bs));
    case _ =>
  }

  lemma ChainGrows(st: State, pos: Place, f: Stored<TupleId>)
    requires StageInvariant(st) && InOrder(st.stage, pos) && f.id == CHAIN[pos]
    ensures EndsWithChain(st.tuples + [f], pos)
  {
    var ids := Ids(st.tuples);
    assert Ids(st.tuples + [f]) == ids + [f.id];
    assert pos > 0 ==> EndsWithChain(st.tuples, pos - 1);
    SuffixGrows(ids, f.id, pos);
    PrefixGrows(CHAIN, pos);
    hide Stage, Ids;
  }

  lemma SuffixGrows(ids: seq<TupleId>, id: TupleId, k: nat)
    requires k <= |ids|
    ensures (ids + [id])[|ids| - k..] == ids[|ids| - k..] + [id]
  {
  }

  lemma PrefixGrows(ids: seq<TupleId>, k: nat)
    requires k < |ids|
    ensures ids[..k + 1] == ids[..k] + [ids[k]]
  {
  }

  /** Every state that the match loop reaches on any token list satisfies the invariant. */
  lemma {:induction false} ReachableInvariant(cnt: nat, st: State, toks: seq<string>)
    requires Invariant(cnt, st) && MatchRun(cnt, st, toks).Matched?
    ensures Invariant(cnt, MatchRun(cnt, st, toks).st)
    decreases |toks|
  {
    if toks != [] && MatchStep(cnt, st, toks[0]).Next? {
      StepKeepsInvariant(cnt, st, toks[0]);
      ReachableInvariant(cnt, MatchStep(cnt, st, toks[0]).st, toks[1..]);
    }
  }

  /** Stage 10 is skipped: no reachable state has it. */
  lemma StageTenUnreachable(cnt: nat, toks: seq<string>)
    requires MatchRun(cnt, INIT, toks).Matched?
    ensures MatchRun(cnt, INIT, toks).st.stage != 10
    ensures MatchRun(cnt, INIT, toks).st.stage <= 12
  {
    ReachableInvariant(cnt, INIT, toks);
  }
}
