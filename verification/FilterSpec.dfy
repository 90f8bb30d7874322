/** The filter command as a token automaton: what fib_cmd_filter does with one line. */
module FilterSpec {
  import opened CStrings
  import opened Numerals
  import opened Keywords
  import opened FlowTypes

  // ----- Words of the match phase

  type Place = p: nat | p <= 10
  type RealCmd = c: Cmd | c != NoCommand witness Add

  datatype Word = FilterWord | Command(cmd: RealCmd) | Dev | Tbl | Field(pos: Place) | ActionWord | Unknown

  /** The match fields in the order the automaton asks for them. */
  const CHAIN: seq<TupleId> :=
    [IN_PHY_PORT, IN_PORT, DL_DST, DL_SRC, DL_TYPE, NW4_DST, NW4_SRC, NW_ECN, NW_PROTO, TP_DST, TP_SRC]

  /** rqd_field after the field at this place of the chain; 10 is skipped. */
  function Stage(pos: Place): nat {
    if pos <= 8 then pos + 1 else pos + 2
  }

  /** The strncmp tests of the match loop; "dl-type" is compared on its first six characters. */
  const FILTER_TABLE: seq<Entry<Word>> := [
    Entry("filter", FilterWord),
    Entry("add", Command(Add)),
    Entry("del", Command(Del)),
    Entry("dump", Command(Dump)),
    Entry("dev", Dev),
    Entry("tbl", Tbl),
    Entry("in-phy-port", Field(0)),
    Entry("in-port", Field(1)),
    Entry("dl-dst", Field(2)),
    Entry("dl-src", Field(3)),
    Entry("dl-typ", Field(4)),
    Entry("nw-dst", Field(5)),
    Entry("nw-src", Field(6)),
    Entry("nw-ecn", Field(7)),
    Entry("nw-proto", Field(8)),
    Entry("tp-dst", Field(9)),
    Entry("tp-src", Field(10)),
    Entry("action", ActionWord)]

  function Classify(tok: string): Word {
    match FirstMatch(FILTER_TABLE, tok)
    case None => Unknown
    case Some(e) => e.word
  }

  predicate DifferAt(a: string, b: string, p: nat) {
    p < |a| && p < |b| && a[p] != b[p]
  }

  lemma KeysDiffer(i: nat, j: nat)
    requires i < j < |FILTER_TABLE|
    ensures exists p :: DifferAt(FILTER_TABLE[i].key, FILTER_TABLE[j].key, p)
  {
    var a, b := FILTER_TABLE[i].key, FILTER_TABLE[j].key;
    assert DifferAt(a, b, 0) || DifferAt(a, b, 1) || DifferAt(a, b, 2) || DifferAt(a, b, 3) || DifferAt(a, b, 4);
  }

  /** No keyword of the match phase starts with another one. */
  lemma FilterTablePrefixFree()
    ensures PrefixFree(FILTER_TABLE)
  {
    forall e, e' | e in FILTER_TABLE && e' in FILTER_TABLE && e != e' ensures !(e.key <= e'.key) {
      EntriesApart(FILTER_TABLE, e, e');
    }
  }

  lemma EntriesApart(table: seq<Entry<Word>>, e: Entry<Word>, e': Entry<Word>)
    requires table == FILTER_TABLE && e in table && e' in table && e != e'
    ensures !(e.key <= e'.key)
  {
    var i :| 0 <= i < |table| && table[i] == e;
    var j :| 0 <= j < |table| && table[j] == e';
    if i < j {
      KeysDiffer(i, j);
    } else {
      KeysDiffer(j, i);
    }
  }

  /** Whatever the order of the tests, a token is classified by the one keyword it starts with. */
  lemma FilterOrderIrrelevant(other: seq<Entry<Word>>, tok: string)
    requires SameEntries(FILTER_TABLE, other)
    ensures FirstMatch(other, tok) == FirstMatch(FILTER_TABLE, tok)
    ensures forall e :: e in FILTER_TABLE && e.key <= tok ==> Classify(tok) == e.word
    ensures (forall e :: e in FILTER_TABLE ==> !(e.key <= tok)) ==> Classify(tok) == Unknown
  {
    FilterTablePrefixFree();
    OrderIrrelevant(FILTER_TABLE, other, tok);
    var m := FirstMatchIndex(FILTER_TABLE, tok);
  }

  lemma Keyword(i: nat, tok: string)
    requires i < |FILTER_TABLE| && FILTER_TABLE[i].key <= tok
    ensures Classify(tok) == FILTER_TABLE[i].word
  {
    FilterOrderIrrelevant(FILTER_TABLE, tok);
    assert FILTER_TABLE[i] in FILTER_TABLE;
  }

  /** What a field option stores; a malformed dl-dst is refused, a malformed dl-src makes the
      parser read through a null pointer, a malformed IPv4 address leaves the bytes as they were. */
  datatype Decoded = Bytes(bytes: seq<Byte>) | Refused | NullAddress

  function Reversed4(q: seq<Byte>): seq<Byte>
    requires |q| == 4
  {
    [q[3], q[2], q[1], q[0]]
  }

  function Decode(pos: Place, v: string): (d: Decoded)
    ensures d.Bytes? ==> |d.bytes| <= 6
  {
    if pos == 2 || pos == 3 then
      match EtherAton(v)
      case Some(octets) => Bytes(octets)
      case None => if pos == 2 then Refused else NullAddress
    else if pos == 5 || pos == 6 then
      match InetPton(v)
      case Some(q) => Bytes(Reversed4(q))
      case None => Bytes([])
    else Bytes(ShortBytes(Short(if pos == 4 then Strtol16(v) else Atoi(v))))
  }

  // ----- Match phase

  datatype State = State(cmd: Cmd, dev: int, tbl: int, stage: nat, tuples: seq<Stored<TupleId>>)

  const INIT := State(NoCommand, 0, 0, 0, [])

  datatype Step = Next(st: State) | Stop | Refuse | Fault

  /** One round of the match loop; cnt is flw_dev_cnt. */
  function MatchStep(cnt: nat, st: State, tok: string): Step {
    var w := Classify(tok);
    match w
    case FilterWord => Next(st)
    case Command(c) => Next(st.(cmd := c))
    case _ => if st.cmd == NoCommand then Refuse else OptionStep(cnt, st, w, ValueOf(tok))
  }

  function OptionStep(cnt: nat, st: State, w: Word, value: Option<string>): Step {
    match w
    case Dev =>
      if value.None? then Refuse
      else if 0 <= Short(Atoi(value.value)) <= cnt then Next(st.(dev := Short(Atoi(value.value))))
      else Refuse
    case Tbl =>
      if value.None? then Refuse
      else if 0 <= Short(Atoi(value.value)) then Next(st.(tbl := Short(Atoi(value.value))))
      else Refuse
    case Field(pos) =>
      PlaceStep(st, pos, value)
    case ActionWord => Stop
    case _ => Refuse
  }

  /** in-phy-port is always in order, every other field only after its predecessor. */
  predicate InOrder(stage: nat, pos: Place) {
    pos == 0 || stage == Stage(pos - 1)
  }

  function PlaceStep(st: State, pos: Place, value: Option<string>): Step {
    if InOrder(st.stage, pos) then FieldStep(st, pos, value) else Refuse
  }

  function FieldStep(st: State, pos: Place, value: Option<string>): Step {
    if value.None? then Refuse
    else
      match Decode(pos, value.value)
      case Refused => Refuse
      case NullAddress => Fault
      case Bytes(bs) => Next(st.(stage := Stage(pos), tuples := st.tuples + [Stored(CHAIN[pos], bs)]))
  }

  /** How a loop body leaves: continue, break, or goto out. */
  datatype Verdict = Continue | Break | Out

  /** The body that ended with this verdict in this state took this step. */
  predicate Took(step: Step, before: State, verdict: Verdict, now: State) {
    match step
    case Next(st) => verdict == Continue && now == st
    case Stop => verdict == Break && now == before
    case Refuse => verdict == Out
    case Fault => false
  }

  datatype MatchEnd = Matched(st: State, rest: seq<string>) | Mismatch | Faulted

  function MatchRun(cnt: nat, st: State, toks: seq<string>): MatchEnd
    decreases |toks|
  {
    if toks == [] then Matched(st, [])
    else
      match MatchStep(cnt, st, toks[0])
      case Next(st') => MatchRun(cnt, st', toks[1..])
      case Stop => Matched(st, toks[1..])
      case Refuse => Mismatch
      case Fault => Faulted
  }

  // ----- Action phase

  datatype ActionStep = Dropped | Output(action: Stored<ActionId>) | NotAnAction

  function ActionOf(tok: string): ActionStep {
    if "drop" <= tok then Dropped
    else if "out-port" <= tok && ValueOf(tok).Some? then
      Output(Stored(OUT_PORT, ShortBytes(Short(Atoi(ValueOf(tok).value)))))
    else NotAnAction
  }

  /** The action loop; acts are the slots below action_cnt. */
  function ActionRun(acts: seq<Stored<ActionId>>, toks: seq<string>): Option<seq<Stored<ActionId>>>
    decreases |toks|
  {
    if toks == [] then Some(acts)
    else
      match ActionOf(toks[0])
      case Dropped => ActionRun(acts, toks[1..])
      case Output(a) => ActionRun(acts + [a], toks[1..])
      case NotAnAction => None
  }

  // ----- The whole line

  /** Undefined where the C program has undefined behaviour: a write past the end of an array, a
      null Ethernet address, or a call through a device slot that was never registered. */
  datatype Outcome = Rejected | Undefined | Accepted(call: Option<FlowCall>)

  function Dispatch(cnt: nat, st: State, acts: seq<Stored<ActionId>>): Outcome {
    if st.cmd == NoCommand then Accepted(None)
    else if st.dev >= cnt then Undefined
    else Accepted(Some(FlowCall(st.cmd, st.dev, st.tbl, st.tuples, acts)))
  }

  function AfterMatch(cnt: nat, end: MatchEnd): Outcome {
    match end
    case Mismatch => Rejected
    case Faulted => Undefined
    case Matched(st, rest) =>
      match ActionRun([], rest)
      case None => Rejected
      case Some(acts) => Dispatch(cnt, st, acts)
  }

  /** What the two loops and the dispatch would make of a line if the arrays had no end. */
  function UnboundedLine(cnt: nat, line: string): Outcome {
    AfterMatch(cnt, MatchRun(cnt, INIT, Tokens(Some(line))))
  }

  // ----- Slots of the fixed arrays

  const SLOTS := 25

  /** Does this token write to tuples[tuple_cnt] in this state? */
  predicate WritesTuple(st: State, tok: string) {
    var w := Classify(tok);
    w.Field? && st.cmd != NoCommand && InOrder(st.stage, w.pos)
  }

  /** No round of the match loop writes past tuples[24]. */
  predicate TuplesFit(cnt: nat, st: State, toks: seq<string>)
    decreases |toks|
  {
    toks != [] ==>
    && (WritesTuple(st, toks[0]) ==> |st.tuples| < SLOTS)
    && (MatchStep(cnt, st, toks[0]).Next? ==> TuplesFit(cnt, MatchStep(cnt, st, toks[0]).st, toks[1..]))
  }

  /** Does this token write to actions[action_cnt]? */
  predicate WritesAction(tok: string) {
    "drop" <= tok || "out-port" <= tok
  }

  /** No round of the action loop writes past actions[24]; drop writes a slot too. */
  predicate ActionsFit(n: nat, toks: seq<string>)
    decreases |toks|
  {
    toks != [] ==>
    && (WritesAction(toks[0]) ==> n < SLOTS)
    && match ActionOf(toks[0])
       case Dropped => ActionsFit(n, toks[1..])
       case Output(_) => ActionsFit(n + 1, toks[1..])
       case NotAnAction => true
  }

  predicate LineFits(cnt: nat, line: string) {
    var toks := Tokens(Some(line));
    && TuplesFit(cnt, INIT, toks)
    && match MatchRun(cnt, INIT, toks)
       case Matched(_, rest) => ActionsFit(0, rest)
       case _ => true
  }

  function FilterLine(cnt: nat, line: string): Outcome {
    if LineFits(cnt, line) then UnboundedLine(cnt, line) else Undefined
  }

  /** The device calls of one line. */
  function LineCalls(cnt: nat, line: string): seq<FlowCall> {
    match FilterLine(cnt, line)
    case Accepted(Some(c)) => [c]
    case _ => []
  }
}
