/** What an accepted filter line asks for, option by option, in terms of the text of its tokens. */
module LineMeaning {
  import opened CStrings
  import opened Numerals
  import opened FlowTypes
  import opened FilterSpec
  import opened FilterGrammar
  import opened FilterLines
  import opened FilterWords
  import opened RoundTrip

  // ----- The two parts of a line

  /** The fields stand before the first token that starts with "action", the actions behind it. */
  lemma PartsAtAction(toks: seq<string>, k: nat)
    requires k < |toks| && "action" <= toks[k] && forall i :: 0 <= i < k ==> !("action" <= toks[i])
    ensures FieldPart(toks) == toks[..k] && ActionPart(toks) == toks[k + 1..] && HasActionWord(toks)
  {
    var m := ActionAt(toks);
    OtherWords(toks[k]);
    if m < |toks| {
      OtherWords(toks[m]);
    }
  }

  lemma PartsWithoutAction(toks: seq<string>)
    requires forall i :: 0 <= i < |toks| ==> !("action" <= toks[i])
    ensures FieldPart(toks) == toks && ActionPart(toks) == [] && !HasActionWord(toks)
  {
    var m := ActionAt(toks);
    if m < |toks| {
      OtherWords(toks[m]);
    }
  }

  // ----- The last command, dev and tbl win

  lemma {:induction false} LastCommandOf(a: seq<string>, t: string, b: seq<string>)
    requires Classify(t).Command? && forall i :: 0 <= i < |b| ==> !Classify(b[i]).Command?
    ensures LastCommand(a + [t] + b) == Classify(t).cmd
    decreases |b|
  {
    var all := a + [t] + b;
    if b == [] {
      assert all[|all| - 1] == t;
    } else {
      assert all[..|all| - 1] == a + [t] + b[..|b| - 1] && all[|all| - 1] == b[|b| - 1];
      LastCommandOf(a, t, b[..|b| - 1]);
    }
  }

  lemma {:induction false} LastNumberOf(w: Word, a: seq<string>, t: string, b: seq<string>)
    requires Classify(t) == w && forall i :: 0 <= i < |b| ==> Classify(b[i]) != w
    ensures LastNumber(w, a + [t] + b) == NumberOf(t)
    decreases |b|
  {
    var all := a + [t] + b;
    if b == [] {
      assert all[|all| - 1] == t;
    } else {
      assert all[..|all| - 1] == a + [t] + b[..|b| - 1] && all[|all| - 1] == b[|b| - 1];
      LastNumberOf(w, a, t, b[..|b| - 1]);
    }
  }

  lemma {:induction false} NoNumberOf(w: Word, toks: seq<string>)
    requires forall i :: 0 <= i < |toks| ==> Classify(toks[i]) != w
    ensures LastNumber(w, toks) == 0
  {
    if toks != [] {
      NoNumberOf(w, toks[..|toks| - 1]);
    }
  }

  function FieldTokens(line: string): seq<string> {
    FieldPart(Tokens(Some(line)))
  }

  function ActionOptions(line: string): seq<string> {
    ActionPart(Tokens(Some(line)))
  }

  /** No token behind the j-th one starts with this word. */
  predicate LastWith(toks: seq<string>, j: nat, word: string)
    requires j < |toks|
  {
    word <= toks[j] && forall i :: j < i < |toks| ==> !(word <= toks[i])
  }

  /** The parts of the call of an accepted line. */
  lemma CallParts(cnt: nat, line: string, c: FlowCall)
    requires FilterLine(cnt, line) == Accepted(Some(c))
    ensures ValidTokens(cnt, FieldTokens(line)) && ValidActions(ActionOptions(line))
    ensures c.cmd == LastCommand(FieldTokens(line))
    ensures c.dev == LastNumber(Dev, FieldTokens(line)) && c.tbl == LastNumber(Tbl, FieldTokens(line))
    ensures c.tuples == Stores(FieldTokens(line)) && c.actions == Outputs(ActionOptions(line))
  {
    hide FilterLine, Tokens, FieldPart, ActionPart, LastCommand, LastNumber, Stores, Outputs, Places, ValidTokens,
         ValidActions, HasCommand, HasRoom;
    AcceptedCall(cnt, line, c);
  }

  /** The last command word is the operation that is called. */
  lemma CommandWins(cnt: nat, line: string, c: FlowCall, j: nat)
    requires FilterLine(cnt, line) == Accepted(Some(c)) && j < |FieldTokens(line)|
    requires forall i :: j < i < |FieldTokens(line)| ==> !StartsWithCommand(FieldTokens(line)[i])
    ensures "add" <= FieldTokens(line)[j] ==> c.cmd == Add
    ensures "del" <= FieldTokens(line)[j] ==> c.cmd == Del
    ensures "dump" <= FieldTokens(line)[j] ==> c.cmd == Dump
  {
    hide Classify, FilterLine, FieldTokens, ActionOptions, LastCommand, LastNumber, Stores, Outputs, ValidTokens,
         ValidActions;
    var pre := FieldTokens(line);
    CallParts(cnt, line, c);
    CommandWords(pre[j]);
    forall i | j < i < |pre| ensures !Classify(pre[i]).Command? {
      CommandWords(pre[i]);
    }
    if StartsWithCommand(pre[j]) {
      assert pre == pre[..j] + [pre[j]] + pre[j + 1..];
      LastCommandOf(pre[..j], pre[j], pre[j + 1..]);
    }
  }

  /** The last dev option, read by atoi and narrowed to 16 bits, is the device; 0 without one. */
  lemma DeviceWins(cnt: nat, line: string, c: FlowCall)
    requires FilterLine(cnt, line) == Accepted(Some(c))
    ensures forall j :: 0 <= j < |FieldTokens(line)| && LastWith(FieldTokens(line), j, "dev") ==>
              ValueOf(FieldTokens(line)[j]).Some? && c.dev == Short(Atoi(ValueOf(FieldTokens(line)[j]).value))
    ensures (forall i :: 0 <= i < |FieldTokens(line)| ==> !("dev" <= FieldTokens(line)[i])) ==> c.dev == 0
  {
    hide Classify, FilterLine, FieldTokens, ActionOptions, Atoi, Short, ValueOf, LastCommand, LastNumber, Stores,
         Outputs,
         ValidActions;
    var pre := FieldTokens(line);
    CallParts(cnt, line, c);
    forall i | 0 <= i < |pre| ensures Classify(pre[i]) == Dev <==> "dev" <= pre[i] {
      OtherWords(pre[i]);
    }
    forall j | 0 <= j < |pre| && LastWith(pre, j, "dev")
      ensures ValueOf(pre[j]).Some? && c.dev == Short(Atoi(ValueOf(pre[j]).value))
    {
      assert ValidToken(cnt, pre[j]);
      assert pre == pre[..j] + [pre[j]] + pre[j + 1..];
      LastNumberOf(Dev, pre[..j], pre[j], pre[j + 1..]);
    }
    if forall i :: 0 <= i < |pre| ==> !("dev" <= pre[i]) {
      NoNumberOf(Dev, pre);
    }
  }

  /** The same for tbl. */
  lemma TableWins(cnt: nat, line: string, c: FlowCall)
    requires FilterLine(cnt, line) == Accepted(Some(c))
    ensures forall j :: 0 <= j < |FieldTokens(line)| && LastWith(FieldTokens(line), j, "tbl") ==>
              ValueOf(FieldTokens(line)[j]).Some? && c.tbl == Short(Atoi(ValueOf(FieldTokens(line)[j]).value))
    ensures (forall i :: 0 <= i < |FieldTokens(line)| ==> !("tbl" <= FieldTokens(line)[i])) ==> c.tbl == 0
  {
    hide Classify, FilterLine, FieldTokens, ActionOptions, Atoi, Short, ValueOf, LastCommand, LastNumber, Stores,
         Outputs,
         ValidActions;
    var pre := FieldTokens(line);
    CallParts(cnt, line, c);
    forall i | 0 <= i < |pre| ensures Classify(pre[i]) == Tbl <==> "tbl" <= pre[i] {
      OtherWords(pre[i]);
    }
    forall j | 0 <= j < |pre| && LastWith(pre, j, "tbl")
      ensures ValueOf(pre[j]).Some? && c.tbl == Short(Atoi(ValueOf(pre[j]).value))
    {
      assert ValidToken(cnt, pre[j]);
      assert pre == pre[..j] + [pre[j]] + pre[j + 1..];
      LastNumberOf(Tbl, pre[..j], pre[j], pre[j + 1..]);
    }
    if forall i :: 0 <= i < |pre| ==> !("tbl" <= pre[i]) {
      NoNumberOf(Tbl, pre);
    }
  }

  /** An accepted line makes a call exactly if it has a command word before the actions, and every
      other word but filter stands behind one. */
  lemma CommandsLead(cnt: nat, line: string)
    requires FilterLine(cnt, line).Accepted?
    ensures FilterLine(cnt, line).call.Some? <==>
            exists i :: 0 <= i < |FieldTokens(line)| && StartsWithCommand(FieldTokens(line)[i])
    ensures forall j :: 0 <= j < |FieldTokens(line)| ==>
              || "filter" <= FieldTokens(line)[j] || StartsWithCommand(FieldTokens(line)[j])
              || exists i :: 0 <= i < j && StartsWithCommand(FieldTokens(line)[i])
  {
    hide Classify, FilterLine, Tokens, FieldPart, ActionPart;
    var pre := FieldTokens(line);
    LineLanguage(cnt, line);
    forall i | 0 <= i < |pre|
      ensures Classify(pre[i]).Command? <==> StartsWithCommand(pre[i])
      ensures Classify(pre[i]) == FilterWord <==> "filter" <= pre[i]
    {
      CommandWords(pre[i]);
    }
    assert HasCommand(pre) <==> exists i :: 0 <= i < |pre| && StartsWithCommand(pre[i]) by {
      if HasCommand(pre) {
        var i :| 0 <= i < |pre| && IsCommand(pre[i]);
      }
      if i :| 0 <= i < |pre| && StartsWithCommand(pre[i]) {
        assert IsCommand(pre[i]);
      }
    }
    forall j | 0 <= j < |pre|
      ensures || "filter" <= pre[j] || StartsWithCommand(pre[j])
              || exists i :: 0 <= i < j && StartsWithCommand(pre[i])
    {
      if NeedsCommand(pre[j]) {
        var i :| 0 <= i < j && IsCommand(pre[..j][i]);
        assert StartsWithCommand(pre[i]);
      }
    }
  }

  /** Value and range of an option that the match loop takes. */
  predicate TakenOption(cnt: nat, tok: string) {
    || "filter" <= tok || StartsWithCommand(tok)
    || (ValueOf(tok).Some? && (
         || ("dev" <= tok && 0 <= Short(Atoi(ValueOf(tok).value)) <= cnt)
         || ("tbl" <= tok && 0 <= Short(Atoi(ValueOf(tok).value)))
         || exists p: Place :: KEYWORDS[p] <= tok && ((p == 2 || p == 3) ==> EtherAton(ValueOf(tok).value).Some?)))
  }

  /** Which tokens the match loop takes, by their text. */
  lemma TakenIff(cnt: nat, tok: string)
    ensures ValidToken(cnt, tok) <==> TakenOption(cnt, tok)
  {
    hide Classify, Atoi, Short, EtherAton, InetPton, Decode;
    CommandWords(tok);
    OtherWords(tok);
    forall p: Place ensures Classify(tok) == Field(p) <==> KEYWORDS[p] <= tok {
      FieldWords(p, tok);
    }
    match Classify(tok)
    case Field(p) =>
      if ValueOf(tok).Some? {
        DecodeMeaning(p, ValueOf(tok).value);
      }
      assert KEYWORDS[p] <= tok;
    case _ =>
  }

  /** An accepted line holds no other tokens before the action word, and no action word without a
      command. */
  lemma OnlyTaken(cnt: nat, line: string)
    requires FilterLine(cnt, line).Accepted?
    ensures forall j :: 0 <= j < |FieldTokens(line)| ==> TakenOption(cnt, FieldTokens(line)[j])
    ensures HasActionWord(Tokens(Some(line))) ==>
              exists i :: 0 <= i < |FieldTokens(line)| && StartsWithCommand(FieldTokens(line)[i])
  {
    hide Classify, FilterLine, Tokens, FieldPart, ActionPart, HasActionWord, TakenOption;
    var pre := FieldTokens(line);
    LineLanguage(cnt, line);
    forall j | 0 <= j < |pre| ensures TakenOption(cnt, pre[j]) {
      assert ValidToken(cnt, pre[j]);
      TakenIff(cnt, pre[j]);
    }
    if HasActionWord(Tokens(Some(line))) {
      var i :| 0 <= i < |pre| && IsCommand(pre[i]);
      CommandWords(pre[i]);
    }
  }

  // ----- Every field option fills its tuple

  predicate StartsWithField(tok: string) {
    exists p: Place :: KEYWORDS[p] <= tok
  }

  /** How many field options stand in the list. */
  function CountFields(toks: seq<string>): nat {
    if toks == [] then 0 else (if StartsWithField(toks[0]) then 1 else 0) + CountFields(toks[1..])
  }

  lemma FieldTokenIff(tok: string)
    ensures Classify(tok).Field? <==> StartsWithField(tok)
  {
    hide Classify;
    forall p: Place ensures Classify(tok) == Field(p) <==> KEYWORDS[p] <= tok {
      FieldWords(p, tok);
    }
    if Classify(tok).Field? {
      assert KEYWORDS[Classify(tok).pos] <= tok;
    }
  }

  lemma {:induction false} StoresAppend(a: seq<string>, b: seq<string>)
    ensures Stores(a + b) == Stores(a) + Stores(b) && Places(a + b) == Places(a) + Places(b)
    decreases |b|
  {
    hide Classify, StoreOf;
    if b == [] {
      assert a + b == a;
    } else {
      var all := a + b;
      StoresAppend(a, b[..|b| - 1]);
      assert all[..|all| - 1] == a + b[..|b| - 1] && all[|all| - 1] == b[|b| - 1];
    }
  }

  lemma {:induction false} CountIsLength(toks: seq<string>)
    ensures |Stores(toks)| == |Places(toks)| == CountFields(toks)
  {
    hide Classify, StartsWithField, StoreOf;
    if toks != [] {
      var t := toks[0];
      FieldTokenIff(t);
      assert toks == [t] + toks[1..] && [t][..0] == [];
      StoresAppend([t], toks[1..]);
      CountIsLength(toks[1..]);
    }
  }

  lemma StoredAt(toks: seq<string>, p: Place, j: nat)
    requires j < |toks| && KEYWORDS[p] <= toks[j]
    ensures Classify(toks[j]) == Field(p)
    ensures CountFields(toks[..j]) < |Stores(toks)| && Stores(toks)[CountFields(toks[..j])] == StoreOf(toks[j])
    ensures CountFields(toks[..j]) < |Places(toks)| && Places(toks)[CountFields(toks[..j])] == p
  {
    hide Classify, StoreOf;
    FieldWords(p, toks[j]);
    CountIsLength(toks[..j]);
    var t := toks[j];
    assert toks == toks[..j] + ([t] + toks[j + 1..]) && [t][..0] == [];
    StoresAppend(toks[..j], [t] + toks[j + 1..]);
    StoresAppend([t], toks[j + 1..]);
  }

  /** The field option at token j fills the tuple of its name with what its value decodes to; its
      slot is the number of field options before it. */
  lemma FieldDelivered(cnt: nat, line: string, c: FlowCall, p: Place, j: nat)
    requires FilterLine(cnt, line) == Accepted(Some(c))
    requires j < |FieldTokens(line)| && KEYWORDS[p] <= FieldTokens(line)[j]
    ensures var i, v := CountFields(FieldTokens(line)[..j]), ValueOf(FieldTokens(line)[j]);
            && i < |c.tuples| && v.Some? && Decode(p, v.value) == Bytes(c.tuples[i].bytes)
            && c.tuples[i].id == CHAIN[p] && FLOW_TUPLES[c.tuples[i].id] == FILLS[p]
  {
    hide Classify, FilterLine, FieldTokens, ActionOptions, LastCommand, LastNumber, Stores, Outputs, ValidActions;
    var pre := FieldTokens(line);
    CallParts(cnt, line, c);
    StoredAt(pre, p, j);
    FieldWords(p, pre[j]);
    assert ValidToken(cnt, pre[j]);
  }

  /** There are no other tuples. */
  lemma TuplesCounted(cnt: nat, line: string, c: FlowCall)
    requires FilterLine(cnt, line) == Accepted(Some(c))
    ensures |c.tuples| == CountFields(FieldTokens(line))
  {
    hide FilterLine, FieldTokens, ActionOptions, Stores, Outputs, Places, CountFields;
    CallParts(cnt, line, c);
    CountIsLength(FieldTokens(line));
  }

  lemma {:induction false} CountNone(toks: seq<string>)
    requires forall i :: 0 <= i < |toks| ==> !StartsWithField(toks[i])
    ensures CountFields(toks) == 0
  {
    hide StartsWithField;
    if toks != [] {
      CountNone(toks[1..]);
    }
  }

  lemma {:induction false} CountAppend(a: seq<string>, b: seq<string>)
    ensures CountFields(a + b) == CountFields(a) + CountFields(b)
  {
    hide StartsWithField;
    if a == [] {
      assert a + b == b;
    } else {
      CountAppend(a[1..], b);
      assert (a + b)[1..] == a[1..] + b;
    }
  }

  /** In a list of correctly ordered fields, the next one after a field. */
  lemma NextField(pre: seq<string>, p: Place, j: nat, q: Place, k: nat)
    requires Stepwise(Places(pre)) && j < k < |pre|
    requires KEYWORDS[p] <= pre[j] && KEYWORDS[q] <= pre[k] && CountFields(pre[j + 1..k]) == 0
    ensures q == 0 || q as int == p + 1
  {
    hide Classify, StoreOf, Places, Stores, CountFields, StartsWithField, Stepwise;
    StoredAt(pre, q, k);
    StoredAt(pre, p, j);
    CountBetween(pre, p, j, k);
    StepAt(Places(pre), CountFields(pre[..j]));
  }

  lemma StepAt(ps: seq<Place>, i: nat)
    requires Stepwise(ps) && i + 1 < |ps|
    ensures ps[i + 1] == 0 || ps[i + 1] as int == ps[i] as int + 1
  {
    assert StepOk(ps, i + 1);
  }

  lemma CountBetween(pre: seq<string>, p: Place, j: nat, k: nat)
    requires j < k <= |pre| && KEYWORDS[p] <= pre[j] && CountFields(pre[j + 1..k]) == 0
    ensures CountFields(pre[..k]) == CountFields(pre[..j]) + 1
  {
    var between := [pre[j]] + pre[j + 1..k];
    assert between[0] == pre[j] && between[1..] == pre[j + 1..k];
    assert StartsWithField(pre[j]);
    assert CountFields(between) == 1;
    assert pre[..k] == pre[..j] + between;
    CountAppend(pre[..j], between);
  }

  /** The fields of an accepted line stand in order: the first one is in-phy-port, and behind a field
      stands its successor or in-phy-port again. */
  lemma FieldsInOrder(cnt: nat, line: string, q: Place, k: nat)
    requires FilterLine(cnt, line).Accepted? && k < |FieldTokens(line)| && KEYWORDS[q] <= FieldTokens(line)[k]
    ensures CountFields(FieldTokens(line)[..k]) == 0 ==> q == 0
    ensures forall p: Place, j ::
              (0 <= j < k && KEYWORDS[p] <= FieldTokens(line)[j] && CountFields(FieldTokens(line)[j + 1..k]) == 0)
              ==> q == 0 || q as int == p + 1
  {
    hide Classify, FilterLine, Tokens, FieldPart, ActionPart, StoreOf, Places, Stores, CountFields;
    var pre := FieldTokens(line);
    LineLanguage(cnt, line);
    InChainsIff(Places(pre));
    FirstField(pre, q, k);
    forall p: Place, j | 0 <= j < k && KEYWORDS[p] <= pre[j] && CountFields(pre[j + 1..k]) == 0
      ensures q == 0 || q as int == p + 1
    {
      NextField(pre, p, j, q, k);
    }
  }

  lemma FirstField(pre: seq<string>, q: Place, k: nat)
    requires Stepwise(Places(pre)) && k < |pre| && KEYWORDS[q] <= pre[k]
    ensures CountFields(pre[..k]) == 0 ==> q == 0
  {
    hide Classify, StoreOf, Places, Stores, CountFields;
    StoredAt(pre, q, k);
    assert StepOk(Places(pre), CountFields(pre[..k]));
  }

  // ----- Every out-port option is an action

  function CountPorts(toks: seq<string>): nat {
    if toks == [] then 0 else (if "out-port" <= toks[0] then 1 else 0) + CountPorts(toks[1..])
  }

  lemma {:induction false} CountIsOutputs(toks: seq<string>)
    requires ValidActions(toks)
    ensures |Outputs(toks)| == CountPorts(toks)
  {
    if toks != [] {
      ValidActionsStep(toks);
      DropIsNotOutput(toks[0]);
      CountIsOutputs(toks[1..]);
      hide ValueOf, Atoi, Short, ShortBytes;
    }
  }

  lemma OutputAt(toks: seq<string>, j: nat)
    requires ValidActions(toks) && j < |toks| && "out-port" <= toks[j]
    ensures CountPorts(toks[..j]) < |Outputs(toks)| && ValueOf(toks[j]).Some?
    ensures var n := Atoi(ValueOf(toks[j]).value);
            Outputs(toks)[CountPorts(toks[..j])] == Stored(OUT_PORT, [n % 256, n / 256 % 256])
  {
    hide CountPorts, ValueOf, Atoi, ShortBytes, Short;
    var t, before, after := toks[j], toks[..j], toks[j + 1..];
    assert ValidAction(t);
    DropIsNotOutput(t);
    assert toks == before + ([t] + after);
    assert ValidActions(before) by {
      assert forall k :: 0 <= k < j ==> before[k] == toks[k];
      assert forall k :: 0 <= k < |toks| ==> ValidAction(toks[k]);
    }
    CountIsOutputs(before);
    OutputsAppend(before, [t] + after);
    assert ([t] + after)[1..] == after;
    StoredBytes(Atoi(ValueOf(t).value));
  }

  /** The out-port option at token j is the action number 2 with its value modulo 65536, low byte
      first; its slot is the number of out-port options before it. */
  lemma PortDelivered(cnt: nat, line: string, c: FlowCall, j: nat)
    requires FilterLine(cnt, line) == Accepted(Some(c))
    requires j < |ActionOptions(line)| && "out-port" <= ActionOptions(line)[j]
    ensures var i, v := CountPorts(ActionOptions(line)[..j]), ValueOf(ActionOptions(line)[j]);
            && i < |c.actions| && v.Some? && FLOW_ACTIONS[c.actions[i].id] == "out_port"
            && c.actions[i].bytes == [Atoi(v.value) % 256, Atoi(v.value) / 256 % 256]
  {
    hide FilterLine, FieldTokens, ActionOptions, Stores, Outputs, ValueOf, Atoi, CountPorts, ValidTokens, ValidActions,
         LastCommand, LastNumber;
    CallParts(cnt, line, c);
    OutputAt(ActionOptions(line), j);
  }

  /** There are no other actions; every token behind the action word is a drop or an out-port. */
  lemma ActionsCounted(cnt: nat, line: string, c: FlowCall)
    requires FilterLine(cnt, line) == Accepted(Some(c))
    ensures |c.actions| == CountPorts(ActionOptions(line))
    ensures forall j :: 0 <= j < |ActionOptions(line)| ==>
              "drop" <= ActionOptions(line)[j] || "out-port" <= ActionOptions(line)[j]
  {
    hide FilterLine, FieldTokens, ActionOptions, Stores, Outputs, CountPorts;
    CallParts(cnt, line, c);
    CountIsOutputs(ActionOptions(line));
    forall j | 0 <= j < |ActionOptions(line)|
      ensures "drop" <= ActionOptions(line)[j] || "out-port" <= ActionOptions(line)[j]
    {
      assert ValidAction(ActionOptions(line)[j]);
    }
  }
}
