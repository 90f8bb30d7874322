/** The output of dump_flow determines the flow: it can be read back from the front, line by line. */
module DumpUnique {
  import opened CStrings
  import opened Numerals
  import opened FlowTypes
  import opened FlowDump

  lemma DropPrefix(p: string, x: string, y: string)
    requires p + x == p + y
    ensures x == y
  {
    assert (p + x)[|p|..] == x && (p + y)[|p|..] == y;
  }

  lemma DecSignedUnique(a: int, b: int)
    requires DecSigned(a) == DecSigned(b)
    ensures a == b
  {
    var m, n := if a < 0 then -a else a, if b < 0 then -b else b;
    assert IsDigit(Dec(m)[0], 10) && IsDigit(Dec(n)[0], 10);
    if a < 0 && b < 0 {
      DropPrefix("-", Dec(m), Dec(n));
    }
    assert (a < 0) == (b < 0);
    NumeralInjective(10, m, n);
  }

  lemma DecSignedNoNewline(n: int)
    ensures '\n' !in DecSigned(n)
  {
    NumeralChars(10, if n < 0 then -n else n);
  }

  lemma {:induction false} SeparateChars(base: Base, c: char, bs: seq<Byte>)
    requires bs != [] && c in ":."
    ensures ' ' !in Separate(base, c, bs) && '\n' !in Separate(base, c, bs)
  {
    NumeralChars(base, bs[0]);
    if |bs| > 1 {
      SeparateChars(base, c, bs[1..]);
    }
  }

  // ----- One line

  /** What the dump shows of a tuple, and of an action. */
  function Shown(f: Stored<TupleId>): Stored<TupleId>
    requires Determined(f)
  {
    Stored(f.id, f.bytes[..Width(f.id)])
  }

  function ShownAction(a: Stored<ActionId>): Stored<ActionId>
    requires Nameable(a)
  {
    Stored(a.id, a.bytes[..1])
  }

  /** p, a decimal number, a space: the number and what follows can be told apart. */
  lemma NumberUnique(p: string, a: nat, x: string, b: nat, y: string)
    requires p + Dec(a) + " " + x == p + Dec(b) + " " + y
    ensures a == b && x == y
  {
    assert p + Dec(a) + " " + x == p + (Dec(a) + " " + x);
    assert p + Dec(b) + " " + y == p + (Dec(b) + " " + y);
    DropPrefix(p, Dec(a) + " " + x, Dec(b) + " " + y);
    NumeralChars(10, a);
    NumeralChars(10, b);
    CutUnique(' ', Dec(a), x, Dec(b), y);
    NumeralInjective(10, a, b);
  }

  lemma UShortUnique(a: seq<Byte>, b: seq<Byte>)
    requires |a| >= 2 && |b| >= 2 && UShort(a) == UShort(b)
    ensures a[..2] == b[..2]
  {
    assert a[0] == b[0] && a[1] == b[1];
  }

  lemma MacUnique(a: seq<Byte>, r: string, b: seq<Byte>, r': string)
    requires |a| == |b| == 6 && MacText(a) + " " + "\n" + r == MacText(b) + " " + "\n" + r'
    ensures a == b && r == r'
  {
    SeparateChars(16, ':', a);
    SeparateChars(16, ':', b);
    hide MacText;
    var s, t := MacText(a), MacText(b);
    assert s + " " + "\n" + r == s + " " + ("\n" + r) && t + " " + "\n" + r' == t + " " + ("\n" + r');
    CutUnique(' ', s, "\n" + r, t, "\n" + r');
    DropPrefix("\n", r, r');
    SeparateInjective(16, ':', a, b);
  }

  lemma QuadUnique(a: seq<Byte>, r: string, b: seq<Byte>, r': string)
    requires |a| == |b| == 4 && QuadText(a) + "\n" + r == QuadText(b) + "\n" + r'
    ensures a == b && r == r'
  {
    SeparateChars(10, '.', a);
    SeparateChars(10, '.', b);
    CutUnique('\n', QuadText(a), r, QuadText(b), r');
    SeparateInjective(10, '.', a, b);
  }

  lemma UShortTextUnique(base: Base, a: seq<Byte>, r: string, b: seq<Byte>, r': string)
    requires |a| >= 2 && |b| >= 2
    requires Numeral(base, UShort(a)) + "\n" + r == Numeral(base, UShort(b)) + "\n" + r'
    ensures a[..2] == b[..2] && r == r'
  {
    NumeralChars(base, UShort(a));
    NumeralChars(base, UShort(b));
    CutUnique('\n', Numeral(base, UShort(a)), r, Numeral(base, UShort(b)), r');
    NumeralInjective(base, UShort(a), UShort(b));
    UShortUnique(a, b);
  }

  lemma ValueUnique(f: Stored<TupleId>, r: string, g: Stored<TupleId>, r': string)
    requires Determined(f) && Determined(g) && f.id == g.id
    requires TupleValue(f) + r == TupleValue(g) + r'
    ensures Shown(f) == Shown(g) && r == r'
  {
    hide MacText, QuadText, Numeral;
    var w := Width(f.id);
    if w == 6 {
      MacUnique(f.bytes[..6], r, g.bytes[..6], r');
    } else if w == 4 {
      QuadUnique(f.bytes[..4], r, g.bytes[..4], r');
    } else if w == 0 {
      DropPrefix("0", r, r');
    } else {
      UShortTextUnique(if f.id == DL_TYPE then 16 else 10, f.bytes, r, g.bytes, r');
    }
  }

  /** The parts of a line: its number, its name, its value, and what follows. */
  lemma LineParts(p: string, n: string, name: string, v: string, r: string)
    ensures p + n + " " + (name + v) + r == p + n + " " + (name + (v + r))
  {
  }

  lemma TupleLineUnique(f: Stored<TupleId>, r: string, g: Stored<TupleId>, r': string)
    requires Determined(f) && Determined(g)
    requires TupleLine(f) + r == TupleLine(g) + r'
    ensures Shown(f) == Shown(g) && r == r'
  {
    hide TupleValue, Dec, Determined, Shown;
    var p := "TUPLE ID=";
    var x, y := ": " + TUPLE_NAMES[f.id] + "  ", ": " + TUPLE_NAMES[g.id] + "  ";
    LineParts(p, Dec(f.id), x, TupleValue(f), r);
    LineParts(p, Dec(g.id), y, TupleValue(g), r');
    NumberUnique(p, f.id, x + (TupleValue(f) + r), g.id, y + (TupleValue(g) + r'));
    DropPrefix(x, TupleValue(f) + r, TupleValue(g) + r');
    ValueUnique(f, r, g, r');
  }

  lemma ActionLineUnique(a: Stored<ActionId>, r: string, b: Stored<ActionId>, r': string)
    requires Nameable(a) && Nameable(b) && ActionLine(a) + r == ActionLine(b) + r'
    ensures ShownAction(a) == ShownAction(b) && r == r'
  {
    hide Dec;
    var p := "ACTION  ID=";
    var x, y := ": " + ACTION_NAMES[a.id] + " ", ": " + ACTION_NAMES[b.id] + " ";
    var u, v := Dec(a.bytes[0]), Dec(b.bytes[0]);
    LineParts(p, Dec(a.id), x, u + "\n", r);
    LineParts(p, Dec(b.id), y, v + "\n", r');
    NumberUnique(p, a.id, x + (u + "\n" + r), b.id, y + (v + "\n" + r'));
    DropPrefix(x, u + "\n" + r, v + "\n" + r');
    LowByteUnique(a.bytes[0], r, b.bytes[0], r');
    assert a.bytes[..1] == [a.bytes[0]] && b.bytes[..1] == [b.bytes[0]];
  }

  lemma LowByteUnique(a: Byte, r: string, b: Byte, r': string)
    requires Dec(a) + "\n" + r == Dec(b) + "\n" + r'
    ensures a == b && r == r'
  {
    NumeralChars(10, a);
    NumeralChars(10, b);
    CutUnique('\n', Dec(a), r, Dec(b), r');
    NumeralInjective(10, a, b);
    hide Numeral;
  }

  // ----- Whole dumps

  predicate AllDetermined(fs: seq<Stored<TupleId>>) {
    forall i :: 0 <= i < |fs| ==> Determined(fs[i])
  }

  predicate AllNameable(xs: seq<Stored<ActionId>>) {
    forall i :: 0 <= i < |xs| ==> Nameable(xs[i])
  }

  function ShownTuples(fs: seq<Stored<TupleId>>): seq<Stored<TupleId>>
    requires AllDetermined(fs)
  {
    if fs == [] then [] else [Shown(fs[0])] + ShownTuples(fs[1..])
  }

  function ShownActions(xs: seq<Stored<ActionId>>): seq<Stored<ActionId>>
    requires AllNameable(xs)
  {
    if xs == [] then [] else [ShownAction(xs[0])] + ShownActions(xs[1..])
  }

  predicate StartsWith(s: string, c: char) {
    s != [] && s[0] == c
  }

  lemma TupleLinesStep(fs: seq<Stored<TupleId>>, r: string)
    requires AllDetermined(fs)
    ensures if fs == [] then TupleLines(fs) + r == r
            else StartsWith(TupleLines(fs) + r, 'T')
                 && TupleLines(fs) + r == TupleLine(fs[0]) + (TupleLines(fs[1..]) + r)
  {
    if fs != [] {
      assert TupleLine(fs[0])[0] == 'T';
      Associative(TupleLine(fs[0]), TupleLines(fs[1..]), r);
    } else {
      assert "" + r == r;
    }
  }

  lemma {:induction false} TupleLinesUnique(fs: seq<Stored<TupleId>>, r: string, gs: seq<Stored<TupleId>>, r': string)
    requires AllDetermined(fs) && AllDetermined(gs) && !StartsWith(r, 'T') && !StartsWith(r', 'T')
    requires TupleLines(fs) + r == TupleLines(gs) + r'
    ensures ShownTuples(fs) == ShownTuples(gs) && r == r'
    decreases |fs|
  {
    TupleLinesStep(fs, r);
    TupleLinesStep(gs, r');
    hide TupleLine, TupleLines;
    if fs != [] {
      assert gs != [];
      TupleLineUnique(fs[0], TupleLines(fs[1..]) + r, gs[0], TupleLines(gs[1..]) + r');
      TupleLinesUnique(fs[1..], r, gs[1..], r');
    }
  }

  lemma ActionLinesStep(xs: seq<Stored<ActionId>>, r: string)
    requires AllNameable(xs)
    ensures if xs == [] then ActionLines(xs) + r == r
            else StartsWith(ActionLines(xs) + r, 'A')
                 && ActionLines(xs) + r == ActionLine(xs[0]) + (ActionLines(xs[1..]) + r)
  {
    if xs != [] {
      assert ActionLine(xs[0])[0] == 'A';
      Associative(ActionLine(xs[0]), ActionLines(xs[1..]), r);
    } else {
      assert "" + r == r;
    }
  }

  lemma {:induction false} ActionLinesUnique(xs: seq<Stored<ActionId>>, r: string, ys: seq<Stored<ActionId>>,
                                             r': string)
    requires AllNameable(xs) && AllNameable(ys) && !StartsWith(r, 'A') && !StartsWith(r', 'A')
    requires ActionLines(xs) + r == ActionLines(ys) + r'
    ensures ShownActions(xs) == ShownActions(ys) && r == r'
    decreases |xs|
  {
    ActionLinesStep(xs, r);
    ActionLinesStep(ys, r');
    hide ActionLine, ActionLines;
    if xs != [] {
      assert ys != [];
      ActionLineUnique(xs[0], ActionLines(xs[1..]) + r, ys[0], ActionLines(ys[1..]) + r');
      ActionLinesUnique(xs[1..], r, ys[1..], r');
    }
  }

  lemma FieldUnique(p: string, a: int, r: string, b: int, r': string)
    requires p + DecSigned(a) + "\n" + r == p + DecSigned(b) + "\n" + r'
    ensures a == b && r == r'
  {
    hide DecSigned;
    ThreeParts(p, DecSigned(a), "\n", r);
    ThreeParts(p, DecSigned(b), "\n", r');
    Associative(DecSigned(a), "\n", r);
    Associative(DecSigned(b), "\n", r');
    DecSignedNoNewline(a);
    DecSignedNoNewline(b);
    DropPrefix(p, DecSigned(a) + "\n" + r, DecSigned(b) + "\n" + r');
    CutUnique('\n', DecSigned(a), r, DecSigned(b), r');
    DecSignedUnique(a, b);
  }

  lemma TwoFieldsUnique(banner: string, d: string, t: string,
                        dev: int, tbl: int, r: string, dev': int, tbl': int, r': string)
    requires banner + (d + DecSigned(dev) + "\n") + (t + DecSigned(tbl) + "\n") + r ==
             banner + (d + DecSigned(dev') + "\n") + (t + DecSigned(tbl') + "\n") + r'
    ensures dev == dev' && tbl == tbl' && r == r'
  {
    hide DecSigned;
    var u, v := d + DecSigned(dev) + "\n", d + DecSigned(dev') + "\n";
    var p, q := t + DecSigned(tbl) + "\n", t + DecSigned(tbl') + "\n";
    ThreeParts(banner, u, p, r);
    ThreeParts(banner, v, q, r');
    DropPrefix(banner, u + (p + r), v + (q + r'));
    FieldUnique(d, dev, p + r, dev', q + r');
    FieldUnique(t, tbl, r, tbl', r');
  }

  lemma ThreeParts(a: string, b: string, c: string, d: string)
    ensures a + b + c + d == a + (b + (c + d))
  {
  }

  lemma HeaderUnique(dev: int, tbl: int, r: string, dev': int, tbl': int, r': string)
    requires Header(dev, tbl) + r == Header(dev', tbl') + r'
    ensures dev == dev' && tbl == tbl' && r == r'
  {
    TwoFieldsUnique("in dump FUNCTION\n", "device_id=", "flow_table=", dev, tbl, r, dev', tbl', r');
  }

  lemma TailStarts(xs: seq<Stored<ActionId>>, tbl: int)
    requires AllNameable(xs)
    ensures !StartsWith(ActionLines(xs) + Footer(tbl), 'T') && !StartsWith(Footer(tbl), 'A')
  {
    assert xs != [] ==> ActionLines(xs)[0] == 'A';
  }

  lemma {:induction false} SameShownSameLines(fs: seq<Stored<TupleId>>, gs: seq<Stored<TupleId>>)
    requires AllDetermined(fs) && AllDetermined(gs) && ShownTuples(fs) == ShownTuples(gs)
    ensures TupleLines(fs) == TupleLines(gs)
    decreases |fs|
  {
    if fs != [] {
      assert gs != [];
      assert Shown(fs[0]) == ShownTuples(fs)[0] == ShownTuples(gs)[0] == Shown(gs[0]);
      assert ShownTuples(fs[1..]) == ShownTuples(fs)[1..] == ShownTuples(gs)[1..] == ShownTuples(gs[1..]);
      SameShownSameLine(fs[0], gs[0]);
      SameShownSameLines(fs[1..], gs[1..]);
    }
  }

  lemma SameShownSameLine(f: Stored<TupleId>, g: Stored<TupleId>)
    requires Determined(f) && Determined(g) && Shown(f) == Shown(g)
    ensures TupleLine(f) == TupleLine(g)
  {
    var w := Width(f.id);
    assert w == 2 ==> f.bytes[0] == Shown(f).bytes[0] == g.bytes[0] && f.bytes[1] == Shown(f).bytes[1] == g.bytes[1];
  }

  lemma {:induction false} SameShownSameActions(xs: seq<Stored<ActionId>>, ys: seq<Stored<ActionId>>)
    requires AllNameable(xs) && AllNameable(ys) && ShownActions(xs) == ShownActions(ys)
    ensures ActionLines(xs) == ActionLines(ys)
    decreases |xs|
  {
    if xs != [] {
      assert ys != [];
      assert ShownAction(xs[0]) == ShownActions(xs)[0] == ShownActions(ys)[0] == ShownAction(ys[0]);
      assert ShownActions(xs[1..]) == ShownActions(xs)[1..] == ShownActions(ys)[1..] == ShownActions(ys[1..]);
      assert xs[0].bytes[0] == ShownAction(xs[0]).bytes[0] == ys[0].bytes[0];
      SameShownSameActions(xs[1..], ys[1..]);
    }
  }

  /** Two dumps are the same text exactly if device, table, every shown tuple, and every action
      id with its low byte are the same; the high byte of an action value is not shown. */
  lemma DumpUniqueIff(dev: int, tbl: int, fs: seq<Stored<TupleId>>, xs: seq<Stored<ActionId>>,
                      dev': int, tbl': int, gs: seq<Stored<TupleId>>, ys: seq<Stored<ActionId>>)
    requires AllDetermined(fs) && AllDetermined(gs) && AllNameable(xs) && AllNameable(ys)
    ensures DumpText(dev, tbl, fs, xs) == DumpText(dev', tbl', gs, ys) <==>
            dev == dev' && tbl == tbl' && ShownTuples(fs) == ShownTuples(gs) && ShownActions(xs) == ShownActions(ys)
  {
    TailStarts(xs, tbl);
    TailStarts(ys, tbl');
    hide Header, Footer, TupleLines, ActionLines;
    var x, y := ActionLines(xs) + Footer(tbl), ActionLines(ys) + Footer(tbl');
    ThreeParts(Header(dev, tbl), TupleLines(fs), ActionLines(xs), Footer(tbl));
    ThreeParts(Header(dev', tbl'), TupleLines(gs), ActionLines(ys), Footer(tbl'));
    if DumpText(dev, tbl, fs, xs) == DumpText(dev', tbl', gs, ys) {
      HeaderUnique(dev, tbl, TupleLines(fs) + x, dev', tbl', TupleLines(gs) + y);
      TupleLinesUnique(fs, x, gs, y);
      ActionLinesUnique(xs, Footer(tbl), ys, Footer(tbl'));
    }
    if ShownTuples(fs) == ShownTuples(gs) && ShownActions(xs) == ShownActions(ys) {
      SameShownSameLines(fs, gs);
      SameShownSameActions(xs, ys);
    }
  }
}
