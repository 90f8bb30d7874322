/** Numbers, octets and addresses: what the C library reads and what printf writes. */
module Numerals {
  import opened CStrings

  type Byte = b: int | 0 <= b < 256

  // ----- Digits

  predicate IsSpace(c: char) {
    c == ' ' || '\t' <= c <= '\r'
  }

  /** Value of a hexadecimal digit, 16 for any other character. */
  function DigitValue(c: char): (v: nat)
    ensures v <= 16
  {
    if '0' <= c <= '9' then c as int - '0' as int
    else if 'a' <= c <= 'f' then c as int - 'a' as int + 10
    else if 'A' <= c <= 'F' then c as int - 'A' as int + 10
    else 16
  }

  predicate IsDigit(c: char, base: nat) {
    DigitValue(c) < base
  }

  predicate AllDigits(s: string, base: nat) {
    forall i :: 0 <= i < |s| ==> IsDigit(s[i], base)
  }

  /** Lower-case digit, as printf %d and %x write it. */
  function DigitChar(v: nat): (c: char)
    requires v < 16
    ensures DigitValue(c) == v && c !in " :.=\n"
  {
    if v < 10 then ('0' as int + v) as char else ('a' as int + v - 10) as char
  }

  /** The digits of both cases and their values; no other character is a digit. */
  lemma DigitValues(c: char)
    ensures forall i :: 0 <= i < 16 && (c == "0123456789abcdef"[i] || c == "0123456789ABCDEF"[i]) ==> DigitValue(c) == i
    ensures c !in "0123456789abcdef" && c !in "0123456789ABCDEF" ==> DigitValue(c) == 16
    ensures forall i :: 0 <= i < 16 ==> DigitChar(i) == "0123456789abcdef"[i]
  {
    var lower, upper := "0123456789abcdef", "0123456789ABCDEF";
    if DigitValue(c) < 16 {
      assert c == lower[DigitValue(c)] || c == upper[DigitValue(c)];
    }
  }

  lemma SpacesAre(c: char)
    ensures IsSpace(c) <==> c in " \t\n\U{0b}\U{0c}\r"
  {
    assert " \t\n\U{0b}\U{0c}\r" == [' ', '\t', '\n', '\U{0b}', '\U{0c}', '\r'];
  }

  /** printf and strtol are used with two bases. */
  type Base = b: nat | b == 10 || b == 16 witness 10

  function Shift(base: Base, n: nat): nat {
    if base == 10 then 10 * n else 16 * n
  }

  function Quotient(base: Base, n: nat): nat {
    if base == 10 then n / 10 else n / 16
  }

  function Digit(base: Base, n: nat): nat {
    if base == 10 then n % 10 else n % 16
  }

  /** Positional value of a digit string. */
  function ValueIn(base: Base, ds: string): nat
    requires AllDigits(ds, base)
  {
    if ds == [] then 0 else Shift(base, ValueIn(base, ds[..|ds| - 1])) + DigitValue(ds[|ds| - 1])
  }

  /** n in the given base without leading zeros: "%u" and "%x". */
  function Numeral(base: Base, n: nat): (s: string)
    ensures s != [] && AllDigits(s, base)
  {
    if n < base then [DigitChar(n)] else Numeral(base, Quotient(base, n)) + [DigitChar(Digit(base, n))]
  }

  function Dec(n: nat): string { Numeral(10, n) }

  function Hex(n: nat): string { Numeral(16, n) }

  /** "%d" */
  function DecSigned(n: int): string {
    if n < 0 then "-" + Dec(-n) else Dec(n)
  }

  lemma {:induction false} NumeralValue(base: Base, n: nat)
    ensures ValueIn(base, Numeral(base, n)) == n
  {
    var s := Numeral(base, n);
    if n < base {
      assert s[..0] == [];
    } else {
      NumeralValue(base, Quotient(base, n));
      assert s[..|s| - 1] == Numeral(base, Quotient(base, n));
    }
  }

  /** Decimal and hexadecimal notation, most significant digit first. */
  lemma NotationLaws(q: nat, d: nat)
    ensures d < 10 ==> Dec(d) == ["0123456789"[d]] && (q > 0 ==> Dec(10 * q + d) == Dec(q) + ["0123456789"[d]])
    ensures d < 16 ==> Hex(d) == ["0123456789abcdef"[d]] && (q > 0 ==>
            Hex(16 * q + d) == Hex(q) + ["0123456789abcdef"[d]])
  {
    if d < 10 {
      assert (10 * q + d) / 10 == q && (10 * q + d) % 10 == d;
    }
    if d < 16 {
      assert (16 * q + d) / 16 == q && (16 * q + d) % 16 == d;
    }
  }

  lemma PositionalLaws(ds: string, c: char)
    ensures ValueIn(10, "") == 0 && ValueIn(16, "") == 0
    ensures AllDigits(ds + [c], 10) ==>
            AllDigits(ds, 10) && ValueIn(10, ds + [c]) == 10 * ValueIn(10, ds) + DigitValue(c)
    ensures AllDigits(ds + [c], 16) ==>
            AllDigits(ds, 16) && ValueIn(16, ds + [c]) == 16 * ValueIn(16, ds) + DigitValue(c)
  {
    var all := ds + [c];
    assert all[..|all| - 1] == ds;
    assert forall i :: 0 <= i < |ds| ==> all[i] == ds[i];
  }

  lemma NumeralInjective(base: Base, m: nat, n: nat)
    requires Numeral(base, m) == Numeral(base, n)
    ensures m == n
  {
    NumeralValue(base, m);
    NumeralValue(base, n);
  }

  lemma {:induction false} NumeralChars(base: Base, n: nat)
    ensures forall c :: c in " :.=\n" ==> c !in Numeral(base, n)
  {
    if n >= base {
      NumeralChars(base, Quotient(base, n));
    }
  }

  /** A number below 10 to the k has at most k digits, in either base. */
  lemma {:induction false} NumeralLength(base: Base, n: nat, k: nat)
    requires k > 0 && n < PowerOfTen(k)
    ensures |Numeral(base, n)| <= k
    decreases n
  {
    if n >= base {
      assert k > 1;
      NumeralLength(base, Quotient(base, n), k - 1);
    }
  }

  function PowerOfTen(k: nat): nat {
    if k == 0 then 1 else 10 * PowerOfTen(k - 1)
  }

  lemma OctetAndShortLengths(base: Base, n: nat)
    ensures n < 1000 ==> |Numeral(base, n)| <= 3
    ensures n < 100000 ==> |Numeral(base, n)| <= 5
  {
    assert PowerOfTen(3) == 1000 && PowerOfTen(5) == 100000;
    if n < 1000 {
      NumeralLength(base, n, 3);
    }
    if n < 100000 {
      NumeralLength(base, n, 5);
    }
  }

  lemma DecSignedLength(n: int)
    requires -0x8000 <= n < 0x10000
    ensures |DecSigned(n)| <= 6
  {
    OctetAndShortLengths(10, if n < 0 then -n else n);
    hide Numeral;
  }

  /** A lower-case digit string without a superfluous leading zero is the numeral of its value. */
  lemma {:induction false} NumeralOfValue(s: string)
    requires s != [] && AllDigits(s, 10) && (|s| == 1 || s[0] != '0')
    ensures Numeral(10, ValueIn(10, s)) == s
    ensures |s| > 1 ==> ValueIn(10, s) >= 10
  {
    var front, d := s[..|s| - 1], s[|s| - 1];
    assert s == front + [d];
    assert d == DigitChar(DigitValue(d));
    if front == [] {
      assert ValueIn(10, front) == 0;
    } else {
      NumeralOfValue(front);
      assert |front| == 1 ==> front[..0] == [] && DigitValue(front[0]) > 0;
      var q := ValueIn(10, front);
      assert ValueIn(10, s) == q * 10 + DigitValue(d);
      assert (q * 10 + DigitValue(d)) / 10 == q && (q * 10 + DigitValue(d)) % 10 == DigitValue(d);
    }
  }

  // ----- atoi and strtol

  function SkipSpaces(s: string): string {
    if s != [] && IsSpace(s[0]) then SkipSpaces(s[1..]) else s
  }

  /** The longest prefix of digits. */
  function LeadingDigits(base: Base, s: string): (ds: string)
    ensures AllDigits(ds, base)
  {
    if s == [] || !IsDigit(s[0], base) then [] else [s[0]] + LeadingDigits(base, s[1..])
  }

  /** An optional sign, then what the given reader makes of the rest. */
  function Signed(s: string, magnitude: string -> nat): int {
    if s != [] && s[0] == '-' then -(magnitude(s[1..]) as int)
    else if s != [] && s[0] == '+' then magnitude(s[1..])
    else magnitude(s)
  }

  function DecMagnitude(s: string): nat {
    ValueIn(10, LeadingDigits(10, s))
  }

  function HexMagnitude(s: string): nat {
    var t := if "0x" <= s || "0X" <= s then s[2..] else s;
    ValueIn(16, LeadingDigits(16, t))
  }

  function Atoi(s: string): int {
    Signed(SkipSpaces(s), DecMagnitude)
  }

  /** strtol(s, NULL, 16) */
  function Strtol16(s: string): int {
    Signed(SkipSpaces(s), HexMagnitude)
  }

  /** The conversion (short)atoi(value) of an option with a value. */
  function NumberOf(tok: string): int {
    match ValueOf(tok)
    case None => 0
    case Some(v) => Short(Atoi(v))
  }

  lemma {:induction false} LeadingDigitsStop(base: Base, ds: string, tail: string)
    requires AllDigits(ds, base)
    requires tail == [] || !IsDigit(tail[0], base)
    ensures LeadingDigits(base, ds + tail) == ds
  {
    if ds == [] {
      assert ds + tail == tail;
    } else {
      LeadingDigitsStop(base, ds[1..], tail);
      assert (ds + tail)[1..] == ds[1..] + tail;
    }
  }

  predicate AllSpaces(s: string) {
    forall i :: 0 <= i < |s| ==> IsSpace(s[i])
  }

  lemma {:induction false} SpacesSkipped(spaces: string, s: string)
    requires AllSpaces(spaces) && (s == [] || !IsSpace(s[0]))
    ensures SkipSpaces(spaces + s) == s
  {
    if spaces == [] {
      assert spaces + s == s;
    } else {
      SpacesSkipped(spaces[1..], s);
      assert (spaces + s)[1..] == spaces[1..] + s;
    }
  }

  /** atoi on every text: white space, an optional sign, digits, and anything else. */
  lemma AtoiMeaning(spaces: string, digits: string, tail: string)
    requires AllSpaces(spaces) && AllDigits(digits, 10) && (tail == [] || !IsDigit(tail[0], 10))
    ensures Atoi(spaces + ("-" + (digits + tail))) == -(ValueIn(10, digits) as int)
    ensures Atoi(spaces + ("+" + (digits + tail))) == ValueIn(10, digits)
    ensures digits != [] ==> Atoi(spaces + (digits + tail)) == ValueIn(10, digits)
    ensures digits == [] && (tail == [] || (!IsSpace(tail[0]) && tail[0] !in "+-")) ==>
            Atoi(spaces + (digits + tail)) == 0
  {
    var s := digits + tail;
    LeadingDigitsStop(10, digits, tail);
    SpacesSkipped(spaces, "-" + s);
    SpacesSkipped(spaces, "+" + s);
    assert ("-" + s)[1..] == s && ("+" + s)[1..] == s;
    assert digits != [] ==> IsDigit(s[0], 10);
    if s == [] || !IsSpace(s[0]) {
      SpacesSkipped(spaces, s);
    }
    assert ValueIn(10, "") == 0;
    hide LeadingDigits, ValueIn, SkipSpaces;
  }

  lemma MagnitudeOfNumeral(n: nat, tail: string)
    ensures (tail == [] || !IsDigit(tail[0], 10)) ==> DecMagnitude(Dec(n) + tail) == n
    ensures IsDigit((Dec(n) + tail)[0], 10)
  {
    NumeralValue(10, n);
    if tail == [] || !IsDigit(tail[0], 10) {
      LeadingDigitsStop(10, Dec(n), tail);
    }
    assert IsDigit(Dec(n)[0], 10);
  }

  /** atoi reads back what %d wrote, whatever non-digit follows (a newline from fgets, say). */
  lemma AtoiOfDec(n: int, tail: string)
    requires tail == [] || !IsDigit(tail[0], 10)
    ensures Atoi(DecSigned(n) + tail) == n
  {
    hide Dec, DecMagnitude;
    var m := if n < 0 then -n else n;
    MagnitudeOfNumeral(m, tail);
    var s := DecSigned(n) + tail;
    if n < 0 {
      assert s[1..] == Dec(m) + tail;
    } else {
      assert s == Dec(m) + tail;
    }
  }

  lemma AtoiOfWholeDec(n: int)
    ensures Atoi(DecSigned(n)) == n
  {
    AtoiOfDec(n, "");
    hide DecSigned, Atoi;
    assert DecSigned(n) + "" == DecSigned(n);
  }

  predicate EndsHex(tail: string) {
    tail == [] || (!IsDigit(tail[0], 16) && tail[0] != 'x' && tail[0] != 'X')
  }

  /** A numeral is not mistaken for the prefix 0x. */
  lemma NoHexPrefix(h: string, tail: string)
    requires h != [] && AllDigits(h, 16) && EndsHex(tail)
    ensures !("0x" <= h + tail) && !("0X" <= h + tail)
  {
    var s := h + tail;
    assert |h| > 1 ==> IsDigit(h[1], 16);
    assert |s| > 1 ==> s[1] == if |h| > 1 then h[1] else tail[0];
    assert |s| > 1 ==> s[1] != 'x' && s[1] != 'X';
  }

  lemma HexMagnitudes(n: nat, tail: string)
    requires EndsHex(tail)
    ensures HexMagnitude(Hex(n) + tail) == n && HexMagnitude("0x" + (Hex(n) + tail)) == n
  {
    LeadingDigitsStop(16, Hex(n), tail);
    NumeralValue(16, n);
    NoHexPrefix(Hex(n), tail);
    hide Hex, EndsHex, LeadingDigits;
    var p := "0x" + (Hex(n) + tail);
    assert p[2..] == Hex(n) + tail && "0x" == p[..2];
  }

  /** strtol with base 16 on every text: white space, an optional sign, an optional 0x, digits of
      either case, and anything else. */
  lemma StrtolMeaning(spaces: string, digits: string, tail: string)
    requires AllSpaces(spaces) && digits != [] && AllDigits(digits, 16) && EndsHex(tail)
    ensures Strtol16(spaces + (digits + tail)) == ValueIn(16, digits)
    ensures Strtol16(spaces + ("-" + (digits + tail))) == -(ValueIn(16, digits) as int)
    ensures Strtol16(spaces + ("+" + (digits + tail))) == ValueIn(16, digits)
    ensures Strtol16(spaces + ("0x" + (digits + tail))) == ValueIn(16, digits)
    ensures Strtol16(spaces + ("0X" + (digits + tail))) == ValueIn(16, digits)
  {
    hide HexMagnitude, ValueIn, EndsHex, SkipSpaces, AllSpaces, Strtol16;
    var s := digits + tail;
    HexDigits(digits, tail);
    assert IsDigit(s[0], 16);
    StrtolForms(spaces, s);
    StrtolForms(spaces, "0x" + s);
    StrtolForms(spaces, "0X" + s);
  }

  lemma StrtolForms(spaces: string, s: string)
    requires AllSpaces(spaces) && s != [] && IsDigit(s[0], 16)
    ensures Strtol16(spaces + s) == HexMagnitude(s)
    ensures Strtol16(spaces + ("-" + s)) == -(HexMagnitude(s) as int)
    ensures Strtol16(spaces + ("+" + s)) == HexMagnitude(s)
  {
    SpacesSkipped(spaces, s);
    SpacesSkipped(spaces, "-" + s);
    SpacesSkipped(spaces, "+" + s);
    assert ("-" + s)[1..] == s && ("+" + s)[1..] == s;
    hide HexMagnitude, SkipSpaces;
  }

  lemma HexDigits(digits: string, tail: string)
    requires digits != [] && AllDigits(digits, 16) && EndsHex(tail)
    ensures HexMagnitude(digits + tail) == ValueIn(16, digits)
    ensures HexMagnitude("0x" + (digits + tail)) == ValueIn(16, digits)
    ensures HexMagnitude("0X" + (digits + tail)) == ValueIn(16, digits)
  {
    var s := digits + tail;
    LeadingDigitsStop(16, digits, tail);
    NoHexPrefix(digits, tail);
    assert ("0x" + s)[2..] == s && ("0x" + s)[..2] == "0x" && ("0X" + s)[2..] == s && ("0X" + s)[..2] == "0X";
    hide LeadingDigits, ValueIn, EndsHex;
  }

  /** strtol reads back what %x wrote, with or without the 0x prefix. */
  lemma StrtolOfHex(n: nat, tail: string)
    requires EndsHex(tail)
    ensures Strtol16(Hex(n) + tail) == n
    ensures Strtol16("0x" + (Hex(n) + tail)) == n
  {
    HexMagnitudes(n, tail);
    var s, p := Hex(n) + tail, "0x" + (Hex(n) + tail);
    assert IsDigit(Hex(n)[0], 16) && s[0] == Hex(n)[0] && p[0] == '0';
    hide HexMagnitude, Hex, EndsHex;
  }

  lemma StrtolOfWholeHex(n: nat)
    ensures Strtol16("0x" + Hex(n)) == n
  {
    StrtolOfHex(n, "");
    hide Strtol16, Hex;
    assert Hex(n) + "" == Hex(n);
  }

  // ----- 16-bit storage

  /** The conversion (short)x. */
  function Short(x: int): (r: int)
    ensures -0x8000 <= r < 0x8000
  {
    var m := x % 0x10000;
    if m < 0x8000 then m else m - 0x10000
  }

  /** The two bytes of *(short *)p = x, least significant first. */
  function ShortBytes(x: int): (bs: seq<Byte>)
    ensures |bs| == 2
  {
    [x % 256, x / 256 % 256]
  }

  /** *(unsigned short *)p */
  function UShort(bs: seq<Byte>): (r: int)
    requires |bs| >= 2
    ensures 0 <= r < 0x10000
  {
    var lo: int, hi: int := bs[0], bs[1];
    lo + 256 * hi
  }

  lemma ShortInRange(n: int)
    requires -0x8000 <= n < 0x8000
    ensures Short(n) == n
  {
  }

  lemma DecSignedIsPlain(n: int)
    ensures IsPlain(DecSigned(n))
  {
    NumeralChars(10, if n < 0 then -n else n);
    hide Numeral;
  }

  /** A number option that was printed, and perhaps ends a line of a file, gives the number back. */
  lemma NumberOfText(key: string, n: int, tail: string)
    requires '=' !in key && -0x8000 <= n < 0x8000
    requires tail == [] || !IsDigit(tail[0], 10)
    ensures ValueOf(KeyValue(key, DecSigned(n)) + tail).Some?
    ensures NumberOf(KeyValue(key, DecSigned(n)) + tail) == n
  {
    hide DecSigned, Atoi, Short, IsDigit, ValueOf;
    AtoiOfDec(n, tail);
    ShortInRange(n);
    ValueOfOption(key, DecSigned(n) + tail);
    assert KeyValue(key, DecSigned(n)) + tail == key + "=" + (DecSigned(n) + tail);
  }

  /** Narrow to short, store, read unsigned: reduction modulo 65536 for every integer. */
  lemma StoreShortReadUnsigned(n: int)
    ensures UShort(ShortBytes(Short(n))) == n % 0x10000
  {
    var x := Short(n);
    assert x % 0x10000 == n % 0x10000;
    assert x / 256 % 256 * 256 + x % 256 == x % 0x10000;
  }

  lemma ModuloShift(y: int, k: int)
    ensures (y + 256 * k) % 256 == y % 256 && (y + 256 * k) / 256 == y / 256 + k
  {
    var q, r := y / 256, y % 256;
    assert y == 256 * q + r;
    assert y + 256 * k == 256 * (q + k) + r;
  }

  /** The first stored byte is the value modulo 256. */
  lemma StoredBytes(n: int)
    ensures ShortBytes(Short(n)) == [n % 256, n / 256 % 256]
  {
    var x := Short(n);
    var k := n / 0x10000 + if n % 0x10000 < 0x8000 then 0 else 1;
    assert n == x + 256 * (256 * k);
    ModuloShift(x, 256 * k);
    ModuloShift(x / 256, k);
  }

  lemma ShortBytesOfUShort(bs: seq<Byte>)
    requires |bs| == 2
    ensures ShortBytes(Short(UShort(bs))) == bs
  {
    StoreShortReadUnsigned(UShort(bs));
    var cs := ShortBytes(Short(UShort(bs)));
    assert UShort(cs) == UShort(bs);
    assert cs[0] == bs[0] && cs[1] == bs[1];
  }

  /** A byte as a signed char, and a char stored back as an unsigned byte. */
  function SignedChar(b: Byte): int {
    if b < 128 then b else b as int - 256
  }

  function UnsignedByte(c: int): Byte {
    c % 256
  }

  // ----- Ethernet addresses

  /** ether_aton from octet number cnt on: one or two hex digits each, ':' between octets;
      after two digits of the last octet anything may follow, after one only white space. */
  function EtherOctets(s: string, cnt: nat): (r: Option<seq<Byte>>)
    requires cnt <= 5
    ensures r.Some? ==> |r.value| == 6 - cnt
    decreases 5 - cnt
  {
    if s == [] || !IsDigit(s[0], 16) then None
    else
      var one := if cnt < 5 then |s| >= 2 && s[1] == ':' else |s| < 2 || IsSpace(s[1]);
      if !one && (|s| < 2 || !IsDigit(s[1], 16)) then None
      else
        var octet: Byte := if one then DigitValue(s[0]) else DigitValue(s[0]) * 16 + DigitValue(s[1]);
        var used := if one then 1 else 2;
        if cnt == 5 then Some([octet])
        else if |s| <= used || s[used] != ':' then None
        else
          match EtherOctets(s[used + 1..], cnt + 1)
          case None => None
          case Some(rest) => Some([octet] + rest)
  }

  function EtherAton(s: string): (r: Option<seq<Byte>>)
    ensures r.Some? ==> |r.value| == 6
  {
    EtherOctets(s, 0)
  }

  /** Numerals of the octets separated by c: "%x:%x:..." with base 16, "%d.%d..." with base 10. */
  function Separate(base: Base, c: char, bs: seq<Byte>): string
    requires bs != []
  {
    if |bs| == 1 then Numeral(base, bs[0]) else Numeral(base, bs[0]) + [c] + Separate(base, c, bs[1..])
  }

  function MacText(bs: seq<Byte>): string
    requires bs != []
  {
    Separate(16, ':', bs)
  }

  function QuadText(bs: seq<Byte>): string
    requires bs != []
  {
    Separate(10, '.', bs)
  }

  lemma {:induction false} SeparateLength(base: Base, c: char, bs: seq<Byte>)
    requires bs != []
    ensures |Separate(base, c, bs)| <= 4 * |bs| - 1
  {
    OctetAndShortLengths(base, bs[0]);
    hide Numeral;
    if |bs| > 1 {
      SeparateLength(base, c, bs[1..]);
    }
  }

  /** The text of an octet list determines the list. */
  lemma {:induction false} SeparateInjective(base: Base, c: char, a: seq<Byte>, b: seq<Byte>)
    requires c in ":." && |a| == |b| && a != []
    requires Separate(base, c, a) == Separate(base, c, b)
    ensures a == b
  {
    if |a| == 1 {
      NumeralInjective(base, a[0], b[0]);
    } else {
      NumeralChars(base, a[0]);
      NumeralChars(base, b[0]);
      CutUnique(c, Numeral(base, a[0]), Separate(base, c, a[1..]), Numeral(base, b[0]), Separate(base, c, b[1..]));
      NumeralInjective(base, a[0], b[0]);
      SeparateInjective(base, c, a[1..], b[1..]);
    }
  }

  lemma SeparateCons(base: Base, sep: char, b: Byte, more: seq<Byte>)
    ensures Separate(base, sep, [b]) == Numeral(base, b)
    ensures more != [] ==> Separate(base, sep, [b] + more) == Numeral(base, b) + [sep] + Separate(base, sep, more)
  {
    hide Numeral;
    assert ([b] + more)[1..] == more;
  }

  /** Octets are written in order. */
  lemma QuadIs(a: Byte, b: Byte, c: Byte, d: Byte)
    ensures QuadText([a, b, c, d]) == Dec(a) + "." + Dec(b) + "." + Dec(c) + "." + Dec(d)
  {
    hide Numeral, Separate;
    SeparateCons(10, '.', a, [b, c, d]);
    SeparateCons(10, '.', b, [c, d]);
    SeparateCons(10, '.', c, [d]);
    SeparateCons(10, '.', d, []);
    assert [a] + [b, c, d] == [a, b, c, d] && [b] + [c, d] == [b, c, d] && [c] + [d] == [c, d];
  }

  lemma MacIs(a: Byte, b: Byte, c: Byte, d: Byte, e: Byte, f: Byte)
    ensures MacText([a, b, c, d, e, f]) ==
            Hex(a) + ":" + Hex(b) + ":" + Hex(c) + ":" + Hex(d) + ":" + Hex(e) + ":" + Hex(f)
  {
    hide Numeral, Separate;
    SeparateCons(16, ':', a, [b, c, d, e, f]);
    SeparateCons(16, ':', b, [c, d, e, f]);
    SeparateCons(16, ':', c, [d, e, f]);
    SeparateCons(16, ':', d, [e, f]);
    SeparateCons(16, ':', e, [f]);
    SeparateCons(16, ':', f, []);
    assert [a] + [b, c, d, e, f] == [a, b, c, d, e, f] && [b] + [c, d, e, f] == [b, c, d, e, f];
    assert [c] + [d, e, f] == [c, d, e, f] && [d] + [e, f] == [d, e, f] && [e] + [f] == [e, f];
  }

  lemma HexOctet(b: Byte)
    ensures Hex(b) == if b < 16 then [DigitChar(b)] else [DigitChar(b / 16), DigitChar(b % 16)]
  {
    assert b >= 16 ==> Hex(b / 16) == [DigitChar(b / 16)];
  }

  /** One or two hexadecimal digits of either case, and their value. */
  predicate IsGroup(h: string, octet: Byte) {
    && 1 <= |h| <= 2 && AllDigits(h, 16)
    && octet == if |h| == 1 then DigitValue(h[0]) else DigitValue(h[0]) * 16 + DigitValue(h[1])
  }

  /** ether_aton takes one or two digits and a colon off the text. */
  lemma EtherOctetTaken(h: string, rest: string, cnt: nat, octet: Byte)
    requires cnt < 5 && IsGroup(h, octet)
    ensures EtherOctets(h + ":" + rest, cnt) ==
            match EtherOctets(rest, cnt + 1)
            case None => None
            case Some(more) => Some([octet] + more)
  {
    if |h| == 1 {
      OneDigitOctet(h[0], rest, cnt);
      assert h == [h[0]];
    } else {
      TwoDigitOctet(h[0], h[1], rest, cnt);
      assert h == [h[0], h[1]];
    }
    hide EtherOctets;
  }

  lemma OneDigitOctet(c: char, rest: string, cnt: nat)
    requires cnt < 5 && IsDigit(c, 16)
    ensures EtherOctets([c] + ":" + rest, cnt) ==
            match EtherOctets(rest, cnt + 1)
            case None => None
            case Some(more) => Some([DigitValue(c)] + more)
  {
    var s := [c] + ":" + rest;
    assert s[0] == c && s[1] == ':' && s[2..] == rest;
    hide DigitValue;
  }

  lemma TwoDigitOctet(c: char, d: char, rest: string, cnt: nat)
    requires cnt < 5 && IsDigit(c, 16) && IsDigit(d, 16)
    ensures EtherOctets([c, d] + ":" + rest, cnt) ==
            match EtherOctets(rest, cnt + 1)
            case None => None
            case Some(more) => Some([DigitValue(c) * 16 + DigitValue(d)] + more)
  {
    var s := [c, d] + ":" + rest;
    assert d != ':';
    assert s[0] == c && s[1] == d && s[2] == ':' && s[3..] == rest;
    hide DigitValue;
  }

  lemma {:induction false} EtherOctetsOfText(bs: seq<Byte>)
    requires 1 <= |bs| <= 6
    ensures EtherOctets(MacText(bs), 6 - |bs|) == Some(bs)
  {
    hide EtherOctets, Numeral;
    if |bs| == 1 {
      LastEtherOctet(bs[0]);
      assert bs == [bs[0]];
    } else {
      HexOctet(bs[0]);
      EtherOctetTaken(Hex(bs[0]), MacText(bs[1..]), 6 - |bs|, bs[0]);
      EtherOctetsOfText(bs[1..]);
      assert bs == [bs[0]] + bs[1..];
    }
  }

  lemma LastEtherOctet(b: Byte)
    ensures EtherOctets(Hex(b), 5) == Some([b])
  {
    HexOctet(b);
  }

  /** ether_aton reads back any six octets that %x:%x:%x:%x:%x:%x wrote. */
  lemma EtherAtonOfText(bs: seq<Byte>)
    requires |bs| == 6
    ensures EtherAton(MacText(bs)) == Some(bs)
  {
    EtherOctetsOfText(bs);
  }

  predicate AreGroups(parts: seq<string>, bs: seq<Byte>) {
    |parts| == |bs| && forall i :: 0 <= i < |parts| ==> IsGroup(parts[i], bs[i])
  }

  /** After two digits anything may follow an address, after one digit only white space. */
  predicate MayFollow(h: string, tail: string) {
    |h| == 2 || tail == [] || IsSpace(tail[0])
  }

  /** The groups with colons between them, and what follows. */
  function ColonText(parts: seq<string>, tail: string): string
    requires parts != []
  {
    if |parts| == 1 then parts[0] + tail else parts[0] + ":" + ColonText(parts[1..], tail)
  }

  ghost predicate IsEtherText(s: string, bs: seq<Byte>)
    requires bs != []
  {
    exists parts: seq<string>, tail: string ::
      AreGroups(parts, bs) && MayFollow(parts[|parts| - 1], tail) && s == ColonText(parts, tail)
  }

  lemma LastGroupTaken(h: string, b: Byte, tail: string)
    requires IsGroup(h, b) && MayFollow(h, tail)
    ensures EtherOctets(h + tail, 5) == Some([b])
  {
    var s := h + tail;
    assert s[0] == h[0] && (|s| > 1 ==> s[1] == if |h| == 2 then h[1] else tail[0]);
  }

  lemma {:induction false} EtherTextTaken(parts: seq<string>, bs: seq<Byte>, tail: string)
    requires 1 <= |bs| <= 6 && AreGroups(parts, bs) && MayFollow(parts[|parts| - 1], tail)
    ensures EtherOctets(ColonText(parts, tail), 6 - |bs|) == Some(bs)
    decreases |bs|
  {
    hide EtherOctets, MayFollow, IsGroup;
    if |bs| == 1 {
      LastGroupTaken(parts[0], bs[0], tail);
      assert bs == [bs[0]];
    } else {
      EtherTextTaken(parts[1..], bs[1..], tail);
      EtherOctetTaken(parts[0], ColonText(parts[1..], tail), 6 - |bs|, bs[0]);
      assert bs == [bs[0]] + bs[1..];
    }
  }

  /** The first group of a text that ether_aton takes. */
  lemma FirstGroup(s: string, bs: seq<Byte>) returns (h: string, rest: string)
    requires 1 <= |bs| <= 6 && EtherOctets(s, 6 - |bs|) == Some(bs)
    ensures IsGroup(h, bs[0])
    ensures if |bs| == 1 then s == h + rest && MayFollow(h, rest)
            else s == h + ":" + rest && EtherOctets(rest, 6 - |bs| + 1) == Some(bs[1..])
  {
    var one := if |bs| > 1 then |s| >= 2 && s[1] == ':' else |s| < 2 || IsSpace(s[1]);
    var used := if one then 1 else 2;
    h := s[..used];
    if |bs| == 1 {
      rest := s[used..];
    } else {
      rest := s[used + 1..];
      var more := EtherOctets(rest, 6 - |bs| + 1);
      assert bs[1..] == more.value;
    }
  }

  lemma {:induction false} EtherParts(s: string, bs: seq<Byte>) returns (parts: seq<string>, tail: string)
    requires 1 <= |bs| <= 6 && EtherOctets(s, 6 - |bs|) == Some(bs)
    ensures AreGroups(parts, bs) && MayFollow(parts[|parts| - 1], tail) && s == ColonText(parts, tail)
    decreases |bs|
  {
    hide EtherOctets, MayFollow, IsGroup;
    var h, rest := FirstGroup(s, bs);
    if |bs| == 1 {
      parts, tail := [h], rest;
    } else {
      var more, end := EtherParts(rest, bs[1..]);
      parts, tail := [h] + more, end;
      assert parts[1..] == more;
    }
  }

  /** ether_aton takes exactly six groups with colons between them, and gives their values. */
  lemma EtherAtonIff(s: string, bs: seq<Byte>)
    requires |bs| == 6
    ensures EtherAton(s) == Some(bs) <==> IsEtherText(s, bs)
  {
    if EtherAton(s) == Some(bs) {
      var parts, tail := EtherParts(s, bs);
    }
    if IsEtherText(s, bs) {
      var parts: seq<string>, tail: string :|
        AreGroups(parts, bs) && MayFollow(parts[|parts| - 1], tail) && s == ColonText(parts, tail);
      EtherTextTaken(parts, bs, tail);
    }
  }

  // ----- IPv4 addresses

  /** One part of a dotted quad as inet_pton takes it: 0..255 without leading zeros. */
  function OctetOf(s: string): Option<Byte> {
    if s == [] || !AllDigits(s, 10) || (|s| > 1 && s[0] == '0') || ValueIn(10, s) > 255 then None
    else Some(ValueIn(10, s))
  }

  function PtonOctets(s: string, cnt: nat): (r: Option<seq<Byte>>)
    requires 1 <= cnt
    ensures r.Some? ==> |r.value| == cnt
  {
    if cnt == 1 then
      match OctetOf(s)
      case None => None
      case Some(b) => Some([b])
    else
      var i := IndexOf(s, '.');
      if i == |s| then None
      else
        match (OctetOf(s[..i]), PtonOctets(s[i + 1..], cnt - 1))
        case (Some(b), Some(rest)) => Some([b] + rest)
        case _ => None
  }

  /** inet_pton(AF_INET, s, p): the four octets written, None where p is left alone. */
  function InetPton(s: string): (r: Option<seq<Byte>>)
    ensures r.Some? ==> |r.value| == 4
  {
    PtonOctets(s, 4)
  }

  lemma {:induction false} NoLeadingZero(n: nat)
    ensures Dec(n)[0] == '0' ==> n == 0
  {
    if n >= 10 {
      NoLeadingZero(n / 10);
    }
  }

  lemma OctetOfNumeral(s: string, b: Byte)
    ensures OctetOf(s) == Some(b) <==> s == Dec(b)
  {
    NumeralValue(10, b);
    NoLeadingZero(b);
    if OctetOf(s) == Some(b) {
      NumeralOfValue(s);
    }
  }

  lemma PtonOctetsStep(s: string, bs: seq<Byte>)
    requires |bs| > 1
    ensures var i := IndexOf(s, '.');
            PtonOctets(s, |bs|) == Some(bs) <==>
            && i < |s| && OctetOf(s[..i]) == Some(bs[0])
            && PtonOctets(s[i + 1..], |bs| - 1) == Some(bs[1..])
  {
    hide IndexOf, OctetOf;
    assert bs == [bs[0]] + bs[1..];
  }

  lemma SeparateStep(base: Base, c: char, s: string, bs: seq<Byte>)
    requires |bs| > 1 && c in ":."
    ensures var i := IndexOf(s, c);
            s == Separate(base, c, bs) <==>
            i < |s| && s[..i] == Numeral(base, bs[0]) && s[i + 1..] == Separate(base, c, bs[1..])
  {
    NumeralChars(base, bs[0]);
    CutIff(c, s, Numeral(base, bs[0]), Separate(base, c, bs[1..]));
  }

  lemma {:induction false} PtonOctetsIff(s: string, bs: seq<Byte>)
    requires bs != []
    ensures PtonOctets(s, |bs|) == Some(bs) <==> s == QuadText(bs)
  {
    if |bs| == 1 {
      assert bs == [bs[0]];
      OctetOfNumeral(s, bs[0]);
    } else {
      var i := IndexOf(s, '.');
      PtonOctetsStep(s, bs);
      SeparateStep(10, '.', s, bs);
      if i < |s| {
        OctetOfNumeral(s[..i], bs[0]);
        PtonOctetsIff(s[i + 1..], bs[1..]);
      }
    }
  }

  /** inet_pton accepts exactly the canonical dotted quads, and reads each one back. */
  lemma InetPtonIff(s: string, bs: seq<Byte>)
    requires |bs| == 4
    ensures InetPton(s) == Some(bs) <==> s == QuadText(bs)
  {
    PtonOctetsIff(s, bs);
  }
}
