/** The pieces of the C string library that the command parsers call, on strings without NUL. */
module CStrings {

  datatype Option<+T> = None | Some(value: T)

  /** The first n characters, or all of them when the string ends earlier. */
  function Take(s: string, n: nat): string {
    if n <= |s| then s[..n] else s
  }

  /** strncmp(s, key, n) == 0 */
  predicate StrncmpEq(s: string, key: string, n: nat) {
    Take(s, n) == Take(key, n)
  }

  /** Position of the first c in s, or |s|. */
  function IndexOf(s: string, c: char): (i: nat)
    ensures i <= |s| && c !in s[..i] && forall k :: 0 <= k < i ==> s[k] != c
    ensures i < |s| ==> s[i] == c
  {
    if s == [] || s[0] == c then 0
    else
      var i := 1 + IndexOf(s[1..], c);
      assert s[..i] == [s[0]] + s[1..][..i - 1];
      i
  }

  /** What follows the first '=': strstr(option, "=") + 1, or None where strstr returns NULL. */
  function ValueOf(option: string): Option<string> {
    var i := IndexOf(option, '=');
    if i == |option| then None else Some(option[i + 1..])
  }

  /** One strsep(&s, " "): the token, and where the pointer moves (None for NULL). */
  datatype Separated = Separated(token: string, rest: Option<string>)

  function Strsep(s: string): Separated {
    var i := IndexOf(s, ' ');
    if i == |s| then Separated(s, None) else Separated(s[..i], Some(s[i + 1..]))
  }

  /** Termination measure of the strsep loops: what is left of the line, counting its NUL. */
  function Remaining(command: Option<string>): nat {
    if command.None? then 0 else |command.value| + 1
  }

  /** Every token that repeated strsep calls still deliver. */
  function Tokens(command: Option<string>): seq<string>
    decreases Remaining(command)
  {
    match command
    case None => []
    case Some(s) => [Strsep(s).token] + Tokens(Strsep(s).rest)
  }

  predicate IsWord(t: string) {
    ' ' !in t
  }

  predicate AllWords(ts: seq<string>) {
    forall i :: 0 <= i < |ts| ==> IsWord(ts[i])
  }

  function Join(ts: seq<string>): string {
    if ts == [] then "" else if |ts| == 1 then ts[0] else ts[0] + " " + Join(ts[1..])
  }

  /** If the first c of two equal strings is marked, the parts around it are equal. */
  lemma CutUnique(c: char, a: string, b: string, a': string, b': string)
    requires c !in a && c !in a'
    requires a + [c] + b == a' + [c] + b'
    ensures a == a' && b == b'
  {
    var s := a + [c] + b;
    assert s[|a|] == c && s[|a'|] == c;
    assert s[..|a|] == a && s[..|a'|] == a';
    assert s[|a| + 1..] == b && s[|a'| + 1..] == b';
  }

  lemma IndexOfCut(c: char, a: string, b: string)
    requires c !in a
    ensures IndexOf(a + [c] + b, c) == |a|
  {
    var s := a + [c] + b;
    assert s[|a|] == c && s[..|a|] == a;
  }

  /** Cutting at the first c recovers exactly the two parts. */
  lemma CutIff(c: char, s: string, head: string, tail: string)
    requires c !in head
    ensures var i := IndexOf(s, c);
            s == head + [c] + tail <==> i < |s| && s[..i] == head && s[i + 1..] == tail
  {
    var i := IndexOf(s, c);
    if s == head + [c] + tail {
      IndexOfCut(c, head, tail);
      assert s[..|head|] == head && s[|head| + 1..] == tail;
    }
    assert i < |s| ==> s == s[..i] + [c] + s[i + 1..];
  }

  lemma IndexOfAbsent(c: char, s: string)
    requires c !in s
    ensures IndexOf(s, c) == |s|
  {
  }

  /** The value of "key=text" is the text. */
  lemma ValueOfOption(key: string, text: string)
    requires '=' !in key
    ensures ValueOf(key + "=" + text) == Some(text)
  {
    var s := key + "=" + text;
    IndexOfCut('=', key, text);
    assert s[|key| + 1..] == text;
  }

  function KeyValue(key: string, value: string): string {
    key + "=" + value
  }

  /** There is no value exactly if there is no '=', and otherwise it is all that follows the first. */
  lemma ValueOfIff(option: string, v: string)
    ensures ValueOf(option).None? <==> '=' !in option
    ensures ValueOf(option) == Some(v) <==> exists key :: '=' !in key && option == key + "=" + v
  {
    var i := IndexOf(option, '=');
    if ValueOf(option) == Some(v) {
      assert '=' !in option[..i] && option == option[..i] + "=" + v;
    }
    if key :| '=' !in key && option == key + "=" + v {
      ValueOfOption(key, v);
      assert KeyValue(key, v) == option;
    }
  }

  /** strncmp within the literal asks for a prefix; past its end it asks for the literal itself. */
  lemma StrncmpMeaning(s: string, literal: string, n: nat)
    ensures StrncmpEq(s, literal, n) <==> if n <= |literal| then literal[..n] <= s else s == literal
  {
  }

  lemma Associative(a: string, b: string, c: string)
    ensures a + b + c == a + (b + c)
  {
  }

  // ----- Tokeniser conservation

  lemma {:induction false} JoinAppend(a: seq<string>, b: seq<string>)
    requires a != [] && b != []
    ensures Join(a + b) == Join(a) + " " + Join(b)
  {
    if |a| == 1 {
      assert (a + b)[1..] == b;
    } else {
      JoinAppend(a[1..], b);
      assert (a + b)[1..] == a[1..] + b;
    }
  }

  lemma StrsepConserves(s: string)
    ensures IsWord(Strsep(s).token)
    ensures s == match Strsep(s).rest { case None => Strsep(s).token case Some(r) => Strsep(s).token + " " + r }
  {
  }

  /** Joining the tokens with single spaces gives the line back; no token holds a space. */
  lemma {:induction false} TokensConserve(s: string)
    ensures |Tokens(Some(s))| >= 1
    ensures Join(Tokens(Some(s))) == s
    ensures AllWords(Tokens(Some(s)))
    decreases |s|
  {
    StrsepConserves(s);
    var t, rest := Strsep(s).token, Strsep(s).rest;
    var more := Tokens(rest);
    assert Tokens(Some(s)) == [t] + more;
    if rest.Some? {
      TokensConserve(rest.value);
      JoinAppend([t], more);
    }
  }

  /** Tokenising undoes joining: the token list of a joined list is that list. */
  lemma {:induction false} TokensOfJoin(ts: seq<string>)
    requires ts != []
    requires AllWords(ts)
    ensures Tokens(Some(Join(ts))) == ts
  {
    if |ts| == 1 {
      IndexOfAbsent(' ', ts[0]);
      assert ts == [ts[0]];
    } else {
      var rest := Join(ts[1..]);
      IndexOfCut(' ', ts[0], rest);
      var s := Join(ts);
      assert s[..|ts[0]|] == ts[0] && s[|ts[0]| + 1..] == rest;
      TokensOfJoin(ts[1..]);
    }
  }

  /** Text without the characters that end a token or a line of a file. */
  predicate IsPlain(t: string) {
    ' ' !in t && '\n' !in t
  }

  predicate AllPlain(ts: seq<string>) {
    forall i :: 0 <= i < |ts| ==> IsPlain(ts[i])
  }

  lemma {:induction false} JoinOfPlain(ts: seq<string>)
    requires AllPlain(ts)
    ensures '\n' !in Join(ts)
  {
    if |ts| > 1 {
      JoinOfPlain(ts[1..]);
    }
  }

  lemma {:induction false} JoinLength(ts: seq<string>, n: nat)
    requires forall i :: 0 <= i < |ts| ==> |ts[i]| <= n
    ensures |Join(ts)| <= (n + 1) * |ts|
  {
    if |ts| > 1 {
      JoinLength(ts[1..], n);
      assert (n + 1) * |ts| == (n + 1) * (|ts| - 1) + n + 1;
    }
  }

  /** What may follow a line: nothing, or the newline that fgets leaves. */
  type LineEnd = t: string | t == "" || t == "\n"

  /** The tokens of a line that something follows, the newline of fgets say: it clings to the last. */
  function Ended(ts: seq<string>, tail: string): seq<string>
    requires ts != []
  {
    ts[..|ts| - 1] + [ts[|ts| - 1] + tail]
  }

  lemma JoinEnded(ts: seq<string>, tail: string)
    requires ts != []
    ensures Join(Ended(ts, tail)) == Join(ts) + tail
  {
    var front, t := ts[..|ts| - 1], ts[|ts| - 1];
    assert ts == front + [t];
    if front != [] {
      JoinAppend(front, [t]);
      JoinAppend(front, [t + tail]);
      Associative(Join(front) + " ", t, tail);
    }
  }

  /** Tokenising the joined words of a line, whatever but a space follows the last one. */
  lemma TokensOfEnded(ts: seq<string>, tail: string)
    requires ts != [] && AllWords(ts) && IsWord(tail)
    ensures Tokens(Some(Join(ts) + tail)) == Ended(ts, tail)
  {
    JoinEnded(ts, tail);
    TokensOfJoin(Ended(ts, tail));
  }

  lemma EndedAppend(a: seq<string>, b: seq<string>, tail: string)
    requires b != []
    ensures Ended(a + b, tail) == a + Ended(b, tail)
  {
  }

  /** A parser that stops after any number of tokens has consumed a prefix of the line. */
  lemma ConsumedIsPrefix(s: string, k: nat)
    requires k <= |Tokens(Some(s))|
    ensures Join(Tokens(Some(s))[..k]) <= s
    ensures k == |Tokens(Some(s))| ==> Join(Tokens(Some(s))[..k]) == s
  {
    TokensConserve(s);
    var ts := Tokens(Some(s));
    if k == |ts| {
      assert ts[..k] == ts;
    } else if k > 0 {
      JoinAppend(ts[..k], ts[k..]);
      assert ts == ts[..k] + ts[k..];
    }
  }
}
