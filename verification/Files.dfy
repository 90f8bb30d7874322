/** Command files, and the pieces in which fgets(buf, 4096, fp) hands them out. */
module Files {
  import opened CStrings

  type FileStore = map<string, string>

  /** What a function makes of every element, one after the other. */
  function FlatMap<T, U>(f: T -> seq<U>, xs: seq<T>): seq<U> {
    if xs == [] then [] else f(xs[0]) + FlatMap(f, xs[1..])
  }

  lemma {:induction false} FlatMapAppend<T, U>(f: T -> seq<U>, a: seq<T>, b: seq<T>)
    ensures FlatMap(f, a + b) == FlatMap(f, a) + FlatMap(f, b)
    ensures |b| == 1 ==> FlatMap(f, b) == f(b[0])
  {
    if a == [] {
      assert a + b == b;
    } else {
      FlatMapAppend(f, a[1..], b);
      assert (a + b)[1..] == a[1..] + b;
    }
  }

  /** A command to load a file: "load", any one character, and the file name, as far as it reaches. */
  function LoadLine(c: char, name: string): string {
    "load" + [c] + name
  }

  const BUFFER := 4096

  /** Length of what one fgets call reads: up to and including a newline, at most BUFFER - 1. */
  function PieceLength(s: string): (n: nat)
    ensures n <= |s| && (s != [] ==> n > 0)
  {
    var i := IndexOf(s, '\n');
    var line := if i < |s| then i + 1 else |s|;
    if line < BUFFER then line else BUFFER - 1
  }

  function Fgets(s: string): string {
    s[..PieceLength(s)]
  }

  /** The buffers that a loop over fgets sees. */
  function Pieces(s: string): seq<string> {
    if s == [] then [] else [Fgets(s)] + Pieces(s[PieceLength(s)..])
  }

  /** fgets(buf, 4096, fp), exactly: the text up to and including the first newline, at most 4095
      characters, and less only where a newline or the end of the file is. */
  lemma FgetsMeaning(s: string)
    requires s != []
    ensures var p := Fgets(s);
            && p <= s && 1 <= |p| <= 4095 && '\n' !in p[..|p| - 1]
            && (|p| < 4095 ==> p[|p| - 1] == '\n' || p == s)
  {
    var i := IndexOf(s, '\n');
    assert i < |s| ==> s[i] == '\n';
    assert '\n' !in s[..i];
  }

  function Concat(parts: seq<string>): string {
    if parts == [] then "" else parts[0] + Concat(parts[1..])
  }

  /** No character of a file is lost, doubled or moved. */
  lemma {:induction false} PiecesConserve(s: string)
    ensures Concat(Pieces(s)) == s
    decreases |s|
  {
    hide Fgets, PieceLength;
    if s != [] {
      SplitPiece(s);
      PiecesConserve(s[PieceLength(s)..]);
    }
  }

  lemma SplitPiece(s: string)
    requires s != []
    ensures s == Fgets(s) + s[PieceLength(s)..]
  {
  }

  /** One round of a loop over fgets: the buffers read, then the buffers left, stay the same list. */
  lemma NextPiece(done: seq<string>, fp: string, all: seq<string>)
    requires done + Pieces(fp) == all
    ensures if fp == [] then done == all
            else && done + ([Fgets(fp)] + Pieces(fp[PieceLength(fp)..])) == all
                 && done + [Fgets(fp)] + Pieces(fp[PieceLength(fp)..]) == all
  {
  }

  /** A buffer that fgets did not end because the file ended. */
  predicate Complete(piece: string) {
    piece != [] && (piece[|piece| - 1] == '\n' || |piece| == BUFFER - 1)
  }

  /** The file is empty, or more text after it would not prolong its last buffer. */
  predicate Closed(s: string) {
    s == [] || Complete(Pieces(s)[|Pieces(s)| - 1])
  }

  lemma CompletePiece(a: string, b: string)
    requires a != [] && Complete(Fgets(a))
    ensures PieceLength(a + b) == PieceLength(a)
    ensures (a + b)[PieceLength(a)..] == a[PieceLength(a)..] + b
    ensures Fgets(a + b) == Fgets(a)
  {
    var i, j := IndexOf(a, '\n'), IndexOf(a + b, '\n');
    assert forall k :: 0 <= k < |a| ==> (a + b)[k] == a[k];
    assert i < |a| ==> j == i;
    assert i == |a| ==> j >= |a|;
  }

  lemma IncompletePiece(a: string, b: string)
    requires a != [] && b != [] && !Complete(Fgets(a))
    ensures Fgets(a) == a && |Fgets(a + b)| > |a|
  {
    var i, j := IndexOf(a, '\n'), IndexOf(a + b, '\n');
    assert a[..PieceLength(a)] == Fgets(a);
    assert i == |a|;
    assert forall k :: 0 <= k < |a| ==> (a + b)[k] == a[k];
    assert j >= |a|;
  }

  /** Reading two files one after the other is reading their concatenation, exactly if the first
      one is closed (a final newline is enough) or the second one is empty. */
  lemma {:induction false} PiecesOfConcatenationIff(a: string, b: string)
    ensures Pieces(a + b) == Pieces(a) + Pieces(b) <==> Closed(a) || b == []
    decreases |a|
  {
    if a == [] {
      assert a + b == b;
    } else if b == [] {
      assert a + b == a;
    } else {
      var rest := a[PieceLength(a)..];
      if Complete(Fgets(a)) {
        CompletePiece(a, b);
        PiecesOfConcatenationIff(rest, b);
        ClosedStep(a);
        SamePieces(Fgets(a), Pieces(rest + b), Pieces(rest), Pieces(b));
      } else {
        IncompletePiece(a, b);
        assert Pieces(a) == [a];
        assert Pieces(a + b)[0] != (Pieces(a) + Pieces(b))[0];
      }
    }
  }

  lemma ClosedStep(a: string)
    requires a != [] && Complete(Fgets(a))
    ensures Closed(a) <==> Closed(a[PieceLength(a)..])
  {
  }

  lemma SamePieces(h: string, x: seq<string>, y: seq<string>, z: seq<string>)
    ensures [h] + x == [h] + y + z <==> x == y + z
  {
    assert ([h] + x)[1..] == x && ([h] + y + z)[1..] == y + z;
  }

  // ----- Files written line by line

  function LinesText(lines: seq<string>): string {
    if lines == [] then "" else lines[0] + "\n" + LinesText(lines[1..])
  }

  /** The lines as fgets hands them out. */
  function Terminated(lines: seq<string>): seq<string> {
    if lines == [] then [] else [lines[0] + "\n"] + Terminated(lines[1..])
  }

  /** A line that, with its newline, fits the buffer. */
  predicate FitsBuffer(line: string) {
    '\n' !in line && |line| < BUFFER - 1
  }

  lemma FirstLine(line: string, more: string)
    requires FitsBuffer(line)
    ensures Pieces(line + "\n" + more) == [line + "\n"] + Pieces(more)
  {
    var s := line + "\n" + more;
    IndexOfCut('\n', line, more);
    assert s[..|line| + 1] == line + "\n" && s[|line| + 1..] == more;
  }

  /** A file of lines that fit the buffer is read line by line. */
  lemma {:induction false} PiecesOfLines(lines: seq<string>)
    requires forall i :: 0 <= i < |lines| ==> FitsBuffer(lines[i])
    ensures Pieces(LinesText(lines)) == Terminated(lines)
  {
    hide Pieces, FitsBuffer;
    if lines == [] {
      assert Pieces("") == [] by { NoPieces(); }
    } else {
      FirstLine(lines[0], LinesText(lines[1..]));
      PiecesOfLines(lines[1..]);
    }
  }

  lemma NoPieces()
    ensures Pieces("") == []
  {
  }

  lemma {:induction false} NewlineCloses(s: string)
    requires s != [] && s[|s| - 1] == '\n'
    ensures Closed(s)
    decreases |s|
  {
    var rest := s[PieceLength(s)..];
    if rest != [] {
      NewlineCloses(rest);
    }
  }
}
