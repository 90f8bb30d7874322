/** Keyword dispatch by an if/else chain of strncmp tests: when the order of the tests matters. */
module Keywords {
  import opened CStrings

  datatype Entry<W> = Entry(key: string, word: W)

  /** The chain of tests: the first entry whose key the token starts with. */
  function FirstMatch<W>(table: seq<Entry<W>>, tok: string): Option<Entry<W>> {
    if table == [] then None
    else if table[0].key <= tok then Some(table[0])
    else FirstMatch(table[1..], tok)
  }

  ghost predicate DistinctKeys<W>(table: seq<Entry<W>>) {
    forall i, j :: 0 <= i < j < |table| ==> table[i].key != table[j].key
  }

  ghost predicate SameEntries<W(!new)>(a: seq<Entry<W>>, b: seq<Entry<W>>) {
    forall e :: e in a <==> e in b
  }

  /** No key is a prefix of another entry's key. */
  ghost predicate PrefixFree<W(!new)>(table: seq<Entry<W>>) {
    forall e, e' :: e in table && e' in table && e != e' ==> !(e.key <= e'.key)
  }

  /** No key is a prefix of a key tested later. */
  ghost predicate NoShadowing<W>(table: seq<Entry<W>>) {
    forall i, j :: 0 <= i < j < |table| ==> !(table[i].key <= table[j].key)
  }

  /** e is the longest entry of the table that matches the token. */
  ghost predicate IsLongest<W(!new)>(table: seq<Entry<W>>, tok: string, e: Entry<W>) {
    && e in table && e.key <= tok
    && forall e' :: e' in table && e'.key <= tok ==> |e'.key| <= |e.key|
  }

  ghost predicate PicksLongest<W(!new)>(table: seq<Entry<W>>) {
    forall tok, e :: FirstMatch(table, tok) == Some(e) ==> IsLongest(table, tok, e)
  }

  ghost predicate Agree<W(!new)>(a: seq<Entry<W>>, b: seq<Entry<W>>) {
    forall tok :: FirstMatch(a, tok) == FirstMatch(b, tok)
  }

  /** Index of the first match, |table| when there is none. */
  lemma {:induction false} FirstMatchIndex<W(!new)>(table: seq<Entry<W>>, tok: string) returns (m: nat)
    ensures m <= |table| && forall i :: 0 <= i < m ==> !(table[i].key <= tok)
    ensures if m < |table| then table[m].key <= tok && FirstMatch(table, tok) == Some(table[m])
            else FirstMatch(table, tok) == None
  {
    if table == [] || table[0].key <= tok {
      m := 0;
    } else {
      var k := FirstMatchIndex(table[1..], tok);
      m := k + 1;
      forall i | 0 <= i < m ensures !(table[i].key <= tok) {
        assert i > 0 ==> table[i] == table[1..][i - 1];
      }
    }
  }

  lemma PrefixesCompare(a: string, b: string, tok: string)
    requires a <= tok && b <= tok && |a| <= |b|
    ensures a <= b
  {
    assert a == tok[..|a|] && b == tok[..|b|];
  }

  /** A chain of tests implements longest-keyword match exactly if no key hides a later one. */
  lemma LongestMatchIff<W(!new)>(table: seq<Entry<W>>)
    requires DistinctKeys(table)
    ensures PicksLongest(table) <==> NoShadowing(table)
  {
    if NoShadowing(table) {
      forall tok, e, e' | FirstMatch(table, tok) == Some(e) && e' in table && e'.key <= tok
        ensures e in table && e.key <= tok && |e'.key| <= |e.key|
      {
        var m := FirstMatchIndex(table, tok);
        var j :| 0 <= j < |table| && table[j] == e';
        if |e.key| < |e'.key| {
          PrefixesCompare(e.key, e'.key, tok);
        }
      }
      forall tok, e | FirstMatch(table, tok) == Some(e) ensures IsLongest(table, tok, e) {
        var m := FirstMatchIndex(table, tok);
      }
    }
    if PicksLongest(table) {
      forall i, j | 0 <= i < j < |table| ensures !(table[i].key <= table[j].key) {
        var tok := table[j].key;
        var m := FirstMatchIndex(table, tok);
        assert IsLongest(table, tok, table[m]);
        assert table[j] in table && |tok| <= |table[m].key|;
        assert table[m].key == tok;
      }
    }
  }

  /** Reordering a table changes no classification exactly if the new order hides no key either. */
  lemma ReorderingIff<W(!new)>(table: seq<Entry<W>>, other: seq<Entry<W>>)
    requires DistinctKeys(table) && DistinctKeys(other) && SameEntries(table, other)
    requires NoShadowing(table)
    ensures Agree(other, table) <==> NoShadowing(other)
  {
    LongestMatchIff(table);
    LongestMatchIff(other);
    if NoShadowing(other) {
      forall tok ensures FirstMatch(other, tok) == FirstMatch(table, tok) {
        var m := FirstMatchIndex(table, tok);
        var n := FirstMatchIndex(other, tok);
        if n < |other| {
          assert other[n] in other;
          assert other[n] in table;
        }
        if m < |table| {
          var e := table[m];
          assert e in table && IsLongest(table, tok, e);
          assert e in other;
          assert n < |other|;
          var f := other[n];
          assert f in other && IsLongest(other, tok, f);
          assert f in table && |e.key| == |f.key|;
          PrefixesCompare(e.key, f.key, tok);
          assert e.key == f.key;
          var k :| 0 <= k < |table| && table[k] == f;
          assert k == m;
        }
      }
    }
    if Agree(other, table) {
      forall tok, e | FirstMatch(other, tok) == Some(e) ensures IsLongest(other, tok, e) {
        assert FirstMatch(other, tok) == FirstMatch(table, tok);
        assert IsLongest(table, tok, e);
        assert e in other;
      }
      assert PicksLongest(other);
    }
  }

  /** With a prefix-free table at most one test succeeds, so every order classifies alike. */
  lemma OrderIrrelevant<W(!new)>(table: seq<Entry<W>>, other: seq<Entry<W>>, tok: string)
    requires PrefixFree(table) && SameEntries(table, other)
    ensures FirstMatch(other, tok) == FirstMatch(table, tok)
    ensures forall e :: FirstMatch(table, tok) == Some(e) <==> e in table && e.key <= tok
  {
    var m := FirstMatchIndex(table, tok);
    var n := FirstMatchIndex(other, tok);
    forall e | e in table && e.key <= tok ensures FirstMatch(table, tok) == Some(e) {
      var f := table[m];
      assert f in table;
      if |f.key| <= |e.key| {
        PrefixesCompare(f.key, e.key, tok);
      } else {
        PrefixesCompare(e.key, f.key, tok);
      }
    }
    if m < |table| {
      assert table[m] in table;
      assert table[m] in other;
    }
    if n < |other| {
      assert other[n] in other;
    }
  }
}
