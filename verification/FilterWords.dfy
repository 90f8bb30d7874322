/** The words of the filter command, by their text: which tokens they are, which tuple they fill, and
    what their values store. */
module FilterWords {
  import opened CStrings
  import opened Numerals
  import opened FlowTypes
  import opened FilterSpec
  import opened Keywords
  import opened FlowDump

  /** What the match loop compares, and the tuple that it fills, in the order that it asks for. */
  const KEYWORDS: seq<string> := [
    "in-phy-port", "in-port", "dl-dst", "dl-src", "dl-typ",
    "nw-dst", "nw-src", "nw-ecn", "nw-proto", "tp-dst", "tp-src"]

  const FILLS: seq<string> := [
    "in_phy_port", "in_port", "dl_dst", "dl_src", "dl_type",
    "nw4_dst", "nw4_src", "nw_ecn", "nw_proto", "tp_dst", "tp_src"]

  lemma ClassifyAt(i: nat, tok: string)
    requires i < |FILTER_TABLE|
    ensures Classify(tok) == FILTER_TABLE[i].word <==> FILTER_TABLE[i].key <= tok
  {
    if FILTER_TABLE[i].key <= tok {
      Keyword(i, tok);
    }
    if Classify(tok) == FILTER_TABLE[i].word {
      hide FirstMatch;
      var m := FirstMatchIndex(FILTER_TABLE, tok);
      DistinctWords(m, i);
    }
  }

  lemma DistinctWords(i: nat, j: nat)
    ensures i < |FILTER_TABLE| && j < |FILTER_TABLE| && FILTER_TABLE[i].word == FILTER_TABLE[j].word ==> i == j
    ensures j < |FILTER_TABLE| ==> FILTER_TABLE[j].word != Unknown
  {
  }

  predicate StartsWithCommand(tok: string) {
    "add" <= tok || "del" <= tok || "dump" <= tok
  }

  /** The words that are no fields, each by its literal. */
  lemma CommandWords(tok: string)
    ensures Classify(tok) == FilterWord <==> "filter" <= tok
    ensures Classify(tok) == Command(Add) <==> "add" <= tok
    ensures Classify(tok) == Command(Del) <==> "del" <= tok
    ensures Classify(tok) == Command(Dump) <==> "dump" <= tok
    ensures Classify(tok).Command? <==> StartsWithCommand(tok)
  {
    hide Classify;
    ClassifyAt(0, tok);
    ClassifyAt(1, tok);
    ClassifyAt(2, tok);
    ClassifyAt(3, tok);
  }

  lemma OtherWords(tok: string)
    ensures Classify(tok) == Dev <==> "dev" <= tok
    ensures Classify(tok) == Tbl <==> "tbl" <= tok
    ensures Classify(tok) == ActionWord <==> "action" <= tok
  {
    hide Classify;
    ClassifyAt(4, tok);
    ClassifyAt(5, tok);
    ClassifyAt(17, tok);
  }

  /** A field option is one that starts with its keyword, and fills the tuple of its name. */
  lemma FieldWords(p: Place, tok: string)
    ensures Classify(tok) == Field(p) <==> KEYWORDS[p] <= tok
    ensures FLOW_TUPLES[CHAIN[p]] == FILLS[p] && TUPLE_NAMES[CHAIN[p]] == FILLS[p]
  {
    hide Classify;
    ClassifyAt(6 + p as nat, tok);
    FieldEntry(p);
    FillsTuple(p);
  }

  lemma FieldEntry(p: Place)
    ensures FILTER_TABLE[6 + p as nat].word == Field(p) && FILTER_TABLE[6 + p as nat].key == KEYWORDS[p]
  {
  }

  lemma FillsTuple(p: Place)
    ensures FLOW_TUPLES[CHAIN[p]] == FILLS[p] && TUPLE_NAMES[CHAIN[p]] == FILLS[p]
  {
  }

  /** A token that starts with none of these words is refused by the match loop. */
  lemma UnknownWords(tok: string)
    ensures Classify(tok) == Unknown <==>
            && !("filter" <= tok) && !StartsWithCommand(tok) && !("dev" <= tok) && !("tbl" <= tok) && !("action" <= tok)
            && forall p: Place :: !(KEYWORDS[p] <= tok)
  {
    hide Classify;
    CommandWords(tok);
    OtherWords(tok);
    forall p: Place ensures Classify(tok) == Field(p) <==> KEYWORDS[p] <= tok {
      FieldWords(p, tok);
    }
    if Classify(tok).Field? {
      assert KEYWORDS[Classify(tok).pos] <= tok;
    }
  }

  /** What an option value stores: a number modulo 65536, low byte first, in hexadecimal for dl-type;
      the octets of an Ethernet address in order; the octets of an IPv4 address in reverse. */
  lemma DecodeMeaning(p: Place, v: string)
    ensures p in {0, 1, 7, 8, 9, 10} ==> Decode(p, v) == Bytes([Atoi(v) % 256, Atoi(v) / 256 % 256])
    ensures p == 4 ==> Decode(p, v) == Bytes([Strtol16(v) % 256, Strtol16(v) / 256 % 256])
    ensures p in {2, 3} && EtherAton(v).Some? ==> Decode(p, v) == Bytes(EtherAton(v).value)
    ensures p == 2 && EtherAton(v).None? ==> Decode(p, v) == Refused
    ensures p == 3 && EtherAton(v).None? ==> Decode(p, v) == NullAddress
    ensures p in {5, 6} && InetPton(v).None? ==> Decode(p, v) == Bytes([])
    ensures p in {5, 6} && InetPton(v).Some? ==>
              var q := InetPton(v).value;
              Decode(p, v) == Bytes([q[3], q[2], q[1], q[0]])
  {
    StoredBytes(Atoi(v));
    StoredBytes(Strtol16(v));
    hide Atoi, Strtol16, EtherAton, InetPton, ShortBytes, Short;
  }
}
