/** Splits a decoded sentence at separator runes; every separator becomes a range of its own. */
module PreFilter {
  import opened Unicode

  /** The runes of the bytes, with offsets that tile them. */
  ghost predicate IsDecoding(bytes: seq<byte>, runes: seq<RuneStr>)
  {
    && Decodable(bytes) && DecodeRunes(bytes).value == RunesOf(runes)
    && Tiled(runes) && EndOffset(runes) == |bytes| && ReadFrom(bytes, runes)
  }

  /** The runes begin..end-1. */
  datatype Range = Range(begin: nat, end: nat)

  /** What the splitter hands out at position lo: one separator, or everything up to the next separator. */
  ghost predicate IsRange(symbols: set<Rune>, runes: seq<RuneStr>, lo: nat, hi: nat)
  {
    && lo < hi <= |runes|
    && if runes[lo].rune in symbols then hi == lo + 1
       else && (forall k | lo <= k < hi :: runes[k].rune !in symbols)
            && (hi < |runes| ==> runes[hi].rune in symbols)
  }

  class PreFilter {
    var cursor: nat
    const sentence: seq<RuneStr>
    const symbols: set<Rune>

    ghost predicate Valid()
      reads this
    {
      cursor <= |sentence|
    }

    /** An undecodable sentence is treated as empty. */
    constructor (symbols: set<Rune>, bytes: seq<byte>)
      requires |bytes| < 0x1_0000_0000
      ensures Valid() && cursor == 0 && this.symbols == symbols
      ensures Decodable(bytes) ==> IsDecoding(bytes, sentence)
      ensures !Decodable(bytes) ==> sentence == []
    {
      var ok, runes := DecodeRunesInString(bytes);
      this.sentence := runes;
      this.symbols := symbols;
      cursor := 0;
    }

    predicate HasNext()
      requires Valid()
      reads this
    {
      cursor != |sentence|
    }

    /** The next range starts where the last one ended; there is one as long as runes are left. */
    method Next() returns (range: Range)
      requires Valid()
      modifies this
      ensures Valid() && range == Range(old(cursor), cursor) && range.begin <= range.end
      ensures old(HasNext()) ==> IsRange(symbols, sentence, range.begin, range.end)
    {
      var begin := cursor;
      while cursor != |sentence|
        invariant begin <= cursor <= |sentence| && begin == old(cursor)
        invariant forall k | begin <= k < cursor :: sentence[k].rune !in symbols
        decreases |sentence| - cursor
      {
        if sentence[cursor].rune in symbols {
          if begin == cursor {
            cursor := cursor + 1;
          }
          return Range(begin, cursor);
        }
        cursor := cursor + 1;
      }
      return Range(begin, |sentence|);
    }
  }
}
