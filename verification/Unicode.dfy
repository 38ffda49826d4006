/**
  UTF-8 as cppjieba reads it: the rune decoder, which remembers where every rune came from, and the
  slices of a sentence that ranges of runes stand for. Bytes are integers below 256; `& 0x3f`, `<< 6`
  and `|` on disjoint bits are written as `% 64`, `* 64` and `+`.
 */
module Unicode {
  import opened Options

  type byte = x: int | 0 <= x < 256
  type Rune = x: int | 0 <= x < 0x1_0000_0000

  datatype RuneStrLite = RuneStrLite(rune: Rune, len: nat)

  datatype RuneStr = RuneStr(rune: Rune, offset: nat, len: nat, unicodeOffset: nat, unicodeLength: nat)

  /** A word as an inclusive range of rune positions. */
  datatype WordRange = WordRange(left: nat, right: nat) {
    function Length(): int { right - left + 1 }
  }

  datatype Word = Word(word: seq<byte>, offset: nat, unicodeOffset: nat, unicodeLength: nat)

  // ----- the byte format, as specification functions

  /** The payload bits of a two-, three- and four-byte rune. */
  function Payload2(a: byte, b: byte): (r: int)
    ensures 0 <= r < 0x800
  {
    (a as int) % 32 * 64 + (b as int) % 64
  }

  function Payload3(a: byte, b: byte, c: byte): (r: int)
    ensures 0 <= r < 0x1_0000
  {
    ((a as int) % 16 * 64 + (b as int) % 64) * 64 + (c as int) % 64
  }

  function Payload4(a: byte, b: byte, c: byte, d: byte): (r: int)
    ensures 0 <= r < 0x20_0000
  {
    (((a as int) % 8 * 64 + (b as int) % 64) * 64 + (c as int) % 64) * 64 + (d as int) % 64
  }

  /** The first rune of a byte string and how many bytes it takes; length 0 when there is none. */
  function FirstRune(s: seq<byte>): (r: RuneStrLite)
    ensures r.len <= 4 && r.len <= |s|
    ensures r.rune < 0x20_0000
  {
    if s == [] then RuneStrLite(0, 0)
    else if s[0] <= 0x7f then RuneStrLite(s[0], 1)
    else if s[0] <= 0xdf && 1 < |s| then RuneStrLite(Payload2(s[0], s[1]), 2)
    else if s[0] <= 0xef && 2 < |s| then RuneStrLite(Payload3(s[0], s[1], s[2]), 3)
    else if s[0] <= 0xf7 && 3 < |s| then RuneStrLite(Payload4(s[0], s[1], s[2], s[3]), 4)
    else RuneStrLite(0, 0)
  }

  /** The first byte alone tells how many bytes a rune takes; with fewer, or above 0xf7, there is none. */
  lemma LengthByFirstByte(s: seq<byte>)
    requires s != []
    ensures var n := if s[0] < 0x80 then 1 else if s[0] < 0xe0 then 2 else if s[0] < 0xf0 then 3 else 4;
            FirstRune(s).len == if s[0] < 0xf8 && n <= |s| then n else 0
  {
  }

  /** All runes of a byte string, or None when some position holds no rune. */
  function DecodeRunes(s: seq<byte>): (r: Option<seq<Rune>>)
  {
    if s == [] then Some([])
    else
      var first := FirstRune(s);
      if first.len == 0 then None
      else
        var rest := DecodeRunes(s[first.len..]);
        if rest.None? then None else Some([first.rune] + rest.value)
  }

  ghost predicate Decodable(s: seq<byte>) { DecodeRunes(s).Some? }

  // ----- cppjieba's decoder

  method DecodeRuneInString(str: seq<byte>) returns (rp: RuneStrLite)
    ensures rp == FirstRune(str)
  {
    rp := RuneStrLite(0, 0);
    if |str| == 0 {
      return;
    }
    if str[0] <= 0x7f {
      rp := RuneStrLite(str[0] % 128, 1);
    } else if str[0] <= 0xdf && 1 < |str| {
      rp := rp.(rune := str[0] % 32);
      rp := rp.(rune := rp.rune * 64);
      rp := rp.(rune := rp.rune + str[1] % 64);
      rp := rp.(len := 2);
    } else if str[0] <= 0xef && 2 < |str| {
      rp := rp.(rune := str[0] % 16);
      rp := rp.(rune := rp.rune * 64);
      rp := rp.(rune := rp.rune + str[1] % 64);
      rp := rp.(rune := rp.rune * 64);
      rp := rp.(rune := rp.rune + str[2] % 64);
      rp := rp.(len := 3);
    } else if str[0] <= 0xf7 && 3 < |str| {
      rp := rp.(rune := str[0] % 8);
      rp := rp.(rune := rp.rune * 64);
      rp := rp.(rune := rp.rune + str[1] % 64);
      rp := rp.(rune := rp.rune * 64);
      rp := rp.(rune := rp.rune + str[2] % 64);
      rp := rp.(rune := rp.rune * 64);
      rp := rp.(rune := rp.rune + str[3] % 64);
      rp := rp.(len := 4);
    } else {
      rp := RuneStrLite(0, 0);
    }
  }

  /** The byte position just after the last rune. */
  function EndOffset(runes: seq<RuneStr>): nat
  {
    if runes == [] then 0 else runes[|runes| - 1].offset + runes[|runes| - 1].len
  }

  /** Each rune starts where the one before it ends, is non-empty, and knows its own position. */
  ghost predicate Tiled(runes: seq<RuneStr>)
  {
    runes == [] ||
    var n := |runes| - 1;
    && Tiled(runes[..n])
    && runes[n].offset == EndOffset(runes[..n]) && 1 <= runes[n].len <= 4
    && runes[n].unicodeOffset == n && runes[n].unicodeLength == 1
  }

  function RunesOf(runes: seq<RuneStr>): (r: seq<Rune>)
    ensures |r| == |runes|
  {
    seq(|runes|, i requires 0 <= i < |runes| => runes[i].rune)
  }

  /** Each rune is the one its bytes encode. */
  ghost predicate ReadFrom(s: seq<byte>, runes: seq<RuneStr>)
  {
    forall k | 0 <= k < |runes| ::
      runes[k].offset <= |s| && FirstRune(s[runes[k].offset..]) == RuneStrLite(runes[k].rune, runes[k].len)
  }

  lemma RunesOfAppend(runes: seq<RuneStr>, x: RuneStr)
    ensures RunesOf(runes + [x]) == RunesOf(runes) + [x.rune]
  {
  }

  lemma {:induction false} TiledAt(runes: seq<RuneStr>, k: nat)
    requires Tiled(runes) && k < |runes|
    ensures runes[k].unicodeOffset == k && runes[k].unicodeLength == 1 && 1 <= runes[k].len <= 4
    ensures OffsetOf(runes, k + 1) == runes[k].offset + runes[k].len
    ensures k == 0 ==> runes[k].offset == 0
    decreases |runes|
  {
    if k + 1 < |runes| {
      TiledAt(runes[..|runes| - 1], k);
    }
  }

  /** The runes read from the first i bytes of s, and that they tile those bytes. */
  ghost predicate ReadUpTo(s: seq<byte>, runes: seq<RuneStr>, i: nat)
  {
    i <= |s| && Tiled(runes) && EndOffset(runes) == i && ReadFrom(s, runes) &&
    DecodeRunes(s) == Prepend(RunesOf(runes), DecodeRunes(s[i..]))
  }

  lemma ReadNone(s: seq<byte>)
    ensures ReadUpTo(s, [], 0)
  {
    assert s[0..] == s;
    PrependNone(DecodeRunes(s));
  }

  lemma ReadAll(s: seq<byte>, runes: seq<RuneStr>)
    requires ReadUpTo(s, runes, |s|)
    ensures DecodeRunes(s) == Some(RunesOf(runes)) && Decodable(s) && ReadFrom(s, runes)
    ensures Tiled(runes) && EndOffset(runes) == |s|
  {
    assert s[|s|..] == [];
    assert RunesOf(runes) + [] == RunesOf(runes);
  }

  lemma ReadOneMore(s: seq<byte>, runes: seq<RuneStr>, i: nat, rp: RuneStrLite, x: RuneStr)
    requires i < |s| && ReadUpTo(s, runes, i) && rp == FirstRune(s[i..])
    requires rp.len > 0 && x == RuneStr(rp.rune, i, rp.len, |runes|, 1)
    ensures ReadUpTo(s, runes + [x], i + rp.len)
  {
    DecodeStep(s, i, RunesOf(runes), rp);
    RunesOfAppend(runes, x);
  }

  lemma ReadStops(s: seq<byte>, runes: seq<RuneStr>, i: nat)
    requires i < |s| && ReadUpTo(s, runes, i) && FirstRune(s[i..]).len == 0
    ensures !Decodable(s)
  {
    DecodeStep(s, i, RunesOf(runes), FirstRune(s[i..]));
  }

  /** The position variables are 32 bits wide, so sentences are shorter than 2^32 bytes. */
  method DecodeRunesInString(s: seq<byte>) returns (ok: bool, runes: seq<RuneStr>)
    requires |s| < 0x1_0000_0000
    ensures ok <==> Decodable(s)
    ensures ok ==> DecodeRunes(s) == Some(RunesOf(runes)) && ReadFrom(s, runes)
    ensures ok ==> Tiled(runes) && EndOffset(runes) == |s|
    ensures !ok ==> runes == []
  {
    runes := [];
    var i, j := 0, 0;
    ReadNone(s);
    while i < |s|
      invariant j == |runes| && ReadUpTo(s, runes, i)
    {
      var rp := DecodeRuneInString(s[i..]);
      if rp.len == 0 {
        ReadStops(s, runes, i);
        return false, [];
      }
      var x := RuneStr(rp.rune, i, rp.len, j, 1);
      ReadOneMore(s, runes, i, rp, x);
      runes := runes + [x];
      i := i + rp.len;
      j := j + 1;
    }
    ReadAll(s, runes);
    return true, runes;
  }

  function Prepend(a: seq<Rune>, b: Option<seq<Rune>>): (r: Option<seq<Rune>>)
  {
    if b.None? then None else Some(a + b.value)
  }

  lemma PrependNone(b: Option<seq<Rune>>)
    ensures Prepend([], b) == b
  {
    if b.Some? {
      assert [] + b.value == b.value;
    }
  }

  /** One turn of either decoding loop: the runes read so far grow by the first rune ahead. */
  lemma DecodeStep(s: seq<byte>, i: nat, a: seq<Rune>, first: RuneStrLite)
    requires i < |s| && FirstRune(s[i..]) == first
    ensures first.len == 0 ==> Prepend(a, DecodeRunes(s[i..])) == None
    ensures i + first.len <= |s|
    ensures first.len > 0 ==>
              Prepend(a, DecodeRunes(s[i..])) == Prepend(a + [first.rune], DecodeRunes(s[i + first.len..]))
  {
    if first.len > 0 {
      var rest := DecodeRunes(s[i + first.len..]);
      assert s[i..][first.len..] == s[i + first.len..];
      if rest.Some? {
        assert a + ([first.rune] + rest.value) == (a + [first.rune]) + rest.value;
      }
    }
  }

  method IsSingleWord(str: seq<byte>) returns (r: bool)
    ensures r <==> str == [] || (Decodable(str) && |DecodeRunes(str).value| == 1)
  {
    var rp := DecodeRuneInString(str);
    r := rp.len == |str|;
    if str != [] && rp.len != 0 {
      assert rp.len == |str| <==> str[rp.len..] == [];
      assert DecodeRunes(str[rp.len..]) == Some([]) <==> str[rp.len..] == [];
    }
  }

  // ----- slicing words back out of the sentence

  /** `std::string::substr`: the count is cut off at the end of the string. */
  function Substr(s: seq<byte>, pos: nat, len: nat): seq<byte>
    requires pos <= |s|
  {
    if pos + len <= |s| then s[pos..pos + len] else s[pos..]
  }

  function GetWordFromRunes(s: seq<byte>, left: RuneStr, right: RuneStr): (w: Word)
    requires left.offset <= right.offset && left.offset <= |s|
    requires left.unicodeOffset <= right.unicodeOffset
  {
    var len := right.offset - left.offset + right.len;
    var unicodeLength := right.unicodeOffset - left.unicodeOffset + right.unicodeLength;
    Word(Substr(s, left.offset, len), left.offset, left.unicodeOffset, unicodeLength)
  }

  /** Consecutive non-empty ranges covering the rune positions lo up to hi exactly once. */
  ghost predicate Tiles(wrs: seq<WordRange>, lo: nat, hi: nat)
  {
    if wrs == [] then lo == hi
    else wrs[0].left == lo <= wrs[0].right < hi && Tiles(wrs[1..], wrs[0].right + 1, hi)
  }

  lemma {:induction false} TilesAppend(a: seq<WordRange>, b: seq<WordRange>, lo: nat, mid: nat, hi: nat)
    requires Tiles(a, lo, mid) && Tiles(b, mid, hi)
    ensures Tiles(a + b, lo, hi) && lo <= mid <= hi
    decreases |a| + |b|
  {
    if a == [] {
      assert a + b == b;
      if b != [] {
        TilesAppend([], b[1..], b[0].right + 1, b[0].right + 1, hi);
      }
    } else {
      TilesAppend(a[1..], b, a[0].right + 1, mid, hi);
      assert (a + b)[1..] == a[1..] + b;
    }
  }

  lemma {:induction false} TilesInside(a: seq<WordRange>, lo: nat, hi: nat)
    requires Tiles(a, lo, hi)
    ensures lo <= hi
    ensures forall k | 0 <= k < |a| :: lo <= a[k].left <= a[k].right < hi
  {
    if a != [] {
      TilesInside(a[1..], a[0].right + 1, hi);
      assert forall k | 1 <= k < |a| :: a[k] == a[1..][k - 1];
    }
  }

  /** What b has behind a. */
  function Added(a: seq<WordRange>, b: seq<WordRange>): (r: seq<WordRange>)
    requires a <= b
    ensures a + r == b
  {
    b[|a|..]
  }

  lemma AddedOf(a: seq<WordRange>, r: seq<WordRange>)
    ensures a <= a + r && Added(a, a + r) == r
  {
  }

  /** The bytes of the words, one after the other. */
  function Bytes(words: seq<Word>): (r: seq<byte>)
  {
    if words == [] then [] else words[0].word + Bytes(words[1..])
  }

  function OffsetOf(runes: seq<RuneStr>, k: nat): nat
    requires k <= |runes|
  {
    if k < |runes| then runes[k].offset else EndOffset(runes)
  }

  lemma {:induction false} OffsetsIncrease(runes: seq<RuneStr>, i: nat, j: nat)
    requires Tiled(runes) && i < j <= |runes|
    ensures OffsetOf(runes, i) < OffsetOf(runes, j) <= EndOffset(runes)
    decreases |runes| - i
  {
    TiledAt(runes, i);
    if i + 1 < j {
      OffsetsIncrease(runes, i + 1, j);
    } else if j < |runes| {
      OffsetsIncrease(runes, j, |runes|);
    }
  }

  /** The bytes of the rune positions a up to b. */
  ghost function Span(s: seq<byte>, runes: seq<RuneStr>, a: nat, b: nat): (r: seq<byte>)
    requires Tiled(runes) && EndOffset(runes) <= |s| && a <= b <= |runes|
  {
    SpanBounds(s, runes, a, b);
    s[OffsetOf(runes, a)..OffsetOf(runes, b)]
  }

  lemma SpanBounds(s: seq<byte>, runes: seq<RuneStr>, a: nat, b: nat)
    requires Tiled(runes) && EndOffset(runes) <= |s| && a <= b <= |runes|
    ensures OffsetOf(runes, a) <= OffsetOf(runes, b) <= |s|
  {
    if a < b {
      OffsetsIncrease(runes, a, b);
    } else if a < |runes| {
      OffsetsIncrease(runes, a, |runes|);
    }
  }

  lemma SpanJoin(s: seq<byte>, runes: seq<RuneStr>, a: nat, b: nat, c: nat)
    requires Tiled(runes) && EndOffset(runes) <= |s| && a <= b <= c <= |runes|
    ensures Span(s, runes, a, b) + Span(s, runes, b, c) == Span(s, runes, a, c)
  {
    SpanBounds(s, runes, a, b);
    SpanBounds(s, runes, b, c);
    SlicesJoin(s, OffsetOf(runes, a), OffsetOf(runes, b), OffsetOf(runes, c));
  }

  lemma SlicesJoin(s: seq<byte>, a: nat, b: nat, c: nat)
    requires a <= b <= c <= |s|
    ensures s[a..b] + s[b..c] == s[a..c]
  {
  }

  lemma SpanWhole(s: seq<byte>, runes: seq<RuneStr>)
    requires Tiled(runes) && EndOffset(runes) <= |s|
    ensures Span(s, runes, 0, |runes|) == s[..EndOffset(runes)]
  {
    SpanBounds(s, runes, 0, |runes|);
    if runes != [] {
      TiledAt(runes, 0);
    }
  }

  /** Word k is the bytes of range k. */
  ghost predicate WordsAt(s: seq<byte>, runes: seq<RuneStr>, wrs: seq<WordRange>, words: seq<Word>)
    requires Tiled(runes) && EndOffset(runes) <= |s|
  {
    && |words| == |wrs|
    && forall k | 0 <= k < |wrs| ::
         wrs[k].left <= wrs[k].right < |runes| && words[k] == WordAt(s, runes, wrs[k])
  }

  ghost function WordAt(s: seq<byte>, runes: seq<RuneStr>, wr: WordRange): Word
    requires Tiled(runes) && EndOffset(runes) <= |s| && wr.left <= wr.right < |runes|
  {
    Word(Span(s, runes, wr.left, wr.right + 1), OffsetOf(runes, wr.left), wr.left, wr.Length())
  }

  method GetWordsFromWordRanges(s: seq<byte>, runes: seq<RuneStr>, wrs: seq<WordRange>)
    returns (words: seq<Word>)
    requires Tiled(runes) && EndOffset(runes) <= |s|
    requires forall k | 0 <= k < |wrs| :: wrs[k].left <= wrs[k].right < |runes|
    ensures WordsAt(s, runes, wrs, words)
  {
    words := [];
    for i := 0 to |wrs|
      invariant WordsAt(s, runes, wrs[..i], words)
    {
      var l, r := wrs[i].left, wrs[i].right;
      SpanBounds(s, runes, l, r);
      SpanBounds(s, runes, l, r + 1);
      TiledAt(runes, l);
      TiledAt(runes, r);
      var w := GetWordFromRunes(s, runes[l], runes[r]);
      assert w == WordAt(s, runes, wrs[i]);
      words := words + [w];
    }
    assert wrs[..|wrs|] == wrs;
  }

  /** Words cut at ranges that tile lo up to hi spell exactly the bytes between those positions. */
  lemma {:induction false} WordsSpell(s: seq<byte>, runes: seq<RuneStr>, wrs: seq<WordRange>,
                                      words: seq<Word>, lo: nat, hi: nat)
    requires Tiled(runes) && EndOffset(runes) <= |s| && hi <= |runes|
    requires Tiles(wrs, lo, hi) && WordsAt(s, runes, wrs, words)
    ensures Bytes(words) == Span(s, runes, lo, hi)
    decreases |wrs|
  {
    SpanBounds(s, runes, lo, hi);
    if wrs != [] {
      var mid := wrs[0].right + 1;
      WordsSpell(s, runes, wrs[1..], words[1..], mid, hi);
      SpanJoin(s, runes, lo, mid, hi);
    }
  }

  // ----- where a word stands

  /** Bytes behind the first rune do not change it. */
  lemma FirstRuneOfPrefix(t: seq<byte>, m: nat)
    requires 0 < FirstRune(t).len <= m <= |t|
    ensures FirstRune(t[..m]) == FirstRune(t)
  {
  }

  lemma SlicesOfSlice(s: seq<byte>, a: nat, b: nat, c: nat)
    requires a <= b <= c <= |s|
    ensures s[a..][..c - a] == s[a..c] && s[a..c][b - a..] == s[b..c]
  {
  }

  /** A slice that begins with a whole rune decodes to it and to the runes of the rest. */
  lemma SliceDecodes(s: seq<byte>, at: nat, mid: nat, end: nat, rune: Rune, rest: seq<Rune>)
    requires at < mid <= end <= |s| && FirstRune(s[at..]) == RuneStrLite(rune, mid - at)
    requires DecodeRunes(s[mid..end]) == Some(rest)
    ensures DecodeRunes(s[at..end]) == Some([rune] + rest)
  {
    SlicesOfSlice(s, at, mid, end);
    FirstRuneOfPrefix(s[at..], end - at);
  }

  lemma ConsSlice(x: seq<Rune>, a: nat, b: nat)
    requires a < b <= |x|
    ensures x[a..b] == [x[a]] + x[a + 1..b]
  {
  }

  lemma NextOffset(s: seq<byte>, runes: seq<RuneStr>, a: nat, b: nat)
    requires Tiled(runes) && EndOffset(runes) <= |s| && a < b <= |runes|
    ensures OffsetOf(runes, a) == runes[a].offset < runes[a].offset + runes[a].len == OffsetOf(runes, a + 1)
    ensures OffsetOf(runes, a + 1) <= OffsetOf(runes, b) <= |s|
  {
    TiledAt(runes, a);
    SpanBounds(s, runes, a + 1, b);
  }

  /** The bytes of a range of runes decode to exactly these runes. */
  lemma {:induction false} SlicesDecode(s: seq<byte>, runes: seq<RuneStr>, a: nat, b: nat)
    requires Tiled(runes) && EndOffset(runes) <= |s| && ReadFrom(s, runes) && a <= b <= |runes|
    ensures OffsetOf(runes, a) <= OffsetOf(runes, b) <= |s|
    ensures DecodeRunes(s[OffsetOf(runes, a)..OffsetOf(runes, b)]) == Some(RunesOf(runes)[a..b])
    decreases b - a
  {
    SpanBounds(s, runes, a, b);
    if a < b {
      NextOffset(s, runes, a, b);
      SlicesDecode(s, runes, a + 1, b);
      SliceDecodes(s, OffsetOf(runes, a), OffsetOf(runes, a + 1), OffsetOf(runes, b), runes[a].rune,
                   RunesOf(runes)[a + 1..b]);
      ConsSlice(RunesOf(runes), a, b);
    } else {
      EmptySlices(s, OffsetOf(runes, a), RunesOf(runes), a);
    }
  }

  lemma EmptySlices(s: seq<byte>, at: nat, x: seq<Rune>, a: nat)
    requires at <= |s| && a <= |x|
    ensures DecodeRunes(s[at..at]) == Some(x[a..a])
  {
    assert s[at..at] == [] && x[a..a] == [];
  }

  /** The word stands at its byte offset, its runes are as many as it says, and so are those before it. */
  ghost predicate IsPlaced(s: seq<byte>, w: Word)
  {
    && w.offset + |w.word| <= |s| && w.word == s[w.offset..w.offset + |w.word|]
    && DecodesTo(w.word, w.unicodeLength) && DecodesTo(s[..w.offset], w.unicodeOffset)
  }

  lemma SpanRunes(s: seq<byte>, runes: seq<RuneStr>, a: nat, b: nat, span: seq<byte>, n: nat)
    requires Tiled(runes) && EndOffset(runes) <= |s| && ReadFrom(s, runes) && a <= b <= |runes|
    requires span == Span(s, runes, a, b) && n == b - a
    ensures DecodesTo(span, n)
  {
    SlicesDecode(s, runes, a, b);
  }

  lemma RunesBefore(s: seq<byte>, runes: seq<RuneStr>, a: nat, at: nat)
    requires Tiled(runes) && EndOffset(runes) <= |s| && ReadFrom(s, runes) && a <= |runes|
    requires at == OffsetOf(runes, a)
    ensures at <= |s| && DecodesTo(s[..at], a)
  {
    FirstOffset(s, runes, a);
    SpanRunes(s, runes, 0, a, s[..at], a);
  }

  lemma WordStands(s: seq<byte>, runes: seq<RuneStr>, wr: WordRange, w: Word)
    requires Tiled(runes) && EndOffset(runes) <= |s| && wr.left <= wr.right < |runes|
    requires w == WordAt(s, runes, wr)
    ensures w.offset + |w.word| <= |s| && w.word == s[w.offset..w.offset + |w.word|]
    ensures w.word == Span(s, runes, wr.left, wr.right + 1) && w.offset == OffsetOf(runes, wr.left)
    ensures w.unicodeOffset == wr.left && w.unicodeLength == wr.right + 1 - wr.left
  {
    SpanBounds(s, runes, wr.left, wr.right + 1);
  }

  lemma WordDecodes(s: seq<byte>, runes: seq<RuneStr>, wr: WordRange, w: Word)
    requires Tiled(runes) && EndOffset(runes) <= |s| && ReadFrom(s, runes) && wr.left <= wr.right < |runes|
    requires w.word == Span(s, runes, wr.left, wr.right + 1) && w.unicodeLength == wr.right + 1 - wr.left
    ensures DecodesTo(w.word, w.unicodeLength)
  {
    SpanRunes(s, runes, wr.left, wr.right + 1, w.word, w.unicodeLength);
  }

  lemma WordIsPlaced(s: seq<byte>, runes: seq<RuneStr>, wr: WordRange, w: Word)
    requires Tiled(runes) && EndOffset(runes) <= |s| && ReadFrom(s, runes) && wr.left <= wr.right < |runes|
    requires w == WordAt(s, runes, wr)
    ensures IsPlaced(s, w)
  {
    WordStands(s, runes, wr, w);
    WordDecodes(s, runes, wr, w);
    RunesBefore(s, runes, w.unicodeOffset, w.offset);
  }

  lemma WordsArePlaced(s: seq<byte>, runes: seq<RuneStr>, wrs: seq<WordRange>, words: seq<Word>)
    requires Tiled(runes) && EndOffset(runes) <= |s| && ReadFrom(s, runes) && WordsAt(s, runes, wrs, words)
    ensures forall k | 0 <= k < |words| :: IsPlaced(s, words[k])
  {
    forall k | 0 <= k < |words| ensures IsPlaced(s, words[k]) {
      WordIsPlaced(s, runes, wrs[k], words[k]);
    }
  }

  /** The bytes decode to so many runes. */
  ghost predicate DecodesTo(s: seq<byte>, n: nat) { DecodeRunes(s).Some? && |DecodeRunes(s).value| == n }

  lemma FirstOffset(s: seq<byte>, runes: seq<RuneStr>, a: nat)
    requires Tiled(runes) && EndOffset(runes) <= |s| && a <= |runes|
    ensures OffsetOf(runes, a) <= |s| && Span(s, runes, 0, a) == s[..OffsetOf(runes, a)]
  {
    SpanBounds(s, runes, 0, a);
    if runes != [] {
      TiledAt(runes, 0);
    }
  }
}
