/**
  limonp's UTF-8 encoder and decoder (section 3 of RFC 3629), the round trip through them, and their
  agreement with cppjieba's decoder.
 */
module StringUtil {
  import opened Facts
  import opened Options
  import opened Unicode

  // ----- the encoded form

  /** The low bits of v below a marker: `(v & mask) | mark`. */
  function Marked(v: nat, size: nat, mark: nat): (b: byte)
    requires 0 < size && mark + size <= 256
  {
    v % size + mark
  }

  /** A code point without its k low base-64 digits: `v >> 6 * k`. */
  function Shr(v: nat, k: nat): (r: nat)
    decreases k, v
  {
    if k == 0 then v else Shr(v / 64, k - 1)
  }

  function EncodeRune(c: Rune): (r: seq<byte>)
    ensures 1 <= |r| <= 4
  {
    if c <= 0x7f then [c]
    else if c <= 0x7ff then [Marked(Shr(c, 1), 32, 0xc0), Marked(c, 64, 0x80)]
    else if c <= 0xffff then [Marked(Shr(c, 2), 16, 0xe0), Marked(Shr(c, 1), 64, 0x80), Marked(c, 64, 0x80)]
    else [Marked(Shr(c, 3), 4, 0xf0), Marked(Shr(c, 2), 64, 0x80), Marked(Shr(c, 1), 64, 0x80), Marked(c, 64, 0x80)]
  }

  /** The marks of section 3 of RFC 3629: the first byte tells the length, all others begin with the bits 10. */
  lemma EncodedMarks(c: Rune)
    ensures var e := EncodeRune(c);
            && (forall k | 1 <= k < |e| :: 0x80 <= e[k] <= 0xbf)
            && if |e| == 1 then e[0] <= 0x7f
               else if |e| == 2 then 0xc0 <= e[0] <= 0xdf
               else if |e| == 3 then 0xe0 <= e[0] <= 0xef
               else 0xf0 <= e[0] <= 0xf3
  {
  }

  /** The shortest form: whatever bytes are read as this code point, they are no fewer. */
  lemma ShortestForm(c: Rune, s: seq<byte>)
    requires FirstRune(s).len > 0 && FirstRune(s).rune == c
    ensures |EncodeRune(c)| <= FirstRune(s).len
  {
  }

  function EncodeRunes(cs: seq<Rune>): (r: seq<byte>)
  {
    if cs == [] then [] else EncodeRune(cs[0]) + EncodeRunes(cs[1..])
  }

  // ----- round trip

  /** What survives encoding: the encoder keeps only two bits above bit 17. */
  function Masked(c: Rune): (r: Rune)
  {
    if c < 0x1_0000 then c else c % 0x10_0000
  }

  lemma MaskKeeps(c: Rune)
    ensures Masked(c) == c <==> c < 0x10_0000
  {
  }

  function MaskedAll(cs: seq<Rune>): (r: seq<Rune>)
    ensures |r| == |cs| && forall i | 0 <= i < |cs| :: r[i] == Masked(cs[i])
  {
    if cs == [] then [] else [Masked(cs[0])] + MaskedAll(cs[1..])
  }

  lemma FirstRuneOfEncoding(c: Rune, tail: seq<byte>)
    ensures FirstRune(EncodeRune(c) + tail) == RuneStrLite(Masked(c), |EncodeRune(c)|)
  {
    if c > 0xffff {
      FirstOfFour(c, tail);
    } else if c > 0x7ff {
      FirstOfThree(c, tail);
    } else if c > 0x7f {
      FirstOfTwo(c, tail);
    }
  }

  lemma FirstOfTwo(c: Rune, tail: seq<byte>)
    requires 0x7f < c <= 0x7ff
    ensures FirstRune(EncodeRune(c) + tail) == RuneStrLite(c, 2)
  {
    NextDigit(c, 0);
    Unmasked(Shr(c, 1), 32, 0xc0);
    ReadsTwo(Marked(Shr(c, 1), 32, 0xc0), Marked(c, 64, 0x80), tail);
    TwoDigits(Shr(c, 1), c % 64);
  }

  lemma FirstOfThree(c: Rune, tail: seq<byte>)
    requires 0x7ff < c <= 0xffff
    ensures FirstRune(EncodeRune(c) + tail) == RuneStrLite(c, 3)
  {
    var s2, s1 := Shr(c, 2), Shr(c, 1);
    ThreeParts(c);
    Unmasked(s2, 16, 0xe0);
    ReadsThree(Marked(s2, 16, 0xe0), Marked(s1, 64, 0x80), Marked(c, 64, 0x80), tail);
    ThreeDigits(s2, s1 % 64, c % 64);
  }

  lemma FirstOfFour(c: Rune, tail: seq<byte>)
    requires 0xffff < c
    ensures FirstRune(EncodeRune(c) + tail) == RuneStrLite(c % 0x10_0000, 4)
  {
    FourParts(c);
    FourBytes(Shr(c, 3), Shr(c, 2), Shr(c, 1), c, tail);
  }

  lemma FourBytes(s3: nat, s2: nat, s1: nat, c: nat, tail: seq<byte>)
    requires c == ((s3 * 64 + s2 % 64) * 64 + s1 % 64) * 64 + c % 64
    ensures FirstRune([Marked(s3, 4, 0xf0), Marked(s2, 64, 0x80), Marked(s1, 64, 0x80), Marked(c, 64, 0x80)] + tail)
         == RuneStrLite(c % 0x10_0000, 4)
  {
    ReadsFour(Marked(s3, 4, 0xf0), Marked(s2, 64, 0x80), Marked(s1, 64, 0x80), Marked(c, 64, 0x80), tail);
    FourDigits(s3 % 4, s2 % 64, s1 % 64, c % 64);
    LowDigits(s3, s2 % 64, s1 % 64, c % 64);
  }

  /** A mask that is wide enough drops nothing. */
  lemma Unmasked(v: nat, size: nat, mark: nat)
    requires v < size && mark + size <= 256
    ensures Marked(v, size, mark) == v + mark
  {
    assert size * 0 == 0;
    Split(size, v, 0, v);
  }

  lemma ThreeParts(c: nat)
    ensures c == (Shr(c, 2) * 64 + Shr(c, 1) % 64) * 64 + c % 64
  {
    NextDigit(c, 0);
    NextDigit(c, 1);
  }

  lemma FourParts(c: nat)
    ensures c == ((Shr(c, 3) * 64 + Shr(c, 2) % 64) * 64 + Shr(c, 1) % 64) * 64 + c % 64
  {
    NextDigit(c, 0);
    NextDigit(c, 1);
    NextDigit(c, 2);
  }

  /** The digits of a number are what its shifts leave over. */
  lemma {:induction false} NextDigit(v: nat, k: nat)
    ensures Shr(v, k) == 64 * Shr(v, k + 1) + Shr(v, k) % 64
    decreases k
  {
    if k > 0 {
      NextDigit(v / 64, k - 1);
    }
  }

  /** How many bytes are read depends on the first one only, when enough of them are there. */
  lemma ReadsTwo(a: byte, b: byte, tail: seq<byte>)
    requires 0x80 <= a <= 0xdf
    ensures FirstRune([a, b] + tail) == RuneStrLite(Payload2(a, b), 2)
  {
  }

  lemma ReadsThree(a: byte, b: byte, c: byte, tail: seq<byte>)
    requires 0xe0 <= a <= 0xef
    ensures FirstRune([a, b, c] + tail) == RuneStrLite(Payload3(a, b, c), 3)
  {
  }

  lemma ReadsFour(a: byte, b: byte, c: byte, d: byte, tail: seq<byte>)
    requires 0xf0 <= a <= 0xf7
    ensures FirstRune([a, b, c, d] + tail) == RuneStrLite(Payload4(a, b, c, d), 4)
  {
  }

  lemma TwoDigits(d1: nat, d0: nat)
    requires d1 < 32 && d0 < 64
    ensures Payload2(d1 + 0xc0, d0 + 0x80) == d1 * 64 + d0
  {
  }

  lemma ThreeDigits(d2: nat, d1: nat, d0: nat)
    requires d2 < 16 && d1 < 64 && d0 < 64
    ensures Payload3(d2 + 0xe0, d1 + 0x80, d0 + 0x80) == (d2 * 64 + d1) * 64 + d0
  {
  }

  lemma FourDigits(d3: nat, d2: nat, d1: nat, d0: nat)
    requires d3 < 4 && d2 < 64 && d1 < 64 && d0 < 64
    ensures Payload4(d3 + 0xf0, d2 + 0x80, d1 + 0x80, d0 + 0x80) == ((d3 * 64 + d2) * 64 + d1) * 64 + d0
  {
  }

  /** The mask of the first byte drops all but two bits above the three low digits. */
  lemma LowDigits(top: nat, d2: nat, d1: nat, d0: nat)
    requires d2 < 64 && d1 < 64 && d0 < 64
    ensures (((top * 64 + d2) * 64 + d1) * 64 + d0) % 0x10_0000 == ((top % 4 * 64 + d2) * 64 + d1) * 64 + d0
  {
    Split(0x10_0000, ((top * 64 + d2) * 64 + d1) * 64 + d0, top / 4, ((top % 4 * 64 + d2) * 64 + d1) * 64 + d0);
  }

  /** Decoding undoes encoding up to the encoder's mask, for every sequence of code points. */
  lemma {:induction false} DecodeOfEncode(cs: seq<Rune>)
    ensures DecodeRunes(EncodeRunes(cs)) == Some(MaskedAll(cs))
  {
    if cs != [] {
      var e, tail := EncodeRune(cs[0]), EncodeRunes(cs[1..]);
      FirstRuneOfEncoding(cs[0], tail);
      assert (e + tail)[|e|..] == tail;
      DecodeOfEncode(cs[1..]);
    }
  }

  /** Exactly the code points below 2^20 survive a trip through the encoder and a decoder. */
  lemma {:induction false} RoundTrip(cs: seq<Rune>)
    ensures DecodeRunes(EncodeRunes(cs)) == Some(cs) <==> forall i | 0 <= i < |cs| :: cs[i] < 0x10_0000
  {
    DecodeOfEncode(cs);
    if forall i | 0 <= i < |cs| :: cs[i] < 0x10_0000 {
      forall i | 0 <= i < |cs| ensures Masked(cs[i]) == cs[i] {
        MaskKeeps(cs[i]);
      }
      assert MaskedAll(cs) == cs;
    } else {
      var i :| 0 <= i < |cs| && cs[i] >= 0x10_0000;
      MaskKeeps(cs[i]);
      assert MaskedAll(cs)[i] != cs[i];
    }
  }

  // ----- limonp's decoder and encoder

  /** On failure `vec` keeps the runes read before the bad byte; cppjieba's decoder clears them. */
  method Utf8ToUnicode32(str: seq<byte>) returns (ok: bool, vec: seq<Rune>)
    ensures ok <==> Decodable(str)
    ensures ok ==> DecodeRunes(str) == Some(vec)
  {
    vec := [];
    var i := 0;
    assert str[0..] == str;
    PrependNone(DecodeRunes(str));
    while i < |str|
      invariant 0 <= i <= |str|
      invariant DecodeRunes(str) == Prepend(vec, DecodeRunes(str[i..]))
    {
      var tmp: int;
      ghost var was, at := vec, i;
      if str[i] <= 0x7f {
        tmp := str[i];
        i := i + 1;
      } else if str[i] <= 0xdf && i + 1 < |str| {
        tmp := str[i] as int % 32;
        tmp := tmp * 64;
        tmp := tmp + str[i + 1] as int % 64;
        i := i + 2;
      } else if str[i] <= 0xef && i + 2 < |str| {
        tmp := str[i] as int % 16;
        tmp := tmp * 64;
        tmp := tmp + str[i + 1] as int % 64;
        tmp := tmp * 64;
        tmp := tmp + str[i + 2] as int % 64;
        i := i + 3;
      } else if str[i] <= 0xf7 && i + 3 < |str| {
        tmp := str[i] as int % 8;
        tmp := tmp * 64;
        tmp := tmp + str[i + 1] as int % 64;
        tmp := tmp * 64;
        tmp := tmp + str[i + 2] as int % 64;
        tmp := tmp * 64;
        tmp := tmp + str[i + 3] as int % 64;
        i := i + 4;
      } else {
        DecodeStep(str, i, vec, FirstRune(str[i..]));
        return false, vec;
      }
      vec := vec + [tmp];
      DecodeStep(str, at, was, RuneStrLite(tmp, i - at));
    }
    assert str[i..] == [];
    assert vec + [] == vec;
    return true, vec;
  }

  method Unicode32ToUtf8(cs: seq<Rune>) returns (res: seq<byte>)
    ensures res == EncodeRunes(cs)
  {
    res := [];
    var begin := 0;
    while begin != |cs|
      invariant 0 <= begin <= |cs|
      invariant EncodeRunes(cs) == res + EncodeRunes(cs[begin..])
      decreases |cs| - begin
    {
      var ui := cs[begin];
      ghost var was := res;
      if ui <= 0x7f {
        res := res + [ui];
      } else if ui <= 0x7ff {
        res := res + [Marked(Shr(ui, 1), 32, 0xc0)];
        res := res + [Marked(ui, 64, 0x80)];
      } else if ui <= 0xffff {
        res := res + [Marked(Shr(ui, 2), 16, 0xe0)];
        res := res + [Marked(Shr(ui, 1), 64, 0x80)];
        res := res + [Marked(ui, 64, 0x80)];
      } else {
        res := res + [Marked(Shr(ui, 3), 4, 0xf0)];
        res := res + [Marked(Shr(ui, 2), 64, 0x80)];
        res := res + [Marked(Shr(ui, 1), 64, 0x80)];
        res := res + [Marked(ui, 64, 0x80)];
      }
      AppendedRune(was, ui);
      EncodeStep(was, cs, begin);
      begin := begin + 1;
    }
  }

  /** Byte by byte or all at once. */
  lemma AppendedRune(was: seq<byte>, c: Rune)
    ensures var e := EncodeRune(c);
            was + e == if |e| == 1 then was + [e[0]]
                       else if |e| == 2 then was + [e[0]] + [e[1]]
                       else if |e| == 3 then was + [e[0]] + [e[1]] + [e[2]]
                       else was + [e[0]] + [e[1]] + [e[2]] + [e[3]]
  {
  }

  lemma EncodeStep(done: seq<byte>, cs: seq<Rune>, i: nat)
    requires i < |cs|
    ensures done + EncodeRunes(cs[i..]) == done + EncodeRune(cs[i]) + EncodeRunes(cs[i + 1..])
  {
    assert cs[i..][1..] == cs[i + 1..];
  }

  /** The two decoders, given the same bytes, agree on acceptance and on the runes. */
  method DecodersAgree(s: seq<byte>) returns (ok: bool, plain: seq<Rune>, placed: seq<RuneStr>)
    requires |s| < 0x1_0000_0000
    ensures ok <==> Decodable(s)
    ensures ok ==> plain == RunesOf(placed)
  {
    var ok2;
    ok, plain := Utf8ToUnicode32(s);
    ok2, placed := DecodeRunesInString(s);
    assert ok == ok2;
  }
}
