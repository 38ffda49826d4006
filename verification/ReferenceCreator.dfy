/**
  The inverted index behind fuzzy search: which dictionary positions hold which byte. It is built
  from the dictionary once, written to a text file, and read back on later starts.
 */
module ReferenceCreator {
  import opened Facts
  import opened Options
  import opened Unicode
  import opened EditDistance

  datatype Entry = Entry(word: Str, count: int)

  type Index = map<Str, set<int>>

  /** `!(word[0] >> 7)`; the first char of an empty string reads as NUL. */
  predicate IsEnglish(word: Str) { word == [] || word[0] < 0x80 }

  /** The string made of the char array `{c, '\0'}`. */
  function KeyOf(c: byte): (k: Str)
  {
    if c == 0 then [] else [c]
  }

  predicate HasKey(word: Str, key: Str) { exists j :: 0 <= j < |word| && KeyOf(word[j]) == key }

  /** The positions of the dictionary words that contain the byte of a key. */
  function Posting(dict: seq<Entry>, key: Str): (r: set<int>)
  {
    set i | 0 <= i < |dict| && HasKey(dict[i].word, key)
  }

  /** The index lists exactly the keys that occur, each with all positions where it occurs. */
  ghost predicate IsIndex(index: Index, dict: seq<Entry>)
  {
    forall key: Str :: Found(index, key) == Posting(dict, key) && (key in index ==> index[key] != {})
  }

  function Found(index: Index, key: Str): set<int> { if key in index then index[key] else {} }

  function AddPosition(index: Index, key: Str, p: int): (r: Index)
    ensures forall k :: Found(r, k) == if k == key then Found(index, key) + {p} else Found(index, k)
    ensures key in r && r.Keys == index.Keys + {key}
  {
    index[key := Found(index, key) + {p}]
  }

  // ----- the text format

  const SPACE: byte := 32
  const NEWLINE: byte := 10

  /** `isspace`: tab, newline, vertical tab, form feed, carriage return, space. */
  predicate IsSpace(c: byte) { 9 <= c <= 13 || c == SPACE }

  predicate IsDigit(c: byte) { 48 <= c <= 57 }

  function Decimal(n: nat): (s: Str)
    ensures s != [] && forall i | 0 <= i < |s| :: IsDigit(s[i])
  {
    if n < 10 then [48 + n] else Decimal(n / 10) + [48 + n % 10]
  }

  /** What a string of ASCII digits is worth to the base ten. */
  function ValueOf(s: Str): int
  {
    if s == [] then 0 else 10 * ValueOf(s[..|s| - 1]) + (s[|s| - 1] as int - '0' as int)
  }

  /** The digits of a number are worth that number, and the first is not a zero unless it is the only one. */
  lemma {:induction false} DecimalMeaning(n: nat)
    ensures ValueOf(Decimal(n)) == n
    ensures Decimal(n)[0] == '0' as int ==> n == 0 && |Decimal(n)| == 1
  {
    if n >= 10 {
      var s := Decimal(n);
      DecimalMeaning(n / 10);
      assert s[..|s| - 1] == Decimal(n / 10);
    } else {
      assert Decimal(n)[..0] == [];
    }
  }

  function Print(p: int): (s: Str)
  {
    if p < 0 then [45] + Decimal(-p) else Decimal(p)
  }

  function PrintAll(ps: seq<int>): (s: Str)
  {
    if ps == [] then [] else [SPACE] + Print(ps[0]) + PrintAll(ps[1..])
  }

  datatype Line = Line(key: Str, positions: seq<int>)

  function PrintLine(line: Line): (s: Str) { line.key + PrintAll(line.positions) }

  function PrintFile(lines: seq<Line>): (s: Str)
  {
    if lines == [] then [] else PrintLine(lines[0]) + [NEWLINE] + PrintFile(lines[1..])
  }

  /** In ASCII: the key `a` at the positions 0, 12 and -3 is the line `a 0 12 -3`, with a newline behind it. */
  lemma PrintedLine()
    ensures PrintFile([Line(['a' as int], [0, 12, -3])])
         == ['a' as int, 0x20, '0' as int, 0x20, '1' as int, '2' as int, 0x20, '-' as int, '3' as int, 0x0a]
  {
  }

  /** The lines list the index in some order: every key once, with its positions in some order. */
  ghost predicate Lists(lines: seq<Line>, index: Index)
  {
    && (forall i, j | 0 <= i < j < |lines| :: lines[i].key != lines[j].key)
    && (forall key | key in index :: exists i :: 0 <= i < |lines| && lines[i].key == key)
    && (forall i | 0 <= i < |lines| ::
          lines[i].key in index && index[lines[i].key] == set p | p in lines[i].positions)
  }

  // ----- how a stream reads it back

  function SkipSpaces(s: Str): (r: Str)
    ensures |r| <= |s| && (r != [] ==> !IsSpace(r[0]))
  {
    if s != [] && IsSpace(s[0]) then SkipSpaces(s[1..]) else s
  }

  /** The longest prefix without white space, and the rest. */
  function WordLength(s: Str): (n: nat)
    ensures n <= |s|
    ensures forall i | 0 <= i < n :: !IsSpace(s[i])
    ensures n < |s| ==> IsSpace(s[n])
  {
    if s == [] || IsSpace(s[0]) then 0 else 1 + WordLength(s[1..])
  }

  datatype Digits = Digits(value: nat, rest: Str)

  function ReadDigits(s: Str, acc: nat): (r: Digits)
    ensures |r.rest| <= |s|
  {
    if s != [] && IsDigit(s[0]) then ReadDigits(s[1..], acc * 10 + (s[0] as int - 48)) else Digits(acc, s)
  }

  datatype Number = Number(value: int, rest: Str)

  predicate FitsInt(v: int) { -0x8000_0000 <= v < 0x8000_0000 }

  /** `stream >> int`: white space, an optional sign, digits, and a value that fits 32 bits. */
  function ReadInt(s: Str): (r: Option<Number>)
    ensures r.Some? ==> |r.value.rest| < |s| && FitsInt(r.value.value)
  {
    var t := SkipSpaces(s);
    var signed := t != [] && (t[0] == 43 || t[0] == 45);
    var u := if signed then t[1..] else t;
    if u == [] || !IsDigit(u[0]) then None
    else
      var d := ReadDigits(u[1..], u[0] as int - 48);
      var v := if signed && t[0] == 45 then -(d.value as int) else d.value;
      if FitsInt(v) then Some(Number(v, d.rest)) else None
  }

  function ReadPositions(s: Str, key: Str, index: Index): (r: Index)
    decreases |s|
  {
    var n := ReadInt(s);
    if n.None? then index else ReadPositions(n.value.rest, key, AddPosition(index, key, n.value.value))
  }

  function ReadLine(line: Str, index: Index): (r: Index)
  {
    var s := SkipSpaces(line);
    if s == [] then index else ReadPositions(s[WordLength(s)..], s[..WordLength(s)], index)
  }

  function LineLength(s: Str): (n: nat)
    ensures n <= |s| && (n < |s| ==> s[n] == NEWLINE)
    ensures forall i | 0 <= i < n :: s[i] != NEWLINE
  {
    if s == [] || s[0] == NEWLINE then 0 else 1 + LineLength(s[1..])
  }

  function AfterLine(s: Str): (r: Str)
    ensures s != [] ==> |r| < |s|
  {
    if LineLength(s) < |s| then s[LineLength(s) + 1..] else []
  }

  function ReadFile(s: Str, index: Index): (r: Index)
    decreases |s|
  {
    if s == [] then index else ReadFile(AfterLine(s), ReadLine(s[..LineLength(s)], index))
  }

  // ----- the class

  class RefFileCreator {
    var dict: seq<Entry>
    var index: Index

    constructor (dict: seq<Entry>)
      ensures this.dict == dict && index == map[]
    {
      this.dict := dict;
      index := map[];
    }

    /** The branch for words that start with an ASCII byte. */
    method SetRef()
      requires index == map[] && forall i | 0 <= i < |dict| :: IsEnglish(dict[i].word)
      modifies this`index
      ensures IsIndex(index, dict)
    {
      for i := 0 to |dict|
        invariant IsIndex(index, dict[..i])
      {
        var word := dict[i].word;
        for j := 0 to |word|
          invariant IsIndex(index, dict[..i] + [Entry(word[..j], 0)])
        {
          ghost var before := index;
          index := AddPosition(index, KeyOf(word[j]), i);
          OneMoreByte(before, index, dict[..i], word, j);
        }
        SameWords(index, dict[..i] + [Entry(word[..|word|], 0)], dict[..i + 1]);
      }
      assert dict[..|dict|] == dict;
    }

    /** The lines may come in any order; the map iterates in one the standard does not fix. */
    method WriteRef(lines: seq<Line>) returns (text: Str)
      requires Lists(lines, index)
      ensures text == PrintFile(lines)
    {
      text := WriteLines(lines);
    }

    /** The loop of `WriteRef`. */
    method WriteLines(lines: seq<Line>) returns (text: Str)
      ensures text == PrintFile(lines)
    {
      text := [];
      for i := 0 to |lines|
        invariant text == PrintFile(lines[..i])
      {
        PrintNext(lines, i);
        text := WriteLine(text, lines[i]);
      }
      assert lines[..|lines|] == lines;
    }

    method WriteLine(text: Str, line: Line) returns (text': Str)
      ensures text' == text + PrintLine(line) + [NEWLINE]
    {
      text' := WritePositions(text + line.key, line.positions);
      text' := text' + [NEWLINE];
    }

    method WritePositions(ofs: Str, positions: seq<int>) returns (ofs': Str)
      ensures ofs' == ofs + PrintAll(positions)
    {
      ofs' := ofs;
      for j := 0 to |positions|
        invariant ofs' + PrintAll(positions[j..]) == ofs + PrintAll(positions)
      {
        Regroup(ofs', [SPACE] + Print(positions[j]), PrintAll(positions[j + 1..]));
        Regroup(ofs', [SPACE], Print(positions[j]));
        ofs' := ofs' + [SPACE] + Print(positions[j]);
      }
      assert ofs' + [] == ofs';
    }

    method ReadRef(text: Str)
      modifies this`index
      ensures index == ReadFile(text, old(index))
    {
      var rest := text;
      while rest != []
        invariant ReadFile(rest, index) == ReadFile(text, old(index))
        decreases |rest|
      {
        var line := rest[..LineLength(rest)];
        ghost var before := index;
        rest := AfterLine(rest);
        var s := SkipSpaces(line);
        if s != [] {
          var word := s[..WordLength(s)];
          s := s[WordLength(s)..];
          while true
            invariant ReadPositions(s, word, index) == ReadLine(line, before)
            decreases |s|
          {
            var n := ReadInt(s);
            if n.None? {
              break;
            }
            index := AddPosition(index, word, n.value.value);
            s := n.value.rest;
          }
        }
      }
    }
  }

  lemma {:induction false} PrintOneMore(lines: seq<Line>, line: Line)
    ensures PrintFile(lines + [line]) == PrintFile(lines) + PrintLine(line) + [NEWLINE]
  {
    var last := PrintLine(line) + [NEWLINE];
    assert PrintFile([line]) == last + [];
    if lines == [] {
      assert lines + [line] == [line];
      assert [] + PrintLine(line) == PrintLine(line);
    } else {
      var first := PrintLine(lines[0]) + [NEWLINE];
      PrintOneMore(lines[1..], line);
      assert (lines + [line])[1..] == lines[1..] + [line];
      Regroup(PrintFile(lines[1..]), PrintLine(line), [NEWLINE]);
      Regroup(first, PrintFile(lines[1..]), last);
      Regroup(PrintFile(lines), PrintLine(line), [NEWLINE]);
    }
  }

  lemma PrintLast(all: seq<Line>, init: seq<Line>, last: Line)
    requires all == init + [last]
    ensures PrintFile(all) == PrintFile(init) + PrintLine(last) + [NEWLINE]
  {
    PrintOneMore(init, last);
  }

  lemma PrintNext(lines: seq<Line>, i: nat)
    requires i < |lines|
    ensures PrintFile(lines[..i + 1]) == PrintFile(lines[..i]) + PrintLine(lines[i]) + [NEWLINE]
  {
    PrintLast(lines[..i + 1], lines[..i], lines[i]);
  }

  lemma SameWords(index: Index, a: seq<Entry>, b: seq<Entry>)
    requires IsIndex(index, a) && |a| == |b| && forall i | 0 <= i < |a| :: a[i].word == b[i].word
    ensures IsIndex(index, b)
  {
    forall key: Str ensures Posting(a, key) == Posting(b, key) {
    }
  }

  lemma HasKeyOneMore(word: Str, j: nat, key: Str)
    requires j < |word|
    ensures HasKey(word[..j + 1], key) <==> HasKey(word[..j], key) || KeyOf(word[j]) == key
  {
    var a, b := word[..j], word[..j + 1];
    assert b[j] == word[j];
    if k :| 0 <= k < |a| && KeyOf(a[k]) == key {
      assert b[k] == a[k];
    }
    if k :| 0 <= k < |b| && KeyOf(b[k]) == key {
      assert k == j || a[k] == b[k];
    }
  }

  lemma PostingOneMore(dict: seq<Entry>, e: Entry, key: Str)
    ensures Posting(dict + [e], key) == Posting(dict, key) + if HasKey(e.word, key) then {|dict|} else {}
  {
    var all := dict + [e];
    assert all[|dict|] == e && forall i | 0 <= i < |dict| :: all[i] == dict[i];
  }

  lemma OneMoreByte(before: Index, after: Index, done: seq<Entry>, word: Str, j: nat)
    requires j < |word| && IsIndex(before, done + [Entry(word[..j], 0)])
    requires after == AddPosition(before, KeyOf(word[j]), |done|)
    ensures IsIndex(after, done + [Entry(word[..j + 1], 0)])
  {
    var a, b := Entry(word[..j], 0), Entry(word[..j + 1], 0);
    forall key: Str
      ensures Found(after, key) == Posting(done + [b], key) && (key in after ==> after[key] != {})
    {
      assert Found(before, key) == Posting(done + [a], key) && (key in before ==> before[key] != {});
      PostingOneMore(done, a, key);
      PostingOneMore(done, b, key);
      HasKeyOneMore(word, j, key);
    }
  }

  // ----- round trip

  /** What a reader can produce: whole words as keys, each with at least one 32-bit position. */
  ghost predicate Clean(index: Index)
  {
    forall key | key in index ::
      && key != [] && (forall i | 0 <= i < |key| :: !IsSpace(key[i]))
      && index[key] != {} && forall p | p in index[key] :: FitsInt(p)
  }

  lemma {:induction false} ReadPositionsClean(s: Str, key: Str, index: Index)
    requires Clean(index) && key != [] && forall i | 0 <= i < |key| :: !IsSpace(key[i])
    ensures Clean(ReadPositions(s, key, index))
    decreases |s|
  {
    var n := ReadInt(s);
    if n.Some? {
      var next := AddPosition(index, key, n.value.value);
      assert n.value.value in next[key];
      ReadPositionsClean(n.value.rest, key, next);
    }
  }

  lemma {:induction false} ReadFileClean(s: Str, index: Index)
    requires Clean(index)
    ensures Clean(ReadFile(s, index))
    decreases |s|
  {
    if s != [] {
      var line := s[..LineLength(s)];
      var t := SkipSpaces(line);
      if t != [] {
        ReadPositionsClean(t[WordLength(t)..], t[..WordLength(t)], index);
      }
      ReadFileClean(AfterLine(s), ReadLine(line, index));
    }
  }

  lemma {:induction false} ReadDecimal(n: nat, tail: Str)
    ensures var s := Decimal(n) + tail;
            ReadDigits(s[1..], s[0] as int - 48) == ReadDigits(tail, n)
  {
    if n < 10 {
      assert ([48 + n] + tail)[1..] == tail;
    } else {
      var d := [48 + n % 10];
      ReadDecimal(n / 10, d + tail);
      assert Decimal(n) + tail == Decimal(n / 10) + (d + tail);
      assert (d + tail)[1..] == tail;
    }
  }

  lemma DigitsStop(tail: Str, n: nat)
    requires tail == [] || tail[0] == SPACE
    ensures ReadDigits(tail, n) == Digits(n, tail)
  {
  }

  lemma ReadSigned(u: Str, n: nat, tail: Str)
    requires u != [] && IsDigit(u[0]) && ReadDigits(u[1..], u[0] as int - 48) == Digits(n, tail)
    requires FitsInt(-(n as int))
    ensures ReadInt([45] + u) == Some(Number(-(n as int), tail))
  {
    var s := [45] + u;
    assert SkipSpaces(s) == s && s[1..] == u;
  }

  lemma ReadUnsigned(u: Str, n: nat, tail: Str)
    requires u != [] && IsDigit(u[0]) && ReadDigits(u[1..], u[0] as int - 48) == Digits(n, tail)
    requires FitsInt(n)
    ensures ReadInt(u) == Some(Number(n, tail))
  {
    assert SkipSpaces(u) == u;
  }

  lemma ReadDigitsOf(n: nat, tail: Str)
    requires tail == [] || tail[0] == SPACE
    ensures var u := Decimal(n) + tail;
            u != [] && IsDigit(u[0]) && ReadDigits(u[1..], u[0] as int - 48) == Digits(n, tail)
  {
    ReadDecimal(n, tail);
    DigitsStop(tail, n);
  }

  lemma ReadNegative(p: int, tail: Str)
    requires FitsInt(p) && p < 0 && (tail == [] || tail[0] == SPACE)
    ensures ReadInt(Print(p) + tail) == Some(Number(p, tail))
  {
    ReadDigitsOf(-p, tail);
    ReadSigned(Decimal(-p) + tail, -p, tail);
    Regroup([45], Decimal(-p), tail);
  }

  lemma ReadNonNegative(p: int, tail: Str)
    requires FitsInt(p) && p >= 0 && (tail == [] || tail[0] == SPACE)
    ensures ReadInt(Print(p) + tail) == Some(Number(p, tail))
  {
    ReadDigitsOf(p, tail);
    ReadUnsigned(Decimal(p) + tail, p, tail);
  }

  lemma PrintStarts(p: int)
    ensures Print(p) != [] && !IsSpace(Print(p)[0])
  {
  }

  /** White space in front of a number makes no difference. */
  lemma SkipOne(t: Str)
    requires t != [] && !IsSpace(t[0])
    ensures ReadInt([SPACE] + t) == ReadInt(t)
  {
    var s := [SPACE] + t;
    assert s[0] == SPACE && s[1..] == t;
    assert SkipSpaces(t) == t;
    assert SkipSpaces(s) == SkipSpaces(s[1..]);
  }

  /** A space, a printed number and then a space or the end of the line read as that number. */
  lemma ReadPrinted(p: int, tail: Str)
    requires FitsInt(p) && (tail == [] || tail[0] == SPACE)
    ensures ReadInt([SPACE] + Print(p) + tail) == Some(Number(p, tail))
  {
    if p < 0 {
      ReadNegative(p, tail);
    } else {
      ReadNonNegative(p, tail);
    }
    PrintStarts(p);
    SkipOne(Print(p) + tail);
    Regroup([SPACE], Print(p), tail);
  }

  function AddPositions(index: Index, key: Str, ps: seq<int>): (r: Index)
    decreases |ps|
  {
    if ps == [] then index else AddPositions(AddPosition(index, key, ps[0]), key, ps[1..])
  }

  lemma {:induction false} ReadPrintedAll(ps: seq<int>, key: Str, index: Index)
    requires forall i | 0 <= i < |ps| :: FitsInt(ps[i])
    ensures ReadPositions(PrintAll(ps), key, index) == AddPositions(index, key, ps)
    decreases |ps|
  {
    if ps != [] {
      StartsWithSpace(ps[1..]);
      ReadPrinted(ps[0], PrintAll(ps[1..]));
      ReadPrintedAll(ps[1..], key, AddPosition(index, key, ps[0]));
    }
  }

  lemma StartsWithSpace(ps: seq<int>)
    ensures PrintAll(ps) == [] || PrintAll(ps)[0] == SPACE
  {
  }

  lemma {:induction false} WordLengthOf(key: Str, tail: Str)
    requires forall i | 0 <= i < |key| :: !IsSpace(key[i])
    requires tail == [] || IsSpace(tail[0])
    ensures WordLength(key + tail) == |key|
  {
    if key == [] {
      assert key + tail == tail;
    } else {
      assert (key + tail)[1..] == key[1..] + tail;
      WordLengthOf(key[1..], tail);
    }
  }

  lemma ReadPrintedLine(line: Line, index: Index)
    requires line.key != [] && forall i | 0 <= i < |line.key| :: !IsSpace(line.key[i])
    requires forall i | 0 <= i < |line.positions| :: FitsInt(line.positions[i])
    ensures ReadLine(PrintLine(line), index) == AddPositions(index, line.key, line.positions)
  {
    var s := PrintLine(line);
    assert s[0] == line.key[0];
    assert SkipSpaces(s) == s;
    StartsWithSpace(line.positions);
    WordLengthOf(line.key, PrintAll(line.positions));
    assert s[..|line.key|] == line.key && s[|line.key|..] == PrintAll(line.positions);
    ReadPrintedAll(line.positions, line.key, index);
  }

  lemma {:induction false} NoNewlineIn(ps: seq<int>)
    ensures forall i | 0 <= i < |PrintAll(ps)| :: PrintAll(ps)[i] != NEWLINE
  {
    if ps != [] {
      NoNewlineIn(ps[1..]);
    }
  }

  lemma {:induction false} LineLengthOf(line: Str, tail: Str)
    requires forall i | 0 <= i < |line| :: line[i] != NEWLINE
    ensures LineLength(line + [NEWLINE] + tail) == |line|
  {
    var s := line + [NEWLINE] + tail;
    if line != [] {
      assert s[1..] == line[1..] + [NEWLINE] + tail;
      LineLengthOf(line[1..], tail);
    }
  }

  ghost predicate GoodLines(lines: seq<Line>)
  {
    forall i | 0 <= i < |lines| ::
      && lines[i].key != [] && (forall j | 0 <= j < |lines[i].key| :: !IsSpace(lines[i].key[j]))
      && forall j | 0 <= j < |lines[i].positions| :: FitsInt(lines[i].positions[j])
  }

  function ReadLines(lines: seq<Line>, index: Index): (r: Index)
  {
    if lines == [] then index
    else ReadLines(lines[1..], AddPositions(index, lines[0].key, lines[0].positions))
  }

  lemma {:induction false} ReadPrintedFile(lines: seq<Line>, index: Index)
    requires GoodLines(lines)
    ensures ReadFile(PrintFile(lines), index) == ReadLines(lines, index)
    decreases |lines|
  {
    if lines != [] {
      var first, tail := PrintLine(lines[0]), PrintFile(lines[1..]);
      var s := first + [NEWLINE] + tail;
      NoNewlineIn(lines[0].positions);
      LineLengthOf(first, tail);
      assert s[..|first|] == first && s[|first| + 1..] == tail;
      ReadPrintedLine(lines[0], index);
      ReadPrintedFile(lines[1..], AddPositions(index, lines[0].key, lines[0].positions));
    }
  }

  lemma {:induction false} AddPositionsFound(index: Index, key: Str, ps: seq<int>)
    ensures var r := AddPositions(index, key, ps);
            && (forall k :: Found(r, k) == if k == key then Found(index, key) + (set p | p in ps) else Found(index, k))
            && r.Keys == if ps == [] then index.Keys else index.Keys + {key}
    decreases |ps|
  {
    if ps != [] {
      var next := AddPosition(index, key, ps[0]);
      AddPositionsFound(next, key, ps[1..]);
      assert (set p | p in ps) == {ps[0]} + set p | p in ps[1..];
      assert Found(next, key) == Found(index, key) + {ps[0]};
    }
  }

  /** The positions the lines give for a key. */
  ghost function Listed(lines: seq<Line>, key: Str): (r: set<int>)
  {
    if lines == [] then {}
    else (if lines[0].key == key then set p | p in lines[0].positions else {}) + Listed(lines[1..], key)
  }

  lemma {:induction false} ReadLinesFound(lines: seq<Line>, index: Index, key: Str)
    requires forall i | 0 <= i < |lines| :: lines[i].positions != []
    ensures Found(ReadLines(lines, index), key) == Found(index, key) + Listed(lines, key)
    ensures key in ReadLines(lines, index) <==> key in index || InLines(lines, key)
    decreases |lines|
  {
    if lines != [] {
      var next := AddPositions(index, lines[0].key, lines[0].positions);
      AddPositionsFound(index, lines[0].key, lines[0].positions);
      ReadLinesFound(lines[1..], next, key);
      InLinesCons(lines, key);
    }
  }

  ghost predicate InLines(lines: seq<Line>, key: Str)
  {
    exists i :: 0 <= i < |lines| && lines[i].key == key
  }

  lemma InLinesCons(lines: seq<Line>, key: Str)
    requires lines != []
    ensures InLines(lines, key) <==> lines[0].key == key || InLines(lines[1..], key)
  {
    if i :| 0 <= i < |lines[1..]| && lines[1..][i].key == key {
      assert lines[i + 1].key == key;
    }
    if i :| 0 < i < |lines| && lines[i].key == key {
      assert lines[1..][i - 1].key == key;
    }
  }

  lemma {:induction false} ListedOnce(lines: seq<Line>, i: nat)
    requires i < |lines| && forall a, b | 0 <= a < b < |lines| :: lines[a].key != lines[b].key
    ensures Listed(lines, lines[i].key) == set p | p in lines[i].positions
    decreases |lines|
  {
    if i > 0 {
      ListedOnce(lines[1..], i - 1);
    } else {
      NotListed(lines[1..], lines[0].key);
    }
  }

  lemma {:induction false} NotListed(lines: seq<Line>, key: Str)
    requires forall i | 0 <= i < |lines| :: lines[i].key != key
    ensures Listed(lines, key) == {}
  {
    if lines != [] {
      NotListed(lines[1..], key);
    }
  }

  /** Reading back what was written rebuilds the index, if and only if a reader could have made it. */
  lemma RoundTrip(lines: seq<Line>, index: Index)
    requires Lists(lines, index)
    ensures ReadFile(PrintFile(lines), map[]) == index <==> Clean(index)
  {
    ReadFileClean(PrintFile(lines), map[]);
    if Clean(index) {
      CleanRoundTrip(lines, index);
    }
  }

  lemma CleanLines(lines: seq<Line>, index: Index, i: nat)
    requires Lists(lines, index) && Clean(index) && i < |lines|
    ensures lines[i].positions != [] && forall j | 0 <= j < |lines[i].positions| :: FitsInt(lines[i].positions[j])
    ensures lines[i].key != [] && forall j | 0 <= j < |lines[i].key| :: !IsSpace(lines[i].key[j])
  {
    var key := lines[i].key;
    assert index[key] == set p | p in lines[i].positions;
    assert forall j | 0 <= j < |lines[i].positions| :: lines[i].positions[j] in index[key];
  }

  lemma ListedIsFound(lines: seq<Line>, index: Index, key: Str)
    requires Lists(lines, index)
    ensures Listed(lines, key) == Found(index, key) && (InLines(lines, key) <==> key in index)
  {
    if key in index {
      var i :| 0 <= i < |lines| && lines[i].key == key;
      ListedOnce(lines, i);
    } else {
      NotListed(lines, key);
    }
  }

  lemma ReadBackFound(lines: seq<Line>, index: Index, key: Str)
    requires Lists(lines, index) && forall i | 0 <= i < |lines| :: lines[i].positions != []
    ensures var r := ReadLines(lines, map[]);
            Found(r, key) == Found(index, key) && (key in r <==> key in index)
  {
    ReadLinesFound(lines, map[], key);
    ListedIsFound(lines, index, key);
  }

  lemma CleanRoundTrip(lines: seq<Line>, index: Index)
    requires Lists(lines, index) && Clean(index)
    ensures ReadFile(PrintFile(lines), map[]) == index
  {
    forall i | 0 <= i < |lines|
      ensures lines[i].positions != [] && forall j | 0 <= j < |lines[i].positions| :: FitsInt(lines[i].positions[j])
      ensures lines[i].key != [] && forall j | 0 <= j < |lines[i].key| :: !IsSpace(lines[i].key[j])
    {
      CleanLines(lines, index, i);
    }
    ReadPrintedFile(lines, map[]);
    forall key: Str ensures var r := ReadLines(lines, map[]);
                            Found(r, key) == Found(index, key) && (key in r <==> key in index) {
      ReadBackFound(lines, index, key);
    }
    SameIndex(ReadLines(lines, map[]), index);
  }

  lemma SameIndex(a: Index, b: Index)
    requires forall key :: Found(a, key) == Found(b, key) && (key in a <==> key in b)
    ensures a == b
  {
    forall key | key in a ensures a[key] == b[key] {
      assert Found(a, key) == Found(b, key);
    }
  }

  /** An index of words without white space and NUL bytes survives the file. */
  lemma IndexIsClean(index: Index, dict: seq<Entry>)
    requires IsIndex(index, dict) && |dict| < 0x8000_0000
    requires forall i, j | 0 <= i < |dict| && 0 <= j < |dict[i].word| ::
               dict[i].word[j] != 0 && !IsSpace(dict[i].word[j])
    ensures Clean(index)
  {
    forall key | key in index
      ensures key != [] && (forall i | 0 <= i < |key| :: !IsSpace(key[i]))
      ensures index[key] != {} && forall p | p in index[key] :: FitsInt(p)
    {
      assert Found(index, key) == Posting(dict, key);
      var p :| p in index[key];
      assert HasKey(dict[p].word, key);
    }
  }
}
