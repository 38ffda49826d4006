/**
  The simple regular expressions of Google Test, used where the platform offers none. A pattern is a
  list of atoms, each with an optional repetition, between an optional `^` and an optional `$`.
 */
module SimpleRegex {
  import opened Facts
  import opened Options

  /** What a terminated character array can hold. */
  predicate NulFree(s: string)
  {
    '\0' !in s
  }

  /** Reading a terminated array: the terminator stands behind the last character. */
  function At(s: string, i: nat): char
  {
    if i < |s| then s[i] else '\0'
  }

  // ----- character classes

  predicate IsInSet(ch: char, str: set<char>)
  {
    ch in str
  }

  predicate IsAsciiDigit(ch: char) { '0' <= ch <= '9' }

  predicate IsAsciiPunct(ch: char)
  {
    IsInSet(ch, {'^', '-', '!', '"', '#', '$', '%', '&', '\'', '(', ')', '*', '+', ',', '.', '/', ':', ';', '<',
                 '=', '>', '?', '@', '[', '\\', ']', '_', '`', '{', '|', '}', '~'})
  }

  predicate IsRepeat(ch: char) { IsInSet(ch, {'?', '*', '+'}) }

  const FORM_FEED := '\U{000C}'
  const VERTICAL_TAB := '\U{000B}'

  predicate IsAsciiWhiteSpace(ch: char)
  {
    IsInSet(ch, {' ', FORM_FEED, '\n', '\r', '\t', VERTICAL_TAB})
  }

  predicate IsAsciiWordChar(ch: char)
  {
    'a' <= ch <= 'z' || 'A' <= ch <= 'Z' || '0' <= ch <= '9' || ch == '_'
  }

  predicate IsValidEscape(c: char)
  {
    IsAsciiPunct(c) || IsInSet(c, {'d', 'D', 'f', 'n', 'r', 's', 'S', 't', 'v', 'w', 'W'})
  }

  predicate AtomMatchesChar(escaped: bool, c: char, ch: char)
  {
    if escaped then
      if c == 'd' then IsAsciiDigit(ch)
      else if c == 'D' then !IsAsciiDigit(ch)
      else if c == 'f' then ch == FORM_FEED
      else if c == 'n' then ch == '\n'
      else if c == 'r' then ch == '\r'
      else if c == 's' then IsAsciiWhiteSpace(ch)
      else if c == 'S' then !IsAsciiWhiteSpace(ch)
      else if c == 't' then ch == '\t'
      else if c == 'v' then ch == VERTICAL_TAB
      else if c == 'w' then IsAsciiWordChar(ch)
      else if c == 'W' then !IsAsciiWordChar(ch)
      else IsAsciiPunct(c) && c == ch
    else
      (c == '.' && ch != '\n') || c == ch
  }

  /** ASCII punctuation by code. */
  predicate IsPunctCode(n: int) { 33 <= n <= 47 || 58 <= n <= 64 || 91 <= n <= 96 || 123 <= n <= 126 }

  lemma PunctByCode(ch: char)
    ensures IsAsciiPunct(ch) <==> IsPunctCode(ch as int)
  {
  }

  /** What an atom without a backslash accepts: the dot everything but a newline, others themselves. */
  lemma PlainByCode(c: char, ch: char)
    ensures AtomMatchesChar(false, '.', ch) <==> ch as int != 10
    ensures c as int != 46 ==> (AtomMatchesChar(false, c, ch) <==> c == ch)
  {
  }

  /** The escapes for classes: digits, white space and word characters, and their complements. */
  lemma ClassEscapesByCode(ch: char)
    ensures var n := ch as int;
            && (AtomMatchesChar(true, 'd', ch) <==> 48 <= n <= 57)
            && (AtomMatchesChar(true, 's', ch) <==> 9 <= n <= 13 || n == 32)
            && (AtomMatchesChar(true, 'w', ch) <==> 48 <= n <= 57 || 65 <= n <= 90 || n == 95 || 97 <= n <= 122)
    ensures AtomMatchesChar(true, 'D', ch) <==> !AtomMatchesChar(true, 'd', ch)
    ensures AtomMatchesChar(true, 'S', ch) <==> !AtomMatchesChar(true, 's', ch)
    ensures AtomMatchesChar(true, 'W', ch) <==> !AtomMatchesChar(true, 'w', ch)
  {
  }

  /** The escapes for control characters: tab, newline, vertical tab, form feed and carriage return. */
  lemma ControlEscapesByCode(ch: char)
    ensures var n := ch as int;
            && (AtomMatchesChar(true, 't', ch) <==> n == 9)
            && (AtomMatchesChar(true, 'n', ch) <==> n == 10)
            && (AtomMatchesChar(true, 'v', ch) <==> n == 11)
            && (AtomMatchesChar(true, 'f', ch) <==> n == 12)
            && (AtomMatchesChar(true, 'r', ch) <==> n == 13)
  {
  }

  /** Every other escape stands for itself if it is punctuation and else for nothing. */
  lemma OtherEscapesByCode(c: char, ch: char)
    requires c !in {'d', 'D', 's', 'S', 'w', 'W', 't', 'n', 'v', 'f', 'r'}
    ensures AtomMatchesChar(true, c, ch) <==> c == ch && IsPunctCode(c as int)
  {
    PunctByCode(c);
  }

  // ----- patterns as trees

  datatype Piece = Piece(escaped: bool, c: char, repeat: Option<char>)

  /** What may follow the optional `^`. */
  datatype Tail = Tail(pieces: seq<Piece>, eol: bool)

  datatype Pattern = Pattern(bol: bool, tail: Tail)

  predicate LegalAtom(escaped: bool, c: char)
  {
    if escaped then IsValidEscape(c)
    else c !in {'\0', '\\', '^', '$', '(', ')', '[', ']', '{', '}', '|', '?', '*', '+'}
  }

  /** By code: punctuation and `dDfnrsStvwW` may be escaped; all but NUL and `\^$()[]{}|?*+` may stand alone. */
  lemma LegalByCode(c: char)
    ensures LegalAtom(true, c) <==>
              IsPunctCode(c as int) || c as int in {68, 83, 87, 100, 102, 110, 114, 115, 116, 118, 119}
    ensures LegalAtom(false, c) <==>
              c as int !in {0, 36, 40, 41, 42, 43, 63, 91, 92, 93, 94, 123, 124, 125}
    ensures IsRepeat(c) <==> c as int in {42, 43, 63}
  {
    PunctByCode(c);
  }

  predicate LegalPiece(p: Piece)
  {
    LegalAtom(p.escaped, p.c) && (p.repeat.Some? ==> IsRepeat(p.repeat.value))
  }

  predicate Legal(t: Tail)
  {
    forall k | 0 <= k < |t.pieces| :: LegalPiece(t.pieces[k])
  }

  function PrintPiece(p: Piece): (s: string)
    ensures |s| >= 1
  {
    (if p.escaped then "\\" else "") + [p.c] + (if p.repeat.Some? then [p.repeat.value] else "")
  }

  function PrintTail(t: Tail): string
    decreases |t.pieces|
  {
    if t.pieces == [] then (if t.eol then "$" else "")
    else PrintPiece(t.pieces[0]) + PrintTail(Tail(t.pieces[1..], t.eol))
  }

  function Print(p: Pattern): string
  {
    (if p.bol then "^" else "") + PrintTail(p.tail)
  }

  // ----- reading a pattern

  /** The first piece of a text and how many characters it takes. */
  function ParsePiece(r: string): (p: Option<(Piece, nat)>)
    requires r != ""
    ensures p.Some? ==> 1 <= p.value.1 <= |r|
  {
    var escaped := r[0] == '\\';
    var k := if escaped then 1 else 0;
    if k >= |r| || !LegalAtom(escaped, r[k]) then None
    else if k + 1 < |r| && IsRepeat(r[k + 1]) then Some((Piece(escaped, r[k], Some(r[k + 1])), k + 2))
    else Some((Piece(escaped, r[k], None), k + 1))
  }

  function ParseTail(r: string): Option<Tail>
  {
    if r == "" then Some(Tail([], false))
    else if r == "$" then Some(Tail([], true))
    else
      var p := ParsePiece(r);
      if p.None? then None
      else
        var t := ParseTail(r[p.value.1..]);
        if t.None? then None else Some(Tail([p.value.0] + t.value.pieces, t.value.eol))
  }

  function Parse(r: string): Option<Pattern>
  {
    var bol := r != "" && r[0] == '^';
    var t := ParseTail(if bol then r[1..] else r);
    if t.None? then None else Some(Pattern(bol, t.value))
  }

  /** No legal text goes on with a repetition or a caret. */
  lemma PrintedHead(t: Tail)
    requires Legal(t) && PrintTail(t) != ""
    ensures !IsRepeat(PrintTail(t)[0]) && PrintTail(t)[0] != '^'
  {
    if t.pieces != [] {
      assert LegalPiece(t.pieces[0]);
    }
  }

  lemma ParsePieceOfPrint(p: Piece, rest: string)
    requires LegalPiece(p) && (rest != "" ==> !IsRepeat(rest[0]))
    ensures ParsePiece(PrintPiece(p) + rest) == Some((p, |PrintPiece(p)|))
  {
  }

  lemma PieceIsNotDollar(p: Piece, rest: string)
    requires LegalPiece(p)
    ensures PrintPiece(p) + rest != "$"
  {
    assert (PrintPiece(p) + rest)[0] == PrintPiece(p)[0];
  }

  lemma {:induction false} ParseTailOfPrint(t: Tail)
    requires Legal(t)
    ensures ParseTail(PrintTail(t)) == Some(t)
    decreases |t.pieces|
  {
    if t.pieces != [] {
      var p, rest := t.pieces[0], Tail(t.pieces[1..], t.eol);
      assert Legal(rest);
      ParseTailOfPrint(rest);
      if PrintTail(rest) != "" {
        PrintedHead(rest);
      }
      ParsePieceOfPrint(p, PrintTail(rest));
      PieceIsNotDollar(p, PrintTail(rest));
      assert (PrintPiece(p) + PrintTail(rest))[|PrintPiece(p)|..] == PrintTail(rest);
      assert [p] + rest.pieces == t.pieces;
    }
  }

  lemma PrintPieceOfParse(r: string)
    requires r != "" && ParsePiece(r).Some?
    ensures var (p, n) := ParsePiece(r).value; LegalPiece(p) && PrintPiece(p) == r[..n]
  {
  }

  lemma PutBack(p: Piece, rest: Tail, r: string, n: nat)
    requires n <= |r| && LegalPiece(p) && Legal(rest) && PrintPiece(p) == r[..n] && PrintTail(rest) == r[n..]
    ensures var t := Tail([p] + rest.pieces, rest.eol); Legal(t) && PrintTail(t) == r
  {
    assert ([p] + rest.pieces)[1..] == rest.pieces;
    assert r == r[..n] + r[n..];
  }

  lemma {:induction false} PrintTailOfParse(r: string)
    requires ParseTail(r).Some?
    ensures Legal(ParseTail(r).value) && PrintTail(ParseTail(r).value) == r
    decreases |r|
  {
    if r != "" && r != "$" {
      PrintPieceOfParse(r);
      var (p, n) := ParsePiece(r).value;
      PrintTailOfParse(r[n..]);
      PutBack(p, ParseTail(r[n..]).value, r, n);
    }
  }

  /** Reading undoes printing, so a text is the print of at most one legal pattern. */
  lemma ParseOfPrint(p: Pattern)
    requires Legal(p.tail)
    ensures Parse(Print(p)) == Some(p)
  {
    ParseTailOfPrint(p.tail);
    if p.bol {
      assert Print(p)[1..] == PrintTail(p.tail);
    } else {
      assert Print(p) == PrintTail(p.tail);
      if Print(p) != "" {
        PrintedHead(p.tail);
      }
    }
  }

  /** Whatever is read is legal and prints as the text it was read from. */
  lemma PrintOfParse(r: string)
    requires Parse(r).Some?
    ensures Legal(Parse(r).value.tail) && Print(Parse(r).value) == r
  {
    var bol := r != "" && r[0] == '^';
    PrintTailOfParse(if bol then r[1..] else r);
    if bol {
      assert r == "^" + r[1..];
    }
  }

  // ----- validation

  /** What the validation loop decides about the rest of a pattern. */
  predicate Check(r: string, first: bool, prevRepeatable: bool)
  {
    if r == "" then true
    else if r[0] == '\\' then |r| > 1 && IsValidEscape(r[1]) && Check(r[2..], false, true)
    else HeadIsFine(r, first, prevRepeatable) && Check(r[1..], false, !IsInSet(r[0], {'^', '$', '?', '*', '+'}))
  }

  /** The check of a text from position i on, by its next character. */
  lemma CheckNext(r: string, i: nat, first: bool, prevRepeatable: bool)
    requires i < |r|
    ensures Check(r[i..], first, prevRepeatable) <==>
            if r[i] == '\\' then i + 1 < |r| && IsValidEscape(r[i + 1]) && Check(r[i + 2..], false, true)
            else HeadIsFine(r[i..], first, prevRepeatable)
                 && Check(r[i + 1..], false, !IsInSet(r[i], {'^', '$', '?', '*', '+'}))
  {
    var rest := r[i..];
    assert rest[1..] == r[i + 1..];
    if i + 1 < |r| {
      assert rest[2..] == r[i + 2..];
    }
  }

  predicate HeadIsFine(r: string, first: bool, prevRepeatable: bool)
    requires r != ""
  {
    !(r[0] == '^' && !first) && !(r[0] == '$' && |r| > 1) &&
    !IsInSet(r[0], {'(', ')', '[', ']', '{', '}', '|'}) && !(IsRepeat(r[0]) && !prevRepeatable)
  }

  /** After an atom a repetition may come; otherwise the flag makes no difference. */
  lemma CheckAfterAtom(r: string)
    ensures Check(r, false, true) <==>
            if r != "" && IsRepeat(r[0]) then Check(r[1..], false, false) else Check(r, false, false)
  {
  }

  lemma {:induction false} CheckIsParseTail(r: string)
    requires NulFree(r)
    ensures Check(r, false, false) <==> ParseTail(r).Some?
    decreases |r|
  {
    if r != "" && r != "$" {
      var k := if r[0] == '\\' then 1 else 0;
      if k < |r| {
        CheckAfterAtom(r[k + 1..]);
        CheckIsParseTail(r[k + 1..]);
        if k + 1 < |r| {
          CheckIsParseTail(r[k + 2..]);
          assert r[k + 1..][1..] == r[k + 2..];
        }
      }
    }
  }

  lemma CheckIsParse(r: string)
    requires NulFree(r)
    ensures Check(r, true, false) <==> Parse(r).Some?
  {
    if r != "" && r[0] == '^' {
      CheckIsParseTail(r[1..]);
    } else {
      CheckIsParseTail(r);
    }
  }

  /** A null pointer is no pattern; every other pattern is accepted exactly when it can be read. */
  method ValidateRegex(regex: Option<string>) returns (isValid: bool)
    requires regex.Some? ==> NulFree(regex.value)
    ensures isValid <==> regex.Some? && Parse(regex.value).Some?
  {
    if regex.None? {
      return false;
    }
    var r := regex.value;
    isValid := true;
    var prevRepeatable := false;
    var i := 0;
    CheckIsParse(r);
    assert r[0..] == r;
    while At(r, i) != '\0'
      invariant i <= |r|
      invariant isValid && Check(r[i..], i == 0, prevRepeatable) <==> Check(r, true, false)
      decreases |r| - i
    {
      CheckNext(r, i, i == 0, prevRepeatable);
      if r[i] == '\\' {
        i := i + 1;
        if At(r, i) == '\0' {
          return false;
        }
        if !IsValidEscape(r[i]) {
          isValid := false;
        }
        prevRepeatable := true;
      } else {
        var ch := r[i];
        if ch == '^' && i > 0 {
          isValid := false;
        } else if ch == '$' && At(r, i + 1) != '\0' {
          isValid := false;
        } else if IsInSet(ch, {'(', ')', '[', ']', '{', '}', '|'}) {
          isValid := false;
        } else if IsRepeat(ch) && !prevRepeatable {
          isValid := false;
        }
        prevRepeatable := !IsInSet(ch, {'^', '$', '?', '*', '+'});
      }
      i := i + 1;
    }
  }

  // ----- what a pattern means

  predicate Allowed(repeat: Option<char>, n: nat)
  {
    if repeat == Some('?') then n <= 1
    else if repeat == Some('*') then true
    else if repeat == Some('+') then n >= 1
    else n == 1
  }

  predicate AllMatch(escaped: bool, c: char, s: string)
  {
    forall k | 0 <= k < |s| :: AtomMatchesChar(escaped, c, s[k])
  }

  predicate Spells(p: Piece, s: string)
  {
    AllMatch(p.escaped, p.c, s) && Allowed(p.repeat, |s|)
  }

  /** s falls into one part for each piece. */
  ghost predicate Matches(pieces: seq<Piece>, s: string)
    decreases |pieces|
  {
    if pieces == [] then s == ""
    else exists n | 0 <= n <= |s| :: Spells(pieces[0], s[..n]) && Matches(pieces[1..], s[n..])
  }

  /** What one piece matches: the atom once, or as often as its repetition says. */
  lemma MatchesPiece(p: Piece, s: string)
    ensures Matches([p], s) <==>
              && (forall k | 0 <= k < |s| :: AtomMatchesChar(p.escaped, p.c, s[k]))
              && if p.repeat == Some('*') then true
                 else if p.repeat == Some('+') then |s| >= 1
                 else if p.repeat == Some('?') then |s| <= 1
                 else |s| == 1
  {
    assert [p][1..] == [];
    assert s[..|s|] == s && s[|s|..] == "";
    if Matches([p], s) {
      var n :| 0 <= n <= |s| && Spells(p, s[..n]) && Matches([], s[n..]);
      assert n == |s|;
    }
  }

  ghost predicate JoinedAt(a: seq<Piece>, b: seq<Piece>, s: string, n: nat)
  {
    n <= |s| && Matches(a, s[..n]) && Matches(b, s[n..])
  }

  lemma Slices(s: string, m: nat, n: nat)
    requires m <= n <= |s|
    ensures s[..n][..m] == s[..m] && s[..n][m..] == s[m..][..n - m] && s[m..][n - m..] == s[n..]
  {
  }

  /** A first piece that takes m characters, and a rest that is joined behind it. */
  lemma JoinFirst(a: seq<Piece>, b: seq<Piece>, s: string, m: nat, n: nat)
    requires a != [] && m <= n <= |s| && Spells(a[0], s[..m]) && JoinedAt(a[1..], b, s[m..], n - m)
    ensures JoinedAt(a, b, s, n)
  {
    Slices(s, m, n);
  }

  lemma SplitFirst(a: seq<Piece>, b: seq<Piece>, s: string, n: nat) returns (m: nat)
    requires a != [] && JoinedAt(a, b, s, n)
    ensures m <= n && Spells(a[0], s[..m]) && JoinedAt(a[1..], b, s[m..], n - m)
  {
    var k :| 0 <= k <= |s[..n]| && Spells(a[0], s[..n][..k]) && Matches(a[1..], s[..n][k..]);
    m := k;
    Slices(s, m, n);
  }

  lemma {:induction false} JoinOfMatch(a: seq<Piece>, b: seq<Piece>, s: string) returns (n: nat)
    requires Matches(a + b, s)
    ensures JoinedAt(a, b, s, n)
    decreases |a|
  {
    if a == [] {
      assert a + b == b && s[..0] == "" && s[0..] == s;
      n := 0;
    } else {
      assert (a + b)[1..] == a[1..] + b;
      var m :| 0 <= m <= |s| && Spells(a[0], s[..m]) && Matches((a + b)[1..], s[m..]);
      var k := JoinOfMatch(a[1..], b, s[m..]);
      n := m + k;
      JoinFirst(a, b, s, m, n);
    }
  }

  lemma {:induction false} MatchOfJoin(a: seq<Piece>, b: seq<Piece>, s: string, n: nat)
    requires JoinedAt(a, b, s, n)
    ensures Matches(a + b, s)
    decreases |a|
  {
    if a == [] {
      assert a + b == b && s[0..] == s;
    } else {
      assert (a + b)[1..] == a[1..] + b;
      var m := SplitFirst(a, b, s, n);
      MatchOfJoin(a[1..], b, s[m..], n - m);
    }
  }

  /** One pattern behind another matches what the first matches followed by what the second matches. */
  lemma MatchesJoin(a: seq<Piece>, b: seq<Piece>, s: string)
    ensures Matches(a + b, s) <==> exists n :: 0 <= n <= |s| && Matches(a, s[..n]) && Matches(b, s[n..])
  {
    if Matches(a + b, s) {
      var n := JoinOfMatch(a, b, s);
    }
    if exists n :: 0 <= n <= |s| && Matches(a, s[..n]) && Matches(b, s[n..]) {
      var n :| 0 <= n <= |s| && Matches(a, s[..n]) && Matches(b, s[n..]);
      MatchOfJoin(a, b, s, n);
    }
  }

  /** Some prefix of s matches: all of s, if the pattern ends in `$`. */
  ghost predicate MatchesHead(t: Tail, s: string)
  {
    exists j | 0 <= j <= |s| :: Matches(t.pieces, s[..j]) && (t.eol ==> j == |s|)
  }

  /** The two ends of a part of s that matches. */
  ghost predicate MatchesAt(p: Pattern, s: string, i: nat, j: nat)
  {
    && i <= j <= |s|
    && Matches(p.tail.pieces, s[i..j]) && (p.bol ==> i == 0) && (p.tail.eol ==> j == |s|)
  }

  ghost predicate MatchesSomewhere(p: Pattern, s: string)
  {
    exists i: nat, j: nat | i <= j <= |s| :: MatchesAt(p, s, i, j)
  }

  ghost predicate PieceThenHead(p: Piece, t: Tail, s: string, n: nat)
  {
    && n <= |s|
    && Spells(p, s[..n]) && MatchesHead(t, s[n..])
  }

  /** The head of a text matches when its first piece takes n characters and the rest the head of what follows. */
  lemma SplitHead(p: Piece, t: Tail, s: string)
    ensures MatchesHead(Tail([p] + t.pieces, t.eol), s) <==>
            exists n | 0 <= n <= |s| :: PieceThenHead(p, t, s, n)
  {
    var all := [p] + t.pieces;
    assert all[1..] == t.pieces;
    if MatchesHead(Tail(all, t.eol), s) {
      var j :| 0 <= j <= |s| && Matches(all, s[..j]) && (t.eol ==> j == |s|);
      var n :| 0 <= n <= j && Spells(p, s[..j][..n]) && Matches(all[1..], s[..j][n..]);
      assert s[..j][..n] == s[..n] && s[..j][n..] == s[n..][..j - n];
      assert PieceThenHead(p, t, s, n);
    }
    if n :| 0 <= n <= |s| && PieceThenHead(p, t, s, n) {
      var m :| 0 <= m <= |s[n..]| && Matches(t.pieces, s[n..][..m]) && (t.eol ==> m == |s[n..]|);
      var u := s[..n + m];
      assert u[..n] == s[..n] && u[n..] == s[n..][..m];
      assert Matches(all, u);
    }
  }

  // ----- matching

  const SIZE_MAX: nat := 0xffff_ffff_ffff_ffff

  /** What `MatchRegexAtHead` decides for a text that is a legal pattern after its optional `^`. */
  ghost predicate HeadOf(regex: string, s: string)
  {
    && ParseTail(regex).Some?
    && MatchesHead(ParseTail(regex).value, s)
  }

  /** Some count of characters works. */
  ghost predicate SomeCount(p: Piece, t: Tail, s: string)
  {
    exists n | 0 <= n <= |s| :: PieceThenHead(p, t, s, n)
  }

  /** The first i characters match the atom, but no count below i works. */
  ghost predicate NoneBefore(p: Piece, t: Tail, s: string, i: nat)
  {
    && i <= |s| && AllMatch(p.escaped, p.c, s[..i])
    && forall n | 0 <= n < i :: !PieceThenHead(p, t, s, n)
  }

  /** Whether the count i works. */
  lemma CountMatches(p: Piece, t: Tail, s: string, i: nat)
    requires NoneBefore(p, t, s, i)
    ensures PieceThenHead(p, t, s, i) <==> Allowed(p.repeat, i) && MatchesHead(t, s[i..])
  {
  }

  lemma Found(p: Piece, t: Tail, s: string, i: nat)
    requires PieceThenHead(p, t, s, i)
    ensures SomeCount(p, t, s)
  {
  }

  /** A piece does not reach beyond a character that its atom does not match. */
  lemma NoLonger(p: Piece, t: Tail, s: string, i: nat)
    requires NoneBefore(p, t, s, i) && !PieceThenHead(p, t, s, i)
    requires i < |s| ==> !AtomMatchesChar(p.escaped, p.c, s[i])
    ensures !SomeCount(p, t, s)
  {
    forall n | i < n <= |s| ensures !PieceThenHead(p, t, s, n) {
      assert s[..n][i] == s[i];
    }
  }

  lemma OneMoreMatches(p: Piece, t: Tail, s: string, i: nat)
    requires NoneBefore(p, t, s, i) && !PieceThenHead(p, t, s, i)
    requires i < |s| && AtomMatchesChar(p.escaped, p.c, s[i])
    ensures NoneBefore(p, t, s, i + 1)
  {
    assert s[..i + 1] == s[..i] + [s[i]];
  }

  /** Beyond the greatest count that is allowed there is nothing to find. */
  lemma NotAllowed(p: Piece, t: Tail, s: string, i: nat)
    requires NoneBefore(p, t, s, i) && forall n | i <= n <= |s| :: !Allowed(p.repeat, n)
    ensures !SomeCount(p, t, s)
  {
    forall n | i <= n <= |s| ensures !PieceThenHead(p, t, s, n) {
      assert |s[..n]| == n;
    }
  }

  /**
    The counter runs up to the greatest `size_t` less one, or to 1 for `?`; strings are shorter than
    that.
   */
  method MatchRepetitionAndRegexAtHead(escaped: bool, c: char, repeat: char, regex: string, str: string)
    returns (b: bool)
    requires IsRepeat(repeat) && NulFree(str) && |str| < SIZE_MAX && NulFree(regex) && ParseTail(regex).Some?
    ensures b <==> exists n | 0 <= n <= |str| ::
                     PieceThenHead(Piece(escaped, c, Some(repeat)), ParseTail(regex).value, str, n)
    decreases |regex|, 1
  {
    var minCount := if repeat == '+' then 1 else 0;
    var maxCount := if repeat == '?' then 1 else SIZE_MAX - 1;
    ghost var p, t := Piece(escaped, c, Some(repeat)), ParseTail(regex).value;
    var i := 0;
    while i <= maxCount
      invariant i <= |str| && i <= maxCount + 1
      invariant NoneBefore(p, t, str, i)
    {
      CountMatches(p, t, str, i);
      if i >= minCount {
        var tailMatches := MatchRegexAtHead(regex, str[i..]);
        if tailMatches {
          Found(p, t, str, i);
          return true;
        }
      }
      if At(str, i) == '\0' || !AtomMatchesChar(escaped, c, str[i]) {
        NoLonger(p, t, str, i);
        return false;
      }
      OneMoreMatches(p, t, str, i);
      i := i + 1;
    }
    NotAllowed(p, t, str, i);
    return false;
  }

  method MatchRegexAtHead(regex: string, str: string) returns (b: bool)
    requires NulFree(regex) && NulFree(str) && |str| < SIZE_MAX && ParseTail(regex).Some?
    ensures b <==> HeadOf(regex, str)
    decreases |regex|, 0
  {
    if At(regex, 0) == '\0' {
      NoPieces(false, str);
      return true;
    }
    if regex[0] == '$' {
      assert regex == "$";
      NoPieces(true, str);
      return At(str, 0) == '\0';
    }
    var escaped := regex[0] == '\\';
    var rest := if escaped then regex[1..] else regex;
    ghost var (p, n) := ParsePiece(regex).value;
    SplitHead(p, ParseTail(regex[n..]).value, str);
    if IsRepeat(At(rest, 1)) {
      assert rest[2..] == regex[n..];
      b := MatchRepetitionAndRegexAtHead(escaped, rest[0], rest[1], rest[2..], str);
    } else {
      assert rest[1..] == regex[n..];
      OneCharacter(p, ParseTail(regex[n..]).value, str);
      if At(str, 0) != '\0' && AtomMatchesChar(escaped, rest[0], str[0]) {
        b := MatchRegexAtHead(rest[1..], str[1..]);
      } else {
        b := false;
      }
    }
  }

  /** Without pieces a head always matches, unless the end of the string is asked for. */
  lemma NoPieces(eol: bool, s: string)
    ensures MatchesHead(Tail([], eol), s) <==> !eol || s == ""
  {
    assert Matches([], s[..0]);
    if eol {
      assert s[..|s|] == s;
    }
  }

  lemma OneCharacter(p: Piece, t: Tail, s: string)
    requires p.repeat == None
    ensures (exists n | 0 <= n <= |s| :: PieceThenHead(p, t, s, n)) <==>
            s != "" && AtomMatchesChar(p.escaped, p.c, s[0]) && MatchesHead(t, s[1..])
  {
    if s != "" && AtomMatchesChar(p.escaped, p.c, s[0]) && MatchesHead(t, s[1..]) {
      assert PieceThenHead(p, t, s, 1);
    }
  }

  /** A match somewhere is a match at the head of what begins there. */
  lemma SomewhereIsHead(p: Pattern, s: string)
    ensures MatchesSomewhere(p, s) <==>
            exists i | 0 <= i <= |s| && (p.bol ==> i == 0) :: MatchesHead(p.tail, s[i..])
  {
    if i: nat, j: nat :| i <= j <= |s| && MatchesAt(p, s, i, j) {
      assert s[i..][..j - i] == s[i..j];
      assert MatchesHead(p.tail, s[i..]);
    }
    if i :| 0 <= i <= |s| && (p.bol ==> i == 0) && MatchesHead(p.tail, s[i..]) {
      var m :| 0 <= m <= |s[i..]| && Matches(p.tail.pieces, s[i..][..m]) && (p.tail.eol ==> m == |s[i..]|);
      assert s[i..][..m] == s[i..i + m];
      assert MatchesAt(p, s, i, i + m);
    }
  }

  /** True exactly when some part of the string matches the pattern that the text stands for. */
  method MatchRegexAnywhere(regex: Option<string>, str: Option<string>) returns (b: bool)
    requires regex.Some? ==> NulFree(regex.value) && Parse(regex.value).Some?
    requires str.Some? ==> NulFree(str.value) && |str.value| < SIZE_MAX
    ensures b <==> regex.Some? && str.Some? && MatchesSomewhere(Parse(regex.value).value, str.value)
  {
    if regex.None? || str.None? {
      return false;
    }
    var r, s := regex.value, str.value;
    SomewhereIsHead(Parse(r).value, s);
    if At(r, 0) == '^' {
      b := MatchRegexAtHead(r[1..], s);
      assert s[0..] == s;
      return b;
    }
    var i := 0;
    var more := true;
    while more
      invariant i <= |s| + 1 && (more <==> i <= |s|)
      invariant forall k | 0 <= k < i && k <= |s| :: !HeadOf(r, s[k..])
      decreases |s| + 1 - i
    {
      b := MatchRegexAtHead(r, s[i..]);
      if b {
        return true;
      }
      more := At(s, i) != '\0';
      i := i + 1;
    }
    return false;
  }

  // ----- full matches

  predicate EndsIn(s: string, ch: char)
  {
    s != "" && s[|s| - 1] == ch
  }

  /** The last piece is an escaped dollar sign, taken once. */
  predicate EndsInEscapedDollar(pieces: seq<Piece>)
  {
    pieces != [] && pieces[|pieces| - 1] == Piece(true, '$', None)
  }

  lemma {:induction false} LastPrinted(t: Tail)
    requires Legal(t)
    ensures EndsIn(PrintTail(t), '$') <==> t.eol || EndsInEscapedDollar(t.pieces)
    decreases |t.pieces|
  {
    if t.pieces != [] {
      var rest := Tail(t.pieces[1..], t.eol);
      assert LegalPiece(t.pieces[0]) && Legal(rest);
      LastPrinted(rest);
    }
  }

  /** The pattern `Init` builds for full matches: a caret and a dollar sign are added where missing. */
  function FullPattern(regex: string): string
  {
    (if At(regex, 0) != '^' then "^" else "") + regex + (if !EndsIn(regex, '$') then "$" else "")
  }

  predicate ClosesFully(p: Pattern)
  {
    p.tail.eol || !EndsInEscapedDollar(p.tail.pieces)
  }

  lemma {:induction false} AppendDollar(pieces: seq<Piece>)
    ensures PrintTail(Tail(pieces, false)) + "$" == PrintTail(Tail(pieces, true))
    decreases |pieces|
  {
    if pieces != [] {
      AppendDollar(pieces[1..]);
      Regroup(PrintPiece(pieces[0]), PrintTail(Tail(pieces[1..], false)), "$");
    }
  }

  /** With the caret it has or is given, a pattern begins with exactly one. */
  lemma OpenedOnce(p: Pattern)
    requires Legal(p.tail)
    ensures var regex := Print(p);
            if At(regex, 0) != '^' then regex == PrintTail(p.tail) else regex == "^" + PrintTail(p.tail)
  {
    if !p.bol && PrintTail(p.tail) != "" {
      PrintedHead(p.tail);
    }
  }

  lemma EndsInBehind(front: string, text: string)
    requires front == "" || front == "^"
    ensures EndsIn(front + text, '$') <==> EndsIn(text, '$')
  {
  }

  /** The closing dollar sign is there, or is put there. */
  lemma ClosedOnce(p: Pattern)
    requires Legal(p.tail)
    ensures var text := PrintTail(p.tail);
            var full := PrintTail(Tail(p.tail.pieces, ClosesFully(p)));
            if EndsIn(text, '$') then text == full else text + "$" == full
  {
    LastPrinted(p.tail);
    if !EndsIn(PrintTail(p.tail), '$') {
      AppendDollar(p.tail.pieces);
    }
  }

  lemma FullPatternPrints(p: Pattern)
    requires Legal(p.tail)
    ensures FullPattern(Print(p)) == Print(Pattern(true, Tail(p.tail.pieces, ClosesFully(p))))
  {
    var regex, text := Print(p), PrintTail(p.tail);
    OpenedOnce(p);
    ClosedOnce(p);
    EndsInBehind("", text);
    EndsInBehind("^", text);
    assert "" + text == text && "" + regex == regex;
    Regroup("^", text, "$");
  }

  lemma FullPatternReads(regex: string)
    requires NulFree(regex) && Parse(regex).Some?
    ensures var p := Parse(regex).value;
            Parse(FullPattern(regex)) == Some(Pattern(true, Tail(p.tail.pieces, ClosesFully(p)))) &&
            NulFree(FullPattern(regex))
  {
    var p := Parse(regex).value;
    PrintOfParse(regex);
    FullPatternPrints(p);
    ParseOfPrint(Pattern(true, Tail(p.tail.pieces, ClosesFully(p))));
  }

  lemma {:induction false} MatchEndsInDollar(pieces: seq<Piece>, s: string)
    requires EndsInEscapedDollar(pieces) && Matches(pieces, s)
    ensures EndsIn(s, '$')
    decreases |pieces|
  {
    var n :| 0 <= n <= |s| && Spells(pieces[0], s[..n]) && Matches(pieces[1..], s[n..]);
    if |pieces| == 1 {
      assert s[..n][0] == s[0];
    } else {
      MatchEndsInDollar(pieces[1..], s[n..]);
    }
  }

  function Sample(p: Piece): (ch: char)
    requires LegalPiece(p)
    ensures AtomMatchesChar(p.escaped, p.c, ch) && ch != '\0'
  {
    if p.escaped then
      if p.c == 'd' then '0' else if p.c == 'f' then FORM_FEED else if p.c == 'n' then '\n'
      else if p.c == 'r' then '\r' else if p.c == 't' then '\t' else if p.c == 'v' then VERTICAL_TAB
      else if p.c == 's' || p.c == 'W' then ' ' else if IsAsciiPunct(p.c) then p.c else 'a'
    else p.c
  }

  /** Every legal pattern matches something: one character for each piece. */
  lemma {:induction false} SomethingMatches(pieces: seq<Piece>) returns (s: string)
    requires forall k | 0 <= k < |pieces| :: LegalPiece(pieces[k])
    ensures Matches(pieces, s) && NulFree(s)
    decreases |pieces|
  {
    if pieces == [] {
      s := "";
    } else {
      var rest := SomethingMatches(pieces[1..]);
      s := [Sample(pieces[0])] + rest;
      assert s[..1] == [Sample(pieces[0])] && s[1..] == rest;
      assert Spells(pieces[0], s[..1]);
    }
  }

  lemma ClosedHeadIsAll(pieces: seq<Piece>, s: string)
    ensures MatchesHead(Tail(pieces, true), s) <==> Matches(pieces, s)
  {
    assert s[..|s|] == s;
  }

  ghost predicate FullMatchIsEntire(p: Pattern)
  {
    forall s | NulFree(s) :: MatchesHead(Tail(p.tail.pieces, ClosesFully(p)), s) <==> Matches(p.tail.pieces, s)
  }

  /**
    `FullMatch` is documented to match entire strings. It does for a pattern exactly when the pattern
    has its own closing dollar sign or does not end in an escaped one: the escaped one is mistaken for
    the anchor, none is added, and trailing characters are accepted.
   */
  lemma WhenFullMatchIsEntire(p: Pattern)
    requires Legal(p.tail)
    ensures FullMatchIsEntire(p) <==> ClosesFully(p)
  {
    var pieces := p.tail.pieces;
    if ClosesFully(p) {
      forall s | NulFree(s)
        ensures MatchesHead(Tail(pieces, true), s) <==> Matches(pieces, s)
      {
        ClosedHeadIsAll(pieces, s);
      }
    } else {
      var w := SomethingMatches(pieces);
      var s := w + "x";
      assert s[..|w|] == w && !EndsIn(s, '$');
      if Matches(pieces, s) {
        MatchEndsInDollar(pieces, s);
        assert false;
      }
      assert MatchesHead(Tail(pieces, false), s);
    }
  }

  /** The pattern `\$` fully matches `$x`. */
  lemma EscapedDollarIsNotAnchored()
    ensures var p := Pattern(false, Tail([Piece(true, '$', None)], false));
            Print(p) == "\\$" && Parse("\\$") == Some(p) && Parse(FullPattern("\\$")) == Some(p.(bol := true)) &&
            MatchesSomewhere(p.(bol := true), "$x") && !Matches(p.tail.pieces, "$x")
  {
    var p := Pattern(false, Tail([Piece(true, '$', None)], false));
    assert LegalPiece(p.tail.pieces[0]);
    assert PrintTail(Tail([], false)) == "";
    ParseOfPrint(p);
    FullPatternReads("\\$");
    OneDollar("$");
    assert "$x"[0..1] == "$";
    assert MatchesAt(p.(bol := true), "$x", 0, 1);
    if Matches(p.tail.pieces, "$x") {
      MatchEndsInDollar(p.tail.pieces, "$x");
      assert false;
    }
  }

  lemma OneDollar(s: string)
    requires s == "$"
    ensures Matches([Piece(true, '$', None)], s)
  {
    var pieces := [Piece(true, '$', None)];
    assert s[..1] == s && s[1..] == "" && pieces[1..] == [];
    assert Spells(pieces[0], s[..1]) && Matches([], s[1..]);
  }

  class RE {
    var pattern: Option<string>
    var fullPattern: Option<string>
    var isValid: bool

    ghost predicate Valid()
      reads this
    {
      isValid ==>
        pattern.Some? && NulFree(pattern.value) && Parse(pattern.value).Some? &&
        fullPattern == Some(FullPattern(pattern.value))
    }

    /** `Init` */
    constructor (regex: Option<string>)
      requires regex.Some? ==> NulFree(regex.value)
      ensures Valid() && pattern == regex
      ensures isValid <==> regex.Some? && Parse(regex.value).Some?
    {
      var ok := ValidateRegex(regex);
      pattern, fullPattern, isValid := regex, None, ok;
      if ok {
        var buffer := "";
        if At(regex.value, 0) != '^' {
          buffer := buffer + "^";
        }
        buffer := buffer + regex.value;
        if |regex.value| == 0 || regex.value[|regex.value| - 1] != '$' {
          buffer := buffer + "$";
        }
        assert buffer == FullPattern(regex.value);
        fullPattern := Some(buffer);
      }
    }

    static method PartialMatch(str: string, re: RE) returns (b: bool)
      requires re.Valid() && NulFree(str) && |str| < SIZE_MAX
      ensures b <==> re.isValid && MatchesSomewhere(Parse(re.pattern.value).value, str)
    {
      if !re.isValid {
        return false;
      }
      b := MatchRegexAnywhere(re.pattern, Some(str));
    }

    static method FullMatch(str: string, re: RE) returns (b: bool)
      requires re.Valid() && NulFree(str) && |str| < SIZE_MAX
      ensures b ==> re.isValid
      ensures re.isValid ==>
                var p := Parse(re.pattern.value).value;
                b <==> MatchesHead(Tail(p.tail.pieces, ClosesFully(p)), str)
    {
      if !re.isValid {
        return false;
      }
      FullPatternReads(re.pattern.value);
      b := MatchRegexAnywhere(re.fullPattern, Some(str));
      SomewhereIsHead(Parse(re.fullPattern.value).value, str);
      assert str[0..] == str;
    }
  }
}
