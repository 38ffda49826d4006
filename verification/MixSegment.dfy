/**
  The default segmenter: dictionary words first, then every longest run of left-over single runes
  is cut again by the hidden-Markov model. Words of a sentence spell the sentence.
 */
module MixSegment {
  import opened Unicode
  import opened WordTrie
  import opened MPSegment
  import HMM = HMMSegment
  import opened PreFilter

  /** A single rune that the user dictionary does not name as a word. */
  predicate LeftOver(runes: seq<RuneStr>, user: set<Rune>, wr: WordRange)
    requires wr.left <= wr.right < |runes|
  {
    wr.left == wr.right && runes[wr.left].rune !in user
  }

  ghost predicate InRunes(runes: seq<RuneStr>, mp: seq<WordRange>)
  {
    forall k | 0 <= k < |mp| :: mp[k].left <= mp[k].right < |runes|
  }

  /** The words j..i-1 are a run of left-overs that cannot be made longer on either side. */
  ghost predicate LongestLeftOver(runes: seq<RuneStr>, user: set<Rune>, mp: seq<WordRange>, j: nat, i: nat)
  {
    && InRunes(runes, mp)
    && j < i <= |mp|
    && (forall k | j <= k < i :: LeftOver(runes, user, mp[k]))
    && (j > 0 ==> !LeftOver(runes, user, mp[j - 1]))
    && (i < |mp| ==> !LeftOver(runes, user, mp[i]))
  }

  /** The hidden-Markov words of the run of left-overs j..i-1. */
  ghost predicate ReCut(model: HMM.HMMModel, runes: seq<RuneStr>, mp: seq<WordRange>, j: nat, i: nat,
                        parts: seq<WordRange>)
  {
    && model.Valid() && InRunes(runes, mp) && j < i <= |mp|
    && mp[j].left <= mp[i - 1].left
    && HMM.HmmPieces(model, runes, mp[j].left, mp[i - 1].left + 1, mp[i - 1].left + 1, parts)
  }

  /** What becomes of the first i dictionary words: kept one by one, left-over runs cut again. */
  ghost predicate MixPieces(model: HMM.HMMModel, runes: seq<RuneStr>, user: set<Rune>, mp: seq<WordRange>, i: nat,
                            parts: seq<WordRange>)
    requires model.Valid() && InRunes(runes, mp) && i <= |mp|
    decreases i, 1
  {
    if i == 0 then parts == []
    else if !LeftOver(runes, user, mp[i - 1]) then
      && parts != [] && parts[|parts| - 1] == mp[i - 1]
      && MixPieces(model, runes, user, mp, i - 1, parts[..|parts| - 1])
    else exists j: nat, k: nat :: ReCutFrom(model, runes, user, mp, i, parts, j, k)
  }

  /** The last run of left-overs starts at word j, and its new words at parts[k]. */
  ghost predicate ReCutFrom(model: HMM.HMMModel, runes: seq<RuneStr>, user: set<Rune>, mp: seq<WordRange>, i: nat,
                            parts: seq<WordRange>, j: nat, k: nat)
    requires model.Valid() && InRunes(runes, mp) && i <= |mp|
    decreases i, 0
  {
    && j < i && k <= |parts| && LongestLeftOver(runes, user, mp, j, i)
    && MixPieces(model, runes, user, mp, j, parts[..k])
    && ReCut(model, runes, mp, j, i, parts[k..])
  }

  lemma AddReCut(model: HMM.HMMModel, runes: seq<RuneStr>, user: set<Rune>, mp: seq<WordRange>, j: nat, i: nat,
                 a: seq<WordRange>, b: seq<WordRange>)
    requires model.Valid() && InRunes(runes, mp) && LongestLeftOver(runes, user, mp, j, i)
    requires MixPieces(model, runes, user, mp, j, a) && ReCut(model, runes, mp, j, i, b)
    ensures MixPieces(model, runes, user, mp, i, a + b)
  {
    assert (a + b)[..|a|] == a && (a + b)[|a|..] == b;
    assert ReCutFrom(model, runes, user, mp, i, a + b, j, |a|);
  }

  /** The dictionary words of a range, placed in the sentence. */
  ghost predicate IsWordCut(lex: Lexicon, minWeight: real, runes: seq<RuneStr>, begin: nat, end: nat,
                          mp: seq<WordRange>)
  {
    && begin <= end <= |runes|
    && IsBestCut(lex, minWeight, RunesOf(runes[begin..end]), MAX_WORD_LENGTH, begin, mp)
    && InRunes(runes, mp) && Tiles(mp, begin, end)
  }

  method CutByWords(trie: Trie, ghost lex: Lexicon, minWeight: real, runes: seq<RuneStr>, begin: nat, end: nat,
                    res: seq<WordRange>)
    returns (res': seq<WordRange>)
    requires trie.Holds(lex) && SelfNamed(lex) && begin <= end <= |runes|
    ensures res <= res' && IsWordCut(lex, minWeight, runes, begin, end, Added(res, res'))
  {
    res' := MPSegment.CutRange(trie, minWeight, runes, begin, end, res, MAX_WORD_LENGTH);
    BestCutTiles(lex, minWeight, runes, begin, end, Added(res, res'));
  }

  lemma BestCutTiles(lex: Lexicon, minWeight: real, runes: seq<RuneStr>, begin: nat, end: nat, mp: seq<WordRange>)
    requires begin <= end <= |runes|
    requires IsBestCut(lex, minWeight, RunesOf(runes[begin..end]), MAX_WORD_LENGTH, begin, mp)
    ensures InRunes(runes, mp) && Tiles(mp, begin, end)
  {
    var seg :| mp == Shift(seg, begin) && Optimal(lex, minWeight, RunesOf(runes[begin..end]), MAX_WORD_LENGTH, seg);
    ShiftTiles(seg, 0, end - begin, begin);
    TilesInside(mp, begin, end);
  }

  /** A single rune, or a dictionary word of at most 512 runes. */
  ghost predicate RuneOrWord(lex: Lexicon, text: seq<Rune>, wr: WordRange)
  {
    && wr.left <= wr.right < |text|
    && (wr.left == wr.right || (wr.right - wr.left + 1 <= 512 && text[wr.left..wr.right + 1] in lex))
  }

  lemma PiecesAreWords(lex: Lexicon, text: seq<Rune>, wr: WordRange)
    ensures IsPiece(lex, text, MAX_WORD_LENGTH, wr) <==> RuneOrWord(lex, text, wr)
  {
  }

  /** Of all ways to cut the range into single runes and dictionary words of up to 512 runes none scores higher. */
  lemma WordCutIsBest(lex: Lexicon, minWeight: real, runes: seq<RuneStr>, begin: nat, end: nat, mp: seq<WordRange>)
    returns (seg: seq<WordRange>)
    requires IsWordCut(lex, minWeight, runes, begin, end, mp)
    ensures mp == Shift(seg, begin)
    ensures var text := RunesOf(runes[begin..end]);
            && Tiles(seg, 0, |text|) && (forall k | 0 <= k < |seg| :: RuneOrWord(lex, text, seg[k]))
            && forall other | Tiles(other, 0, |text|) && forall k | 0 <= k < |other| :: RuneOrWord(lex, text, other[k]) ::
                 Floored(lex, minWeight, text, other) <= Floored(lex, minWeight, text, seg)
  {
    var text := RunesOf(runes[begin..end]);
    seg :| mp == Shift(seg, begin) && Optimal(lex, minWeight, text, MAX_WORD_LENGTH, seg);
    forall k | 0 <= k < |seg| ensures RuneOrWord(lex, text, seg[k]) {
      PiecesAreWords(lex, text, seg[k]);
    }
    forall other | Tiles(other, 0, |text|) && forall k | 0 <= k < |other| :: RuneOrWord(lex, text, other[k])
      ensures Floored(lex, minWeight, text, other) <= Floored(lex, minWeight, text, seg)
    {
      forall k | 0 <= k < |other| ensures IsPiece(lex, text, MAX_WORD_LENGTH, other[k]) {
        PiecesAreWords(lex, text, other[k]);
      }
      assert IsSegmentation(lex, text, MAX_WORD_LENGTH, other, 0);
    }
  }

  /** What the range `Cut` makes of the dictionary words mp. */
  ghost predicate IsMixOf(user: set<Rune>, model: HMM.HMMModel, runes: seq<RuneStr>, hmm: bool,
                          mp: seq<WordRange>, parts: seq<WordRange>)
  {
    && model.Valid() && InRunes(runes, mp)
    && (if hmm then MixPieces(model, runes, user, mp, |mp|, parts) else parts == mp)
  }

  /** The result of the range `Cut` on runes[begin..end]. */
  ghost predicate IsMixCut(lex: Lexicon, minWeight: real, user: set<Rune>, model: HMM.HMMModel, runes: seq<RuneStr>,
                           begin: nat, end: nat, hmm: bool, parts: seq<WordRange>)
  {
    && model.Valid() && begin <= end <= |runes|
    && (exists mp :: IsWordCut(lex, minWeight, runes, begin, end, mp) && IsMixOf(user, model, runes, hmm, mp, parts))
  }

  /**
    The range `Cut`: the best segmentation into words of the dictionary, in which, if asked for, every
    longest run of left-over single runes is cut again by the model.
   */
  method CutRange(trie: Trie, ghost lex: Lexicon, minWeight: real, user: set<Rune>, model: HMM.HMMModel,
                  runes: seq<RuneStr>, begin: nat, end: nat, res: seq<WordRange>, hmm: bool)
    returns (res': seq<WordRange>)
    requires trie.Holds(lex) && SelfNamed(lex) && model.Valid() && begin <= end <= |runes|
    ensures res <= res' && IsMixCut(lex, minWeight, user, model, runes, begin, end, hmm, Added(res, res'))
  {
    if !hmm {
      res' := CutByWords(trie, lex, minWeight, runes, begin, end, res);
      assert IsMixOf(user, model, runes, hmm, Added(res, res'), Added(res, res'));
      return;
    }
    var words := CutByWords(trie, lex, minWeight, runes, begin, end, []);
    AddedOf([], words);
    assert [] + words == words;
    res' := Merge(user, model, runes, begin, end, words, res);
    assert IsMixOf(user, model, runes, hmm, words, Added(res, res'));
  }

  /** One turn of the merging loop: from word i to word j, which adds these parts. */
  ghost predicate MixStep(model: HMM.HMMModel, runes: seq<RuneStr>, user: set<Rune>, mp: seq<WordRange>, i: nat, j: nat,
                          more: seq<WordRange>)
  {
    && model.Valid() && InRunes(runes, mp) && i < |mp|
    && if LeftOver(runes, user, mp[i]) then
         LongestLeftOver(runes, user, mp, i, j) && ReCut(model, runes, mp, i, j, more)
       else j == i + 1 && more == [mp[i]]
  }

  lemma AddStep(model: HMM.HMMModel, runes: seq<RuneStr>, user: set<Rune>, mp: seq<WordRange>, i: nat, j: nat,
                parts: seq<WordRange>, more: seq<WordRange>)
    requires model.Valid() && InRunes(runes, mp) && i < |mp| && MixStep(model, runes, user, mp, i, j, more)
    requires MixPieces(model, runes, user, mp, i, parts)
    ensures i < j <= |mp| && MixPieces(model, runes, user, mp, j, parts + more)
    ensures Boundary(runes, user, mp, j)
  {
    if LeftOver(runes, user, mp[i]) {
      AddReCut(model, runes, user, mp, i, j, parts, more);
    } else {
      assert (parts + more)[..|parts|] == parts;
    }
  }

  /** The merging loop of `Cut`, on the dictionary words already found. */
  method Merge(user: set<Rune>, model: HMM.HMMModel, runes: seq<RuneStr>, ghost begin: nat, ghost end: nat,
               words: seq<WordRange>, res: seq<WordRange>)
    returns (res': seq<WordRange>)
    requires model.Valid() && end <= |runes| && InRunes(runes, words) && Tiles(words, begin, end)
    ensures res <= res' && MixPieces(model, runes, user, words, |words|, Added(res, res'))
  {
    res' := res;
    ghost var parts: seq<WordRange> := [];
    var i := 0;
    while i < |words|
      invariant 0 <= i <= |words|
      invariant res' == res + parts
      invariant MixPieces(model, runes, user, words, i, parts)
      invariant Boundary(runes, user, words, i)
    {
      ghost var was, from := res', i;
      i, res' := MergeOne(user, model, runes, begin, end, words, i, res');
      AddStep(model, runes, user, words, from, i, parts, Added(was, res'));
      parts := HMM.Grow(res, parts, Added(was, res'));
    }
    AddedOf(res, parts);
  }

  /** The loop body: a word of the dictionary or of the user stays, a run of left-overs is cut again. */
  method MergeOne(user: set<Rune>, model: HMM.HMMModel, runes: seq<RuneStr>, ghost begin: nat, ghost end: nat,
                  words: seq<WordRange>, i: nat, res: seq<WordRange>)
    returns (j: nat, res': seq<WordRange>)
    requires model.Valid() && end <= |runes| && InRunes(runes, words) && Tiles(words, begin, end)
    requires i < |words| && Boundary(runes, user, words, i)
    ensures res <= res' && MixStep(model, runes, user, words, i, j, Added(res, res'))
  {
    if words[i].left != words[i].right || runes[words[i].left].rune in user {
      AddedOf(res, [words[i]]);
      j, res' := i + 1, res + [words[i]];
    } else {
      j := LeftOverEnd(user, runes, words, i);
      LeftsIncrease(words, begin, end, i, j - 1);
      var hmmRes := HmmWords(model, runes, words, i, j);
      AddedOf(res, hmmRes);
      res' := AppendAll(res, hmmRes);
    }
  }

  method HmmWords(model: HMM.HMMModel, runes: seq<RuneStr>, words: seq<WordRange>, i: nat, j: nat)
    returns (hmmRes: seq<WordRange>)
    requires model.Valid() && InRunes(runes, words) && i < j <= |words| && words[i].left <= words[j - 1].left
    ensures ReCut(model, runes, words, i, j, hmmRes)
  {
    hmmRes := HMM.Cut(model, runes, words[i].left, words[j - 1].left + 1, []);
    AddedOf([], hmmRes);
    assert [] + hmmRes == hmmRes;
  }

  /** No run of left-overs straddles position i. */
  ghost predicate Boundary(runes: seq<RuneStr>, user: set<Rune>, mp: seq<WordRange>, i: nat)
    requires InRunes(runes, mp)
  {
    0 < i < |mp| ==> !(LeftOver(runes, user, mp[i - 1]) && LeftOver(runes, user, mp[i]))
  }

  /** The inner loop of `Cut` that collects single runes in sequence. */
  method LeftOverEnd(user: set<Rune>, runes: seq<RuneStr>, words: seq<WordRange>, i: nat) returns (j: nat)
    requires InRunes(runes, words) && i < |words| && LeftOver(runes, user, words[i])
    requires i > 0 ==> !LeftOver(runes, user, words[i - 1])
    ensures LongestLeftOver(runes, user, words, i, j)
  {
    j := i;
    while j < |words| && words[j].left == words[j].right && runes[words[j].left].rune !in user
      invariant i <= j <= |words|
      invariant forall k | i <= k < j :: LeftOver(runes, user, words[k])
    {
      j := j + 1;
    }
  }

  /** The innermost loop of `Cut`: push the words one by one. */
  method AppendAll(res: seq<WordRange>, more: seq<WordRange>) returns (res': seq<WordRange>)
    ensures res' == res + more
  {
    res' := res;
    for k := 0 to |more|
      invariant res' == res + more[..k]
    {
      res' := res' + [more[k]];
      assert more[..k + 1] == more[..k] + [more[k]];
    }
    assert more[..|more|] == more;
  }

  // ----- facts about tilings

  lemma {:induction false} ShiftTiles(seg: seq<WordRange>, lo: nat, hi: nat, offset: nat)
    requires Tiles(seg, lo, hi)
    ensures Tiles(Shift(seg, offset), lo + offset, hi + offset)
  {
    if seg != [] {
      ShiftTiles(seg[1..], seg[0].right + 1, hi, offset);
      assert Shift(seg, offset)[1..] == Shift(seg[1..], offset);
    }
  }

  /** Where the first i words of a tiling end. */
  function EndOf(mp: seq<WordRange>, lo: nat, i: nat): int
    requires i <= |mp|
  {
    if i == 0 then lo else mp[i - 1].right + 1
  }

  lemma {:induction false} NextStarts(mp: seq<WordRange>, lo: nat, hi: nat, i: nat)
    requires Tiles(mp, lo, hi) && i <= |mp|
    ensures EndOf(mp, lo, i) == if i < |mp| then mp[i].left else hi
  {
    if i > 0 {
      NextStarts(mp[1..], mp[0].right + 1, hi, i - 1);
    }
  }

  lemma {:induction false} LeftsIncrease(mp: seq<WordRange>, lo: nat, hi: nat, i: nat, j: nat)
    requires Tiles(mp, lo, hi) && i <= j < |mp|
    ensures mp[i].left <= mp[j].left <= mp[j].right < hi
    decreases j - i
  {
    TilesInside(mp, lo, hi);
    if i < j {
      LeftsIncrease(mp, lo, hi, i, j - 1);
      NextStarts(mp, lo, hi, j);
    }
  }

  // ----- what the merged result guarantees

  lemma ReCutRange(model: HMM.HMMModel, runes: seq<RuneStr>, mp: seq<WordRange>, j: nat, i: nat, b: seq<WordRange>)
    requires model.Valid() && InRunes(runes, mp) && j < i <= |mp| && ReCut(model, runes, mp, j, i, b)
    ensures Tiles(b, mp[j].left, mp[i - 1].left + 1)
  {
    HMM.PiecesTile(model, runes, mp[j].left, mp[i - 1].left + 1, mp[i - 1].left + 1, b);
  }

  lemma ReCutTiles(model: HMM.HMMModel, runes: seq<RuneStr>, user: set<Rune>, mp: seq<WordRange>, j: nat, i: nat,
                   a: seq<WordRange>, b: seq<WordRange>, lo: nat, hi: nat)
    requires model.Valid() && InRunes(runes, mp) && j < i <= |mp| && Tiles(mp, lo, hi)
    requires LeftOver(runes, user, mp[i - 1]) && ReCut(model, runes, mp, j, i, b)
    requires lo <= EndOf(mp, lo, j) && Tiles(a, lo, EndOf(mp, lo, j))
    ensures lo <= EndOf(mp, lo, i) && Tiles(a + b, lo, EndOf(mp, lo, i))
  {
    NextStarts(mp, lo, hi, j);
    ReCutRange(model, runes, mp, j, i, b);
    TilesAppend(a, b, lo, mp[j].left, mp[i - 1].right + 1);
  }

  lemma KeptTiles(mp: seq<WordRange>, i: nat, parts: seq<WordRange>, lo: nat, hi: nat)
    requires 0 < i <= |mp| && Tiles(mp, lo, hi) && parts != [] && parts[|parts| - 1] == mp[i - 1]
    requires lo <= EndOf(mp, lo, i - 1) && Tiles(parts[..|parts| - 1], lo, EndOf(mp, lo, i - 1))
    ensures lo <= EndOf(mp, lo, i) && Tiles(parts, lo, EndOf(mp, lo, i))
  {
    NextStarts(mp, lo, hi, i - 1);
    TilesInside(mp, lo, hi);
    TilesAppend(parts[..|parts| - 1], [mp[i - 1]], lo, mp[i - 1].left, mp[i - 1].right + 1);
    assert parts == parts[..|parts| - 1] + [mp[i - 1]];
  }

  /** The run of left-overs that was re-cut last, and the parts in front of it. */
  lemma LastReCut(model: HMM.HMMModel, runes: seq<RuneStr>, user: set<Rune>, mp: seq<WordRange>, i: nat,
                  parts: seq<WordRange>)
    returns (j: nat, a: seq<WordRange>, b: seq<WordRange>)
    requires model.Valid() && InRunes(runes, mp) && 0 < i <= |mp| && LeftOver(runes, user, mp[i - 1])
    requires MixPieces(model, runes, user, mp, i, parts)
    ensures j < i && LongestLeftOver(runes, user, mp, j, i) && parts == a + b
    ensures MixPieces(model, runes, user, mp, j, a) && ReCut(model, runes, mp, j, i, b)
  {
    var k: nat;
    j, k :| ReCutFrom(model, runes, user, mp, i, parts, j, k);
    a, b := parts[..k], parts[k..];
  }

  /** The merged words tile the same runes as the first i dictionary words. */
  lemma {:induction false} MixTiles(model: HMM.HMMModel, runes: seq<RuneStr>, user: set<Rune>, mp: seq<WordRange>,
                                    i: nat, parts: seq<WordRange>, lo: nat, hi: nat)
    requires model.Valid() && InRunes(runes, mp) && i <= |mp| && Tiles(mp, lo, hi)
    requires MixPieces(model, runes, user, mp, i, parts)
    ensures lo <= EndOf(mp, lo, i) && Tiles(parts, lo, EndOf(mp, lo, i))
    decreases i
  {
    if i == 0 {
    } else if !LeftOver(runes, user, mp[i - 1]) {
      MixTiles(model, runes, user, mp, i - 1, parts[..|parts| - 1], lo, hi);
      KeptTiles(mp, i, parts, lo, hi);
    } else {
      var j, a, b := LastReCut(model, runes, user, mp, i, parts);
      MixTiles(model, runes, user, mp, j, a, lo, hi);
      ReCutTiles(model, runes, user, mp, j, i, a, b, lo, hi);
    }
  }

  /** Every dictionary word that is not a left-over single rune is in the result unchanged. */
  lemma {:induction false} WordsSurvive(model: HMM.HMMModel, runes: seq<RuneStr>, user: set<Rune>, mp: seq<WordRange>,
                                        i: nat, parts: seq<WordRange>, n: nat)
    requires model.Valid() && InRunes(runes, mp) && n < i <= |mp|
    requires MixPieces(model, runes, user, mp, i, parts) && !LeftOver(runes, user, mp[n])
    ensures mp[n] in parts
    decreases i
  {
    if !LeftOver(runes, user, mp[i - 1]) {
      if n < i - 1 {
        WordsSurvive(model, runes, user, mp, i - 1, parts[..|parts| - 1], n);
      }
    } else {
      var j, a, b := LastReCut(model, runes, user, mp, i, parts);
      assert n < j;
      WordsSurvive(model, runes, user, mp, j, a, n);
    }
  }

  /** The parts from position p up to q are the model's words for the runes of words j up to i. */
  ghost predicate ReCutAt(model: HMM.HMMModel, runes: seq<RuneStr>, mp: seq<WordRange>, j: nat, i: nat,
                          parts: seq<WordRange>, p: nat, q: nat)
  {
    p <= q <= |parts| && ReCut(model, runes, mp, j, i, parts[p..q])
  }

  lemma ReCutKept(model: HMM.HMMModel, runes: seq<RuneStr>, mp: seq<WordRange>, j: nat, i: nat,
                  a: seq<WordRange>, b: seq<WordRange>, p: nat, q: nat)
    requires ReCutAt(model, runes, mp, j, i, a, p, q)
    ensures ReCutAt(model, runes, mp, j, i, a + b, p, q)
  {
    assert (a + b)[p..q] == a[p..q];
  }

  /** Every longest run of left-overs j..e-1 among the first i words is in the result as the model cuts it. */
  lemma {:induction false} RunsAreReCut(model: HMM.HMMModel, runes: seq<RuneStr>, user: set<Rune>, mp: seq<WordRange>,
                                        i: nat, parts: seq<WordRange>, j: nat, e: nat)
    returns (p: nat, q: nat)
    requires model.Valid() && InRunes(runes, mp) && e <= i <= |mp|
    requires MixPieces(model, runes, user, mp, i, parts) && LongestLeftOver(runes, user, mp, j, e)
    ensures ReCutAt(model, runes, mp, j, e, parts, p, q)
    decreases i
  {
    if !LeftOver(runes, user, mp[i - 1]) {
      var n := |parts| - 1;
      p, q := RunsAreReCut(model, runes, user, mp, i - 1, parts[..n], j, e);
      ReCutKept(model, runes, mp, j, e, parts[..n], [parts[n]], p, q);
      assert parts == parts[..n] + [parts[n]];
    } else {
      var k, a, b := LastReCut(model, runes, user, mp, i, parts);
      if e <= k {
        p, q := RunsAreReCut(model, runes, user, mp, k, a, j, e);
        ReCutKept(model, runes, mp, j, e, a, b, p, q);
      } else {
        SameRun(runes, user, mp, k, i, j, e);
        p, q := |a|, |parts|;
        assert parts[p..q] == b;
      }
    }
  }

  /** Longest runs that overlap are the same. */
  lemma SameRun(runes: seq<RuneStr>, user: set<Rune>, mp: seq<WordRange>, k: nat, i: nat, j: nat, e: nat)
    requires LongestLeftOver(runes, user, mp, k, i) && LongestLeftOver(runes, user, mp, j, e) && k < e <= i
    ensures j == k && e == i
  {
    if j < k {
      assert false;
    }
    if k < j {
      assert false;
    }
    if e < i {
      assert false;
    }
  }

  lemma PartsTile(lex: Lexicon, minWeight: real, user: set<Rune>, model: HMM.HMMModel, runes: seq<RuneStr>,
                  begin: nat, end: nat, hmm: bool, parts: seq<WordRange>)
    requires model.Valid() && begin <= end <= |runes|
    requires IsMixCut(lex, minWeight, user, model, runes, begin, end, hmm, parts)
    ensures Tiles(parts, begin, end)
  {
    var mp :| IsWordCut(lex, minWeight, runes, begin, end, mp) && IsMixOf(user, model, runes, hmm, mp, parts);
    if hmm {
      MixTiles(model, runes, user, mp, |mp|, parts, begin, end);
      NextStarts(mp, begin, end, |mp|);
    }
  }

  // ----- sentences

  /** The result of the range `Cut` on every range of the first hi runes, one behind the other. */
  ghost predicate SentencePieces(lex: Lexicon, minWeight: real, user: set<Rune>, model: HMM.HMMModel,
                                 symbols: set<Rune>, runes: seq<RuneStr>, hmm: bool, hi: nat, wrs: seq<WordRange>)
    decreases hi, 1
  {
    if hi == 0 then wrs == []
    else exists lo: nat, k: nat :: LastFrom(lex, minWeight, user, model, symbols, runes, hmm, hi, wrs, lo, k)
  }

  /** The last range starts at lo, and its words at wrs[k]. */
  ghost predicate LastFrom(lex: Lexicon, minWeight: real, user: set<Rune>, model: HMM.HMMModel,
                           symbols: set<Rune>, runes: seq<RuneStr>, hmm: bool, hi: nat, wrs: seq<WordRange>,
                           lo: nat, k: nat)
    decreases hi, 0
  {
    && lo < hi && k <= |wrs| && IsRange(symbols, runes, lo, hi)
    && SentencePieces(lex, minWeight, user, model, symbols, runes, hmm, lo, wrs[..k])
    && IsMixCut(lex, minWeight, user, model, runes, lo, hi, hmm, wrs[k..])
  }

  lemma AddRange(lex: Lexicon, minWeight: real, user: set<Rune>, model: HMM.HMMModel, symbols: set<Rune>,
                 runes: seq<RuneStr>, hmm: bool, lo: nat, hi: nat, a: seq<WordRange>, b: seq<WordRange>)
    requires IsRange(symbols, runes, lo, hi)
    requires SentencePieces(lex, minWeight, user, model, symbols, runes, hmm, lo, a)
    requires IsMixCut(lex, minWeight, user, model, runes, lo, hi, hmm, b)
    ensures SentencePieces(lex, minWeight, user, model, symbols, runes, hmm, hi, a + b)
  {
    assert (a + b)[..|a|] == a && (a + b)[|a|..] == b;
    assert LastFrom(lex, minWeight, user, model, symbols, runes, hmm, hi, a + b, lo, |a|);
  }

  /** The words are those of the ranges of the decoded sentence, range by range, as slices of its bytes. */
  ghost predicate IsSentenceCut(lex: Lexicon, minWeight: real, user: set<Rune>, model: HMM.HMMModel,
                                symbols: set<Rune>, sentence: seq<byte>, hmm: bool, words: seq<Word>)
  {
    exists runes, wrs ::
      && IsDecoding(sentence, runes) && WordsAt(sentence, runes, wrs, words)
      && SentencePieces(lex, minWeight, user, model, symbols, runes, hmm, |runes|, wrs)
  }

  /** The words of a sentence, range by range; a sentence that does not decode has no words. */
  method Cut(trie: Trie, minWeight: real, user: set<Rune>, model: HMM.HMMModel, symbols: set<Rune>,
             sentence: seq<byte>, hmm: bool) returns (words: seq<Word>)
    requires trie.Valid() && SelfNamed(trie.Contents()) && model.Valid() && |sentence| < 0x1_0000_0000
    ensures Decodable(sentence) ==> Bytes(words) == sentence
    ensures Decodable(sentence) ==>
              IsSentenceCut(trie.Contents(), minWeight, user, model, symbols, sentence, hmm, words)
    ensures !Decodable(sentence) ==> words == []
    ensures forall k | 0 <= k < |words| :: IsPlaced(sentence, words[k])
  {
    ghost var lex := trie.Contents();
    var runes, wrs := CutRanges(trie, lex, minWeight, user, model, symbols, sentence, hmm);
    SentenceTiles(lex, minWeight, user, model, symbols, runes, hmm, |runes|, wrs);
    words := WordsOfRanges(sentence, runes, wrs);
    assert Decodable(sentence) ==>
        IsDecoding(sentence, runes) && WordsAt(sentence, runes, wrs, words)
        && SentencePieces(lex, minWeight, user, model, symbols, runes, hmm, |runes|, wrs);
  }

  /** The last line of `Cut`. */
  method WordsOfRanges(sentence: seq<byte>, runes: seq<RuneStr>, wrs: seq<WordRange>) returns (words: seq<Word>)
    requires if Decodable(sentence) then IsDecoding(sentence, runes) else runes == []
    requires Tiles(wrs, 0, |runes|)
    ensures Decodable(sentence) ==> WordsAt(sentence, runes, wrs, words)
    ensures if Decodable(sentence) then Bytes(words) == sentence else words == []
    ensures forall k | 0 <= k < |words| :: IsPlaced(sentence, words[k])
  {
    TilesInside(wrs, 0, |runes|);
    words := GetWordsFromWordRanges(sentence, runes, wrs);
    WordsOfDecoding(sentence, runes, wrs, words);
  }

  /** Words at ranges that tile all runes spell the sentence, and each stands where it says. */
  lemma WordsOfDecoding(sentence: seq<byte>, runes: seq<RuneStr>, wrs: seq<WordRange>, words: seq<Word>)
    requires if Decodable(sentence) then IsDecoding(sentence, runes) else runes == []
    requires Tiles(wrs, 0, |runes|) && WordsAt(sentence, runes, wrs, words)
    ensures if Decodable(sentence) then Bytes(words) == sentence else words == []
    ensures forall k | 0 <= k < |words| :: IsPlaced(sentence, words[k])
  {
    WordsSpell(sentence, runes, wrs, words, 0, |runes|);
    WordsArePlaced(sentence, runes, wrs, words);
    SpanWhole(sentence, runes);
  }

  /** The loop of `Cut` over the ranges between separators. */
  method CutRanges(trie: Trie, ghost lex: Lexicon, minWeight: real, user: set<Rune>, model: HMM.HMMModel,
                   symbols: set<Rune>, sentence: seq<byte>, hmm: bool)
    returns (runes: seq<RuneStr>, wrs: seq<WordRange>)
    requires trie.Holds(lex) && SelfNamed(lex) && model.Valid() && |sentence| < 0x1_0000_0000
    ensures if Decodable(sentence) then IsDecoding(sentence, runes) else runes == []
    ensures SentencePieces(lex, minWeight, user, model, symbols, runes, hmm, |runes|, wrs)
  {
    var preFilter := new PreFilter(symbols, sentence);
    runes := preFilter.sentence;
    wrs := [];
    while preFilter.HasNext()
      invariant preFilter.Valid() && trie.Holds(lex)
      invariant SentencePieces(lex, minWeight, user, model, symbols, runes, hmm, preFilter.cursor, wrs)
      decreases |preFilter.sentence| - preFilter.cursor
    {
      wrs := CutNext(trie, lex, minWeight, user, model, preFilter, wrs, hmm);
    }
  }

  /** The body of the loop: the words of the next range go behind the words so far. */
  method CutNext(trie: Trie, ghost lex: Lexicon, minWeight: real, user: set<Rune>, model: HMM.HMMModel,
                 preFilter: PreFilter, wrs: seq<WordRange>, hmm: bool)
    returns (wrs': seq<WordRange>)
    requires trie.Holds(lex) && SelfNamed(lex) && model.Valid() && preFilter.Valid() && preFilter.HasNext()
    requires SentencePieces(lex, minWeight, user, model, preFilter.symbols, preFilter.sentence, hmm,
                            preFilter.cursor, wrs)
    modifies preFilter
    ensures trie.Holds(lex) && preFilter.Valid() && old(preFilter.cursor) < preFilter.cursor
    ensures SentencePieces(lex, minWeight, user, model, preFilter.symbols, preFilter.sentence, hmm,
                           preFilter.cursor, wrs')
  {
    var runes := preFilter.sentence;
    var range := preFilter.Next();
    wrs' := CutRange(trie, lex, minWeight, user, model, runes, range.begin, range.end, wrs, hmm);
    AddRange(lex, minWeight, user, model, preFilter.symbols, runes, hmm, range.begin, range.end,
             wrs, Added(wrs, wrs'));
  }

  lemma LastRange(lex: Lexicon, minWeight: real, user: set<Rune>, model: HMM.HMMModel, symbols: set<Rune>,
                  runes: seq<RuneStr>, hmm: bool, hi: nat, wrs: seq<WordRange>)
    returns (lo: nat, a: seq<WordRange>, b: seq<WordRange>)
    requires hi > 0 && SentencePieces(lex, minWeight, user, model, symbols, runes, hmm, hi, wrs)
    ensures lo < hi && wrs == a + b && IsRange(symbols, runes, lo, hi)
    ensures SentencePieces(lex, minWeight, user, model, symbols, runes, hmm, lo, a)
    ensures IsMixCut(lex, minWeight, user, model, runes, lo, hi, hmm, b)
  {
    var k: nat;
    lo, k :| LastFrom(lex, minWeight, user, model, symbols, runes, hmm, hi, wrs, lo, k);
    a, b := wrs[..k], wrs[k..];
  }

  /** The words of all ranges together tile the runes. */
  lemma {:induction false} SentenceTiles(lex: Lexicon, minWeight: real, user: set<Rune>, model: HMM.HMMModel,
                                         symbols: set<Rune>, runes: seq<RuneStr>, hmm: bool, hi: nat,
                                         wrs: seq<WordRange>)
    requires SentencePieces(lex, minWeight, user, model, symbols, runes, hmm, hi, wrs)
    ensures Tiles(wrs, 0, hi)
    decreases hi
  {
    if hi > 0 {
      var lo, a, b := LastRange(lex, minWeight, user, model, symbols, runes, hmm, hi, wrs);
      SentenceTiles(lex, minWeight, user, model, symbols, runes, hmm, lo, a);
      PartsTile(lex, minWeight, user, model, runes, lo, hi, hmm, b);
      TilesAppend(a, b, 0, lo, hi);
    }
  }

  /** A best segmentation into dictionary words of every range of the first hi runes. */
  ghost predicate SentenceWords(lex: Lexicon, minWeight: real, symbols: set<Rune>, runes: seq<RuneStr>, hi: nat,
                            mp: seq<WordRange>)
    decreases hi, 1
  {
    if hi == 0 then mp == []
    else exists lo: nat, k: nat :: LastWordsFrom(lex, minWeight, symbols, runes, hi, mp, lo, k)
  }

  ghost predicate LastWordsFrom(lex: Lexicon, minWeight: real, symbols: set<Rune>, runes: seq<RuneStr>, hi: nat,
                                mp: seq<WordRange>, lo: nat, k: nat)
    decreases hi, 0
  {
    && lo < hi && k <= |mp| && IsRange(symbols, runes, lo, hi)
    && SentenceWords(lex, minWeight, symbols, runes, lo, mp[..k])
    && IsWordCut(lex, minWeight, runes, lo, hi, mp[k..])
  }

  /** Without the model every dictionary word is kept, with it every one that is not a left-over single rune. */
  ghost predicate Survive(runes: seq<RuneStr>, user: set<Rune>, hmm: bool, mp: seq<WordRange>, wrs: seq<WordRange>)
  {
    InRunes(runes, mp) && forall n | 0 <= n < |mp| && (hmm ==> !LeftOver(runes, user, mp[n])) :: mp[n] in wrs
  }

  lemma RangeSurvives(lex: Lexicon, minWeight: real, user: set<Rune>, model: HMM.HMMModel, runes: seq<RuneStr>,
                      lo: nat, hi: nat, hmm: bool, parts: seq<WordRange>)
    returns (mp: seq<WordRange>)
    requires IsMixCut(lex, minWeight, user, model, runes, lo, hi, hmm, parts)
    ensures IsWordCut(lex, minWeight, runes, lo, hi, mp) && Survive(runes, user, hmm, mp, parts)
  {
    mp :| IsWordCut(lex, minWeight, runes, lo, hi, mp) && IsMixOf(user, model, runes, hmm, mp, parts);
    if hmm {
      forall n | 0 <= n < |mp| && !LeftOver(runes, user, mp[n]) ensures mp[n] in parts {
        WordsSurvive(model, runes, user, mp, |mp|, parts, n);
      }
    }
  }

  lemma SurviveJoin(runes: seq<RuneStr>, user: set<Rune>, hmm: bool, mp: seq<WordRange>, wrs: seq<WordRange>,
                    more: seq<WordRange>, parts: seq<WordRange>)
    requires Survive(runes, user, hmm, mp, wrs) && Survive(runes, user, hmm, more, parts)
    ensures Survive(runes, user, hmm, mp + more, wrs + parts)
  {
    var all := mp + more;
    assert forall n | 0 <= n < |all| :: all[n] == if n < |mp| then mp[n] else more[n - |mp|];
  }

  lemma {:induction false} RangesSurvive(lex: Lexicon, minWeight: real, user: set<Rune>, model: HMM.HMMModel,
                                         symbols: set<Rune>, runes: seq<RuneStr>, hmm: bool, hi: nat,
                                         wrs: seq<WordRange>)
    returns (mp: seq<WordRange>)
    requires SentencePieces(lex, minWeight, user, model, symbols, runes, hmm, hi, wrs)
    ensures SentenceWords(lex, minWeight, symbols, runes, hi, mp) && Survive(runes, user, hmm, mp, wrs)
    decreases hi
  {
    mp := [];
    if hi > 0 {
      var lo, a, b := LastRange(lex, minWeight, user, model, symbols, runes, hmm, hi, wrs);
      var before := RangesSurvive(lex, minWeight, user, model, symbols, runes, hmm, lo, a);
      var last := RangeSurvives(lex, minWeight, user, model, runes, lo, hi, hmm, b);
      mp := before + last;
      assert mp[..|before|] == before && mp[|before|..] == last;
      assert LastWordsFrom(lex, minWeight, symbols, runes, hi, mp, lo, |before|);
      SurviveJoin(runes, user, hmm, before, a, last, b);
    }
  }

  /**
    In the words of a sentence every word of a best dictionary segmentation of its ranges appears with
    its bytes and place, unless the model was asked for and it is a single rune the user did not name.
   */
  lemma WordsOfSentenceSurvive(lex: Lexicon, minWeight: real, user: set<Rune>, model: HMM.HMMModel,
                               symbols: set<Rune>, sentence: seq<byte>, hmm: bool, words: seq<Word>)
    returns (runes: seq<RuneStr>, mp: seq<WordRange>)
    requires IsSentenceCut(lex, minWeight, user, model, symbols, sentence, hmm, words)
    ensures IsDecoding(sentence, runes) && SentenceWords(lex, minWeight, symbols, runes, |runes|, mp)
    ensures InRunes(runes, mp) && forall n | 0 <= n < |mp| ::
              mp[n].left < mp[n].right || !hmm || runes[mp[n].left].rune in user ==>
              WordAt(sentence, runes, mp[n]) in words
  {
    var wrs;
    runes, wrs :| IsDecoding(sentence, runes) && WordsAt(sentence, runes, wrs, words)
                  && SentencePieces(lex, minWeight, user, model, symbols, runes, hmm, |runes|, wrs);
    mp := RangesSurvive(lex, minWeight, user, model, symbols, runes, hmm, |runes|, wrs);
    forall n | 0 <= n < |mp| && (mp[n].left < mp[n].right || !hmm || runes[mp[n].left].rune in user)
      ensures WordAt(sentence, runes, mp[n]) in words
    {
      assert mp[n] in wrs;
      var k :| 0 <= k < |wrs| && wrs[k] == mp[n];
      assert words[k] == WordAt(sentence, runes, mp[n]);
    }
  }
}
