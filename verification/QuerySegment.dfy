/**
  The segmenter behind the server's dictionary: every word of the default segmentation, preceded by
  the dictionary bigrams and trigrams inside it.
 */
module QuerySegment {
  import opened Facts
  import opened Unicode
  import opened WordTrie
  import HMM = HMMSegment
  import MixSegment

  /** The stored words of n runes that start at i.. and end inside w. */
  function Grams(lex: Lexicon, text: seq<Rune>, w: WordRange, n: nat, i: nat): (r: seq<WordRange>)
    requires w.left <= w.right < |text| && n > 0
    decreases w.Length() - i
  {
    if i + n > w.Length() then []
    else
      var wr := WordRange(w.left + i, w.left + i + n - 1);
      (if LookupSpan(lex, text, wr.left, wr.right).Some? then [wr] else []) + Grams(lex, text, w, n, i + 1)
  }

  /** The n-grams of w, for words longer than n. */
  function GramsOf(lex: Lexicon, text: seq<Rune>, w: WordRange, n: nat): (r: seq<WordRange>)
    requires w.left <= w.right < |text| && n > 0
  {
    if w.Length() > n then Grams(lex, text, w, n, 0) else []
  }

  /** The sub-words of w: bigrams when it is longer than two runes, trigrams when longer than three. */
  function SubWords(lex: Lexicon, text: seq<Rune>, w: WordRange): (r: seq<WordRange>)
    requires w.left <= w.right < |text|
  {
    GramsOf(lex, text, w, 2) + GramsOf(lex, text, w, 3)
  }

  function Expand(lex: Lexicon, text: seq<Rune>, mix: seq<WordRange>): (r: seq<WordRange>)
    requires forall k | 0 <= k < |mix| :: mix[k].left <= mix[k].right < |text|
  {
    if mix == [] then []
    else
      var n := |mix| - 1;
      Expand(lex, text, mix[..n]) + SubWords(lex, text, mix[n]) + [mix[n]]
  }

  /** A range is among the n-grams exactly when it is a stored word of n runes inside w. */
  lemma {:induction false} GramsMeaning(lex: Lexicon, text: seq<Rune>, w: WordRange, n: nat, i: nat, wr: WordRange)
    requires w.left <= w.right < |text| && n > 0
    ensures wr in Grams(lex, text, w, n, i) <==>
              && w.left + i <= wr.left <= wr.right <= w.right && wr.Length() == n
              && LookupSpan(lex, text, wr.left, wr.right).Some?
    decreases w.Length() - i
  {
    if i + n <= w.Length() {
      GramsMeaning(lex, text, w, n, i + 1, wr);
    }
  }

  // ----- what stands in front of a word, by the dictionary alone

  /** The ranges of n runes inside w that the dictionary holds, each once, from left to right. */
  ghost predicate IsGramList(lex: Lexicon, text: seq<Rune>, w: WordRange, n: int, grams: seq<WordRange>)
    requires w.left <= w.right < |text| && n > 0
  {
    && (forall wr :: wr in grams <==>
          && w.left <= wr.left && wr.right <= w.right && wr.right - wr.left == n - 1
          && text[wr.left..wr.right + 1] in lex)
    && (forall i, j | 0 <= i < j < |grams| :: grams[i].left < grams[j].left)
  }

  /** Stored ranges of two runes if w is longer, stored ranges of three runes if w is longer, then w. */
  ghost predicate IsBlock(lex: Lexicon, text: seq<Rune>, w: WordRange, block: seq<WordRange>)
    requires w.left <= w.right < |text|
  {
    exists bigrams, trigrams ::
      && block == bigrams + trigrams + [w]
      && (if w.right - w.left + 1 > 2 then IsGramList(lex, text, w, 2, bigrams) else bigrams == [])
      && (if w.right - w.left + 1 > 3 then IsGramList(lex, text, w, 3, trigrams) else trigrams == [])
  }

  /** The parts are one block for every word, in order. */
  ghost predicate AreBlocks(lex: Lexicon, text: seq<Rune>, mix: seq<WordRange>, parts: seq<WordRange>)
    requires forall k | 0 <= k < |mix| :: mix[k].left <= mix[k].right < |text|
    decreases |mix|, 1
  {
    if mix == [] then parts == []
    else exists k: nat :: LastBlockFrom(lex, text, mix, parts, k)
  }

  /** The last block starts at parts[k]. */
  ghost predicate LastBlockFrom(lex: Lexicon, text: seq<Rune>, mix: seq<WordRange>, parts: seq<WordRange>, k: nat)
    requires mix != [] && forall k | 0 <= k < |mix| :: mix[k].left <= mix[k].right < |text|
    decreases |mix|, 0
  {
    && k <= |parts| && AreBlocks(lex, text, mix[..|mix| - 1], parts[..k])
    && IsBlock(lex, text, mix[|mix| - 1], parts[k..])
  }

  ghost predicate LeftToRight(grams: seq<WordRange>, from: nat)
  {
    && (forall i | 0 <= i < |grams| :: from <= grams[i].left)
    && (forall i, j | 0 <= i < j < |grams| :: grams[i].left < grams[j].left)
  }

  /** With a range put in front or without. */
  lemma OneMoreGram(wr: WordRange, stored: bool, rest: seq<WordRange>, grams: seq<WordRange>)
    requires LeftToRight(rest, wr.left + 1)
    requires if stored then grams == [wr] + rest else grams == rest
    ensures LeftToRight(grams, wr.left)
  {
  }

  lemma GramsStep(lex: Lexicon, text: seq<Rune>, w: WordRange, n: nat, i: nat)
    requires w.left <= w.right < |text| && n > 0 && i + n <= w.Length()
    ensures var wr := WordRange(w.left + i, w.left + i + n - 1);
            if LookupSpan(lex, text, wr.left, wr.right).Some? then
              Grams(lex, text, w, n, i) == [wr] + Grams(lex, text, w, n, i + 1)
            else Grams(lex, text, w, n, i) == Grams(lex, text, w, n, i + 1)
  {
  }

  lemma {:induction false} GramsAscend(lex: Lexicon, text: seq<Rune>, w: WordRange, n: nat, i: nat)
    requires w.left <= w.right < |text| && n > 0
    ensures LeftToRight(Grams(lex, text, w, n, i), w.left + i)
    decreases w.Length() - i
  {
    if i + n <= w.Length() {
      GramsAscend(lex, text, w, n, i + 1);
      GramsStep(lex, text, w, n, i);
      var wr := WordRange(w.left + i, w.left + i + n - 1);
      OneMoreGram(wr, LookupSpan(lex, text, wr.left, wr.right).Some?, Grams(lex, text, w, n, i + 1),
                  Grams(lex, text, w, n, i));
    }
  }

  lemma GramsAreList(lex: Lexicon, text: seq<Rune>, w: WordRange, n: nat)
    requires w.left <= w.right < |text| && n > 0
    ensures IsGramList(lex, text, w, n, Grams(lex, text, w, n, 0))
  {
    GramsAscend(lex, text, w, n, 0);
    forall wr
      ensures wr in Grams(lex, text, w, n, 0) <==>
                && w.left <= wr.left && wr.right <= w.right && wr.right - wr.left == (n - 1) as int
                && text[wr.left..wr.right + 1] in lex
    {
      GramsMeaning(lex, text, w, n, 0, wr);
    }
  }

  /** What the segmenter puts in front of a word, and the word, are such a block. */
  lemma SubWordsMeaning(lex: Lexicon, text: seq<Rune>, w: WordRange)
    requires w.left <= w.right < |text|
    ensures IsBlock(lex, text, w, SubWords(lex, text, w) + [w])
  {
    GramsAreList(lex, text, w, 2);
    GramsAreList(lex, text, w, 3);
    assert SubWords(lex, text, w) + [w] == GramsOf(lex, text, w, 2) + GramsOf(lex, text, w, 3) + [w];
  }

  lemma AddBlock(lex: Lexicon, text: seq<Rune>, mix: seq<WordRange>, parts: seq<WordRange>, block: seq<WordRange>)
    requires mix != [] && forall k | 0 <= k < |mix| :: mix[k].left <= mix[k].right < |text|
    requires AreBlocks(lex, text, mix[..|mix| - 1], parts) && IsBlock(lex, text, mix[|mix| - 1], block)
    ensures AreBlocks(lex, text, mix, parts + block)
  {
    assert (parts + block)[..|parts|] == parts && (parts + block)[|parts|..] == block;
    assert LastBlockFrom(lex, text, mix, parts + block, |parts|);
  }

  lemma {:induction false} ExpandIsBlocks(lex: Lexicon, text: seq<Rune>, mix: seq<WordRange>)
    requires forall k | 0 <= k < |mix| :: mix[k].left <= mix[k].right < |text|
    ensures AreBlocks(lex, text, mix, Expand(lex, text, mix))
    decreases |mix|
  {
    if mix != [] {
      var n := |mix| - 1;
      ExpandIsBlocks(lex, text, mix[..n]);
      SubWordsMeaning(lex, text, mix[n]);
      AddBlock(lex, text, mix, Expand(lex, text, mix[..n]), SubWords(lex, text, mix[n]) + [mix[n]]);
      Regroup(Expand(lex, text, mix[..n]), SubWords(lex, text, mix[n]), [mix[n]]);
    }
  }

  predicate Inside(a: WordRange, b: WordRange) { b.left <= a.left && a.right <= b.right }

  /** Drops every range that lies inside a later one. */
  ghost function Outer(wrs: seq<WordRange>): (r: seq<WordRange>)
  {
    if wrs == [] then []
    else if exists k :: 0 < k < |wrs| && Inside(wrs[0], wrs[k]) then Outer(wrs[1..])
    else [wrs[0]] + Outer(wrs[1..])
  }

  lemma {:induction false} OuterSkips(inner: seq<WordRange>, w: WordRange, rest: seq<WordRange>)
    requires forall k | 0 <= k < |inner| :: Inside(inner[k], w)
    ensures Outer(inner + [w] + rest) == Outer([w] + rest)
    decreases |inner|
  {
    var all := inner + [w] + rest;
    if inner == [] {
      assert all == [w] + rest;
    } else {
      assert all[|inner|] == w && Inside(all[0], all[|inner|]);
      assert all[1..] == inner[1..] + [w] + rest;
      OuterSkips(inner[1..], w, rest);
    }
  }

  /** Sub-words lie inside the word they precede. */
  lemma SubWordsInside(lex: Lexicon, text: seq<Rune>, w: WordRange)
    requires w.left <= w.right < |text|
    ensures forall k | 0 <= k < |SubWords(lex, text, w)| :: Inside(SubWords(lex, text, w)[k], w)
  {
    var subs := SubWords(lex, text, w);
    forall k | 0 <= k < |subs| ensures Inside(subs[k], w) {
      GramsMeaning(lex, text, w, 2, 0, subs[k]);
      GramsMeaning(lex, text, w, 3, 0, subs[k]);
      var bi := GramsOf(lex, text, w, 2);
      assert subs[k] == if k < |bi| then bi[k] else GramsOf(lex, text, w, 3)[k - |bi|];
    }
  }

  lemma SplitLast(a: seq<WordRange>, b: seq<WordRange>)
    requires a != []
    ensures a + b == a[..|a| - 1] + ([a[|a| - 1]] + b)
  {
  }

  /** A word with its sub-words in front, followed by ranges further right, keeps only the word. */
  lemma OuterOfWord(lex: Lexicon, text: seq<Rune>, w: WordRange, rest: seq<WordRange>)
    requires w.left <= w.right < |text|
    requires forall k | 0 <= k < |rest| :: w.right < rest[k].left <= rest[k].right
    ensures Outer(SubWords(lex, text, w) + [w] + rest) == [w] + Outer(rest)
  {
    SubWordsInside(lex, text, w);
    OuterSkips(SubWords(lex, text, w), w, rest);
  }

  lemma WordFromLeft(lex: Lexicon, text: seq<Rune>, w: WordRange, rest: seq<WordRange>)
    requires w.left <= w.right < |text|
    requires forall k | 0 <= k < |rest| :: w.right < rest[k].left <= rest[k].right
    ensures var tail := SubWords(lex, text, w) + [w] + rest;
            forall k | 0 <= k < |tail| :: w.left <= tail[k].left <= tail[k].right
  {
    var subs := SubWords(lex, text, w);
    var tail := subs + [w] + rest;
    SubWordsInside(lex, text, w);
    SubWordsProper(lex, text, w);
    forall k | 0 <= k < |tail| ensures w.left <= tail[k].left <= tail[k].right {
      if k < |subs| {
        assert tail[k] == subs[k] && Inside(subs[k], w);
      } else if k > |subs| {
        assert tail[k] == rest[k - |subs| - 1];
      }
    }
  }

  lemma {:induction false} OuterOfExpand(lex: Lexicon, text: seq<Rune>, mix: seq<WordRange>, lo: nat, hi: nat,
                                         rest: seq<WordRange>)
    requires Tiles(mix, lo, hi) && hi <= |text|
    requires forall k | 0 <= k < |mix| :: mix[k].left <= mix[k].right < |text|
    requires forall k | 0 <= k < |rest| :: hi <= rest[k].left <= rest[k].right
    ensures Outer(Expand(lex, text, mix) + rest) == mix + Outer(rest)
    decreases |mix|
  {
    if mix == [] {
      assert Expand(lex, text, mix) + rest == rest;
      assert mix + Outer(rest) == Outer(rest);
    } else {
      var n := |mix| - 1;
      var w := mix[n];
      var tail := SubWords(lex, text, w) + [w] + rest;
      TilesInit(mix, lo, hi);
      WordFromLeft(lex, text, w, rest);
      OuterOfExpand(lex, text, mix[..n], lo, w.left, tail);
      OuterOfWord(lex, text, w, rest);
      Regroup(Expand(lex, text, mix[..n]) + SubWords(lex, text, w), [w], rest);
      Regroup(Expand(lex, text, mix[..n]), SubWords(lex, text, w), [w] + rest);
      Regroup(SubWords(lex, text, w), [w], rest);
      SplitLast(mix, Outer(rest));
    }
  }

  lemma SubWordsProper(lex: Lexicon, text: seq<Rune>, w: WordRange)
    requires w.left <= w.right < |text|
    ensures forall k | 0 <= k < |SubWords(lex, text, w)| :: SubWords(lex, text, w)[k].left <= SubWords(lex, text, w)[k].right
  {
    var subs := SubWords(lex, text, w);
    forall k | 0 <= k < |subs| ensures subs[k].left <= subs[k].right {
      GramsMeaning(lex, text, w, 2, 0, subs[k]);
      GramsMeaning(lex, text, w, 3, 0, subs[k]);
      var bi := GramsOf(lex, text, w, 2);
      assert subs[k] == if k < |bi| then bi[k] else GramsOf(lex, text, w, 3)[k - |bi|];
    }
  }

  lemma {:induction false} TilesInit(mix: seq<WordRange>, lo: nat, hi: nat)
    requires Tiles(mix, lo, hi) && mix != []
    ensures Tiles(mix[..|mix| - 1], lo, mix[|mix| - 1].left)
    ensures mix[|mix| - 1].left <= mix[|mix| - 1].right && mix[|mix| - 1].right + 1 == hi
  {
    if |mix| > 1 {
      TilesInit(mix[1..], mix[0].right + 1, hi);
      assert mix[1..][..|mix| - 2] == mix[..|mix| - 1][1..];
      TilesInside(mix[..|mix| - 1][1..], mix[0].right + 1, mix[|mix| - 1].left);
    }
  }

  /** Dropping the sub-words gives the default segmentation back. */
  lemma ExpandKeepsWords(lex: Lexicon, text: seq<Rune>, mix: seq<WordRange>, lo: nat, hi: nat)
    requires Tiles(mix, lo, hi) && hi <= |text|
    requires forall k | 0 <= k < |mix| :: mix[k].left <= mix[k].right < |text|
    ensures Outer(Expand(lex, text, mix)) == mix
  {
    OuterOfExpand(lex, text, mix, lo, hi, []);
    assert Expand(lex, text, mix) + [] == Expand(lex, text, mix);
    assert mix + [] == mix;
  }

  lemma ExpandNext(lex: Lexicon, text: seq<Rune>, mix: seq<WordRange>, m: nat, res: seq<WordRange>)
    requires m < |mix| && forall k | 0 <= k < |mix| :: mix[k].left <= mix[k].right < |text|
    ensures res + Expand(lex, text, mix[..m + 1]) == res + Expand(lex, text, mix[..m]) + SubWords(lex, text, mix[m]) + [mix[m]]
  {
    var before, subs := Expand(lex, text, mix[..m]), SubWords(lex, text, mix[m]);
    assert mix[..m + 1][..m] == mix[..m];
    assert Expand(lex, text, mix[..m + 1]) == before + subs + [mix[m]];
    Regroup(res, before, subs);
    Regroup(res, before + subs, [mix[m]]);
  }

  /** The range `Cut`, on the words of the default segmentation. */
  method EmitSubWords(trie: Trie, ghost lex: Lexicon, runes: seq<RuneStr>, mixRes: seq<WordRange>, res: seq<WordRange>)
    returns (res': seq<WordRange>)
    requires trie.Holds(lex) && MixSegment.InRunes(runes, mixRes)
    ensures res' == res + Expand(lex, RunesOf(runes), mixRes)
  {
    ghost var text := RunesOf(runes);
    res' := res;
    for m := 0 to |mixRes|
      invariant res' == res + Expand(lex, text, mixRes[..m])
    {
      res' := EmitWord(trie, lex, runes, mixRes[m], res');
      ExpandNext(lex, text, mixRes, m, res);
    }
    assert mixRes[..|mixRes|] == mixRes;
  }

  /** The body of the loop: the sub-words of w, then w. */
  method EmitWord(trie: Trie, ghost lex: Lexicon, runes: seq<RuneStr>, w: WordRange, res: seq<WordRange>)
    returns (res': seq<WordRange>)
    requires trie.Holds(lex) && w.left <= w.right < |runes|
    ensures res' == res + SubWords(lex, RunesOf(runes), w) + [w]
    ensures res <= res' && IsBlock(lex, RunesOf(runes), w, Added(res, res'))
  {
    ghost var text := RunesOf(runes);
    res' := EmitGrams(trie, lex, runes, w, 2, res);
    res' := EmitGrams(trie, lex, runes, w, 3, res');
    Regroup(res, GramsOf(lex, text, w, 2), GramsOf(lex, text, w, 3));
    res' := res' + [w];
    SubWordsMeaning(lex, text, w);
    Regroup(res, SubWords(lex, text, w), [w]);
    AddedOf(res, SubWords(lex, text, w) + [w]);
  }

  /** The grams before position i have been emitted behind res. */
  ghost predicate GramsBefore(lex: Lexicon, text: seq<Rune>, w: WordRange, n: nat, i: nat, res: seq<WordRange>,
                              res': seq<WordRange>)
    requires w.left <= w.right < |text| && n > 0
  {
    res' + Grams(lex, text, w, n, i) == res + Grams(lex, text, w, n, 0)
  }

  lemma GramStored(lex: Lexicon, text: seq<Rune>, w: WordRange, n: nat, i: nat, res: seq<WordRange>,
                   res': seq<WordRange>)
    requires w.left <= w.right < |text| && n > 0 && i + n <= w.Length() && GramsBefore(lex, text, w, n, i, res, res')
    ensures var wr := WordRange(w.left + i, w.left + i + n - 1);
            GramsBefore(lex, text, w, n, i + 1, res,
                        if LookupSpan(lex, text, wr.left, wr.right).Some? then res' + [wr] else res')
  {
    var wr := WordRange(w.left + i, w.left + i + n - 1);
    var rest := Grams(lex, text, w, n, i + 1);
    if LookupSpan(lex, text, wr.left, wr.right).Some? {
      Regroup(res', [wr], rest);
    } else {
      assert [] + rest == rest;
    }
  }

  lemma GramsDone(lex: Lexicon, text: seq<Rune>, w: WordRange, n: nat, i: nat, res: seq<WordRange>,
                  res': seq<WordRange>)
    requires w.left <= w.right < |text| && n > 0 && i + n > w.Length() && GramsBefore(lex, text, w, n, i, res, res')
    ensures res' == res + Grams(lex, text, w, n, 0)
  {
    assert res' + [] == res';
  }

  /** Either inner loop of `Cut` with its guard: n is 2, then 3. */
  method EmitGrams(trie: Trie, ghost lex: Lexicon, runes: seq<RuneStr>, w: WordRange, n: nat, res: seq<WordRange>)
    returns (res': seq<WordRange>)
    requires trie.Holds(lex) && w.left <= w.right < |runes| && 0 < n
    ensures res' == res + GramsOf(lex, RunesOf(runes), w, n)
  {
    ghost var text := RunesOf(runes);
    res' := res;
    if w.Length() > n {
      var i := 0;
      while i + n - 1 < w.Length()
        invariant 0 <= i <= w.Length() - n + 1
        invariant trie.Holds(lex) && GramsBefore(lex, text, w, n, i, res, res')
        decreases w.Length() - i
      {
        GramStored(lex, text, w, n, i, res, res');
        res' := EmitGram(trie, lex, runes, WordRange(w.left + i, w.left + i + n - 1), res');
        i := i + 1;
      }
      GramsDone(lex, text, w, n, i, res, res');
    }
  }

  /** The body of an inner loop. */
  method EmitGram(trie: Trie, ghost lex: Lexicon, runes: seq<RuneStr>, wr: WordRange, res: seq<WordRange>)
    returns (res': seq<WordRange>)
    requires trie.Holds(lex) && wr.left <= wr.right < |runes|
    ensures trie.Holds(lex)
    ensures if LookupSpan(lex, RunesOf(runes), wr.left, wr.right).Some? then res' == res + [wr] else res' == res
  {
    res' := res;
    var unit := trie.Find(runes, wr.left, wr.right + 1);
    if unit.Some? {
      res' := res' + [wr];
    }
  }

  /** The first line of `Cut`: the default segmentation alone. */
  method MixCut(trie: Trie, ghost lex: Lexicon, minWeight: real, user: set<Rune>, model: HMM.HMMModel,
                runes: seq<RuneStr>, begin: nat, end: nat, hmm: bool)
    returns (mixRes: seq<WordRange>)
    requires trie.Holds(lex) && SelfNamed(lex) && model.Valid() && begin <= end <= |runes|
    ensures trie.Holds(lex)
    ensures MixSegment.IsMixCut(lex, minWeight, user, model, runes, begin, end, hmm, mixRes)
  {
    mixRes := MixSegment.CutRange(trie, lex, minWeight, user, model, runes, begin, end, [], hmm);
    AddedOf([], mixRes);
    assert [] + mixRes == mixRes;
  }

  /** The range `Cut` of this segmenter: what is not a sub-word is the default segmentation. */
  method CutRange(trie: Trie, ghost lex: Lexicon, minWeight: real, user: set<Rune>, model: HMM.HMMModel,
                  runes: seq<RuneStr>, begin: nat, end: nat, res: seq<WordRange>, hmm: bool)
    returns (res': seq<WordRange>)
    requires trie.Holds(lex) && SelfNamed(lex) && model.Valid() && begin <= end <= |runes|
    ensures res <= res' && IsQueryCut(lex, minWeight, user, model, runes, begin, end, hmm, Added(res, res'))
  {
    var mixRes := MixCut(trie, lex, minWeight, user, model, runes, begin, end, hmm);
    MixCutExpands(lex, minWeight, user, model, runes, begin, end, hmm, mixRes);
    res' := EmitSubWords(trie, lex, runes, mixRes, res);
    AddedOf(res, Expand(lex, RunesOf(runes), mixRes));
  }

  /** The outer words are a default segmentation, and all words are one block for each of them. */
  ghost predicate IsQueryCut(lex: Lexicon, minWeight: real, user: set<Rune>, model: HMM.HMMModel, runes: seq<RuneStr>,
                             begin: nat, end: nat, hmm: bool, parts: seq<WordRange>)
  {
    model.Valid() && begin <= end <= |runes| &&
    var mix := Outer(parts);
    && MixSegment.IsMixCut(lex, minWeight, user, model, runes, begin, end, hmm, mix)
    && Tiles(mix, begin, end) && MixSegment.InRunes(runes, mix)
    && parts == Expand(lex, RunesOf(runes), mix) && AreBlocks(lex, RunesOf(runes), mix, parts)
  }

  lemma MixCutExpands(lex: Lexicon, minWeight: real, user: set<Rune>, model: HMM.HMMModel, runes: seq<RuneStr>,
                      begin: nat, end: nat, hmm: bool, mix: seq<WordRange>)
    requires model.Valid() && begin <= end <= |runes|
    requires MixSegment.IsMixCut(lex, minWeight, user, model, runes, begin, end, hmm, mix)
    ensures Tiles(mix, begin, end) && MixSegment.InRunes(runes, mix)
    ensures IsQueryCut(lex, minWeight, user, model, runes, begin, end, hmm, Expand(lex, RunesOf(runes), mix))
  {
    MixSegment.PartsTile(lex, minWeight, user, model, runes, begin, end, hmm, mix);
    TilesInside(mix, begin, end);
    ExpandKeepsWords(lex, RunesOf(runes), mix, begin, end);
    ExpandIsBlocks(lex, RunesOf(runes), mix);
  }
}
