/**
  Maximum-weight segmentation over the word graph. Weights are exact reals; every running total
  is cut off below at MIN_DOUBLE, because the pass starts from that value and improves only on a
  strictly larger one. A segmentation's score is therefore its floored score.
 */
module MPSegment {
  import opened Options
  import opened Unicode
  import opened WordTrie

  /** -3.14e+100 */
  const MIN_DOUBLE: real := -31400000000000000000000000000000000000000000000000000000000000000000000000000000000000000000000000000.0

  function Max(a: real, b: real): real { if a < b then b else a }

  // ----- what a segmentation is and what it is worth

  /** A piece is a single rune or a dictionary word of at most maxLen runes. */
  ghost predicate IsPiece(lex: Lexicon, text: seq<Rune>, maxLen: nat, wr: WordRange)
  {
    && wr.left <= wr.right < |text|
    && (wr.left == wr.right || (wr.Length() <= maxLen && LookupSpan(lex, text, wr.left, wr.right).Some?))
  }

  ghost predicate IsSegmentation(lex: Lexicon, text: seq<Rune>, maxLen: nat, seg: seq<WordRange>, lo: nat)
  {
    Tiles(seg, lo, |text|) && forall k | 0 <= k < |seg| :: IsPiece(lex, text, maxLen, seg[k])
  }

  /** Dictionary weight, or the smallest weight for a rune that is no word. */
  function PieceWeight(lex: Lexicon, minWeight: real, text: seq<Rune>, wr: WordRange): real
    requires wr.left <= wr.right < |text|
  {
    UnitWeight(LookupSpan(lex, text, wr.left, wr.right), minWeight)
  }

  function UnitWeight(unit: Option<DictUnit>, minWeight: real): real
  {
    if unit.Some? then unit.value.weight else minWeight
  }

  ghost predicate InText(text: seq<Rune>, seg: seq<WordRange>)
  {
    forall k | 0 <= k < |seg| :: seg[k].left <= seg[k].right < |text|
  }

  function Floored(lex: Lexicon, minWeight: real, text: seq<Rune>, seg: seq<WordRange>): real
    requires InText(text, seg)
  {
    if seg == [] then 0.0
    else Max(MIN_DOUBLE, Floored(lex, minWeight, text, seg[1..]) + PieceWeight(lex, minWeight, text, seg[0]))
  }

  function Total(lex: Lexicon, minWeight: real, text: seq<Rune>, seg: seq<WordRange>): real
    requires InText(text, seg)
  {
    if seg == [] then 0.0
    else Total(lex, minWeight, text, seg[1..]) + PieceWeight(lex, minWeight, text, seg[0])
  }

  /** The dictionary weights of the pieces that are in the dictionary. */
  function StoredWeight(lex: Lexicon, text: seq<Rune>, seg: seq<WordRange>): real
    requires InText(text, seg)
  {
    if seg == [] then 0.0
    else
      var word := text[seg[0].left..seg[0].right + 1];
      (if word in lex then lex[word].weight else 0.0) + StoredWeight(lex, text, seg[1..])
  }

  /** How many pieces are not in the dictionary. */
  function Unstored(lex: Lexicon, text: seq<Rune>, seg: seq<WordRange>): nat
    requires InText(text, seg)
  {
    if seg == [] then 0
    else (if text[seg[0].left..seg[0].right + 1] in lex then 0 else 1) + Unstored(lex, text, seg[1..])
  }

  /** The plain sum: the weights of the dictionary words, and the least weight once for every other piece. */
  lemma {:induction false} TotalMeaning(lex: Lexicon, minWeight: real, text: seq<Rune>, seg: seq<WordRange>)
    requires InText(text, seg)
    ensures Total(lex, minWeight, text, seg)
         == StoredWeight(lex, text, seg) + Unstored(lex, text, seg) as real * minWeight
  {
    if seg != [] {
      TotalMeaning(lex, minWeight, text, seg[1..]);
    }
  }

  /** No segmentation of the whole text scores higher. */
  ghost predicate Optimal(lex: Lexicon, minWeight: real, text: seq<Rune>, maxLen: nat, seg: seq<WordRange>)
  {
    && IsSegmentation(lex, text, maxLen, seg, 0)
    && forall other | IsSegmentation(lex, text, maxLen, other, 0) ::
         Floored(lex, minWeight, text, other) <= Floored(lex, minWeight, text, seg)
  }

  // ----- the shortest-path pass

  function WeightAt(dags: seq<Dag>, i: nat): real
  {
    if i < |dags| then dags[i].weight else 0.0
  }

  function EdgeValue(dags: seq<Dag>, e: Edge, minWeight: real): real
  {
    WeightAt(dags, e.last + 1) + UnitWeight(e.unit, minWeight)
  }

  /** Edge k attains the weight of column i above the floor, no edge before it does, and its entry is kept. */
  ghost predicate FirstToAttain(dags: seq<Dag>, i: nat, k: nat, minWeight: real)
  {
    && i < |dags| && k < |dags[i].nexts|
    && MIN_DOUBLE < dags[i].weight == EdgeValue(dags, dags[i].nexts[k], minWeight)
    && dags[i].nexts[k].unit == dags[i].pInfo
    && forall j | 0 <= j < k :: EdgeValue(dags, dags[i].nexts[j], minWeight) < dags[i].weight
  }

  /** Column i holds the best value over its first n edges, floored, and the entry of the first that attains it. */
  ghost predicate BestOf(dags: seq<Dag>, i: nat, n: nat, minWeight: real)
    requires i < |dags| && n <= |dags[i].nexts|
  {
    && dags[i].weight >= MIN_DOUBLE
    && (forall k | 0 <= k < n :: EdgeValue(dags, dags[i].nexts[k], minWeight) <= dags[i].weight)
    && (|| (dags[i].weight == MIN_DOUBLE && dags[i].pInfo == None)
        || exists k :: 0 <= k < n && FirstToAttain(dags, i, k, minWeight))
  }

  ghost predicate ColumnSolved(dags: seq<Dag>, i: nat, minWeight: real)
  {
    && i < |dags|
    && BestOf(dags, i, |dags[i].nexts|, minWeight)
  }

  /** Columns i and later are solved. */
  ghost predicate SolvedFrom(dags: seq<Dag>, i: nat, minWeight: real)
  {
    forall j {:trigger ColumnSolved(dags, j, minWeight)} | i <= j < |dags| :: ColumnSolved(dags, j, minWeight)
  }

  /** Edges leave every column and never point backwards. */
  ghost predicate Forward(dags: seq<Dag>)
  {
    forall i | 0 <= i < |dags| ::
      dags[i].nexts != [] && forall k | 0 <= k < |dags[i].nexts| :: i <= dags[i].nexts[k].last
  }

  ghost predicate SameGraph(a: seq<Dag>, b: seq<Dag>)
  {
    |a| == |b| && forall i | 0 <= i < |a| :: a[i].runestr == b[i].runestr && a[i].nexts == b[i].nexts
  }

  method CalcDP(dags: array<Dag>, minWeight: real)
    requires Forward(dags[..])
    modifies dags
    ensures SameGraph(old(dags[..]), dags[..])
    ensures SolvedFrom(dags[..], 0, minWeight)
  {
    for i := dags.Length downto 0
      invariant SameGraph(old(dags[..]), dags[..]) && Forward(dags[..])
      invariant SolvedFrom(dags[..], i, minWeight)
    {
      SolveColumn(dags, i, minWeight);
    }
  }

  /** The body of the outer loop: the best edge out of column i. */
  method SolveColumn(dags: array<Dag>, i: nat, minWeight: real)
    requires i < dags.Length && Forward(dags[..]) && SolvedFrom(dags[..], i + 1, minWeight)
    modifies dags
    ensures OnlyColumn(old(dags[..]), dags[..], i) && Forward(dags[..])
    ensures SolvedFrom(dags[..], i, minWeight)
  {
    ghost var before := dags[..];
    dags[i] := dags[i].(pInfo := None, weight := MIN_DOUBLE);
    for k := 0 to |dags[i].nexts|
      invariant OnlyColumn(before, dags[..], i)
      invariant BestOf(dags[..], i, k, minWeight)
    {
      ghost var prev := dags[..];
      var nextPos := dags[i].nexts[k].last;
      var p := dags[i].nexts[k].unit;
      var val := 0.0;
      if nextPos + 1 < dags.Length {
        val := val + dags[nextPos + 1].weight;
      }
      if p.Some? {
        val := val + p.value.weight;
      } else {
        val := val + minWeight;
      }
      assert val == EdgeValue(prev, prev[i].nexts[k], minWeight);
      if val > dags[i].weight {
        dags[i] := dags[i].(pInfo := p);
        dags[i] := dags[i].(weight := val);
      }
      ForwardKept(before, prev, i);
      Improve(prev, dags[..], i, k, minWeight);
    }
    ForwardKept(before, dags[..], i);
    LaterKept(before, dags[..], i, minWeight);
  }

  /** b differs from a at most in the result fields of column i. */
  ghost predicate OnlyColumn(a: seq<Dag>, b: seq<Dag>, i: nat)
  {
    && i < |a|
    && |a| == |b| && (forall j | 0 <= j < |a| && j != i :: b[j] == a[j])
    && b[i].runestr == a[i].runestr && b[i].nexts == a[i].nexts
  }

  lemma ForwardKept(a: seq<Dag>, b: seq<Dag>, i: nat)
    requires Forward(a) && OnlyColumn(a, b, i)
    ensures Forward(b)
  {
  }

  /** Edge values out of column j depend only on later columns. */
  lemma EdgesUnmoved(a: seq<Dag>, b: seq<Dag>, i: nat, j: nat, minWeight: real)
    requires Forward(a) && i <= j < |a| && OnlyColumn(a, b, i)
    ensures forall k | 0 <= k < |a[j].nexts| ::
              EdgeValue(a, a[j].nexts[k], minWeight) == EdgeValue(b, b[j].nexts[k], minWeight)
  {
  }

  lemma FirstKept(a: seq<Dag>, b: seq<Dag>, i: nat, j: nat, k: nat, minWeight: real)
    requires Forward(a) && i <= j < |a| && OnlyColumn(a, b, i) && a[j] == b[j] && FirstToAttain(a, j, k, minWeight)
    ensures FirstToAttain(b, j, k, minWeight)
  {
    EdgesUnmoved(a, b, i, j, minWeight);
  }

  /** One turn of the inner loop: edge k either beats the column's best value so far or does not. */
  lemma Improve(prev: seq<Dag>, cur: seq<Dag>, i: nat, k: nat, minWeight: real)
    requires Forward(prev) && i < |prev| && k < |prev[i].nexts| && BestOf(prev, i, k, minWeight)
    requires OnlyColumn(prev, cur, i)
    requires var val := EdgeValue(prev, prev[i].nexts[k], minWeight);
             if val > prev[i].weight then cur[i].weight == val && cur[i].pInfo == prev[i].nexts[k].unit
             else cur[i] == prev[i]
    ensures BestOf(cur, i, k + 1, minWeight)
  {
    var val := EdgeValue(prev, prev[i].nexts[k], minWeight);
    if val > prev[i].weight {
      EdgesUnmoved(prev, cur, i, i, minWeight);
      assert FirstToAttain(cur, i, k, minWeight);
    } else if prev[i].pInfo != None || prev[i].weight != MIN_DOUBLE {
      var m :| 0 <= m < k && FirstToAttain(prev, i, m, minWeight);
      FirstKept(prev, cur, i, i, m, minWeight);
    }
  }

  lemma LaterKept(a: seq<Dag>, b: seq<Dag>, i: nat, minWeight: real)
    requires Forward(a) && i < |a| && OnlyColumn(a, b, i) && SolvedFrom(a, i + 1, minWeight)
    requires ColumnSolved(b, i, minWeight)
    ensures SolvedFrom(b, i, minWeight)
  {
    forall j | i < j < |b| ensures ColumnSolved(b, j, minWeight) {
      assert ColumnSolved(a, j, minWeight);
      EdgesUnmoved(a, b, i, j, minWeight);
      if a[j].pInfo != None || a[j].weight != MIN_DOUBLE {
        var m :| 0 <= m < |a[j].nexts| && FirstToAttain(a, j, m, minWeight);
        FirstKept(a, b, i, j, m, minWeight);
      }
    }
  }

  // ----- reading the segmentation off the graph

  /** The step CutByDag takes from column i. */
  function StepLength(dags: seq<Dag>, i: nat): nat
    requires i < |dags|
  {
    if dags[i].pInfo.Some? then |dags[i].pInfo.value.word| else 1
  }

  /** Chosen words are non-empty and stay inside the text. */
  ghost predicate Steppable(dags: seq<Dag>)
  {
    forall i | 0 <= i < |dags| :: 1 <= StepLength(dags, i) <= |dags| - i
  }

  /** The ranges step through the graph from column lo to column hi. */
  ghost predicate Follows(dags: seq<Dag>, seg: seq<WordRange>, lo: nat, hi: nat)
  {
    && Tiles(seg, lo, hi) && hi <= |dags|
    && forall k | 0 <= k < |seg| ::
         seg[k].left < |dags| && seg[k].Length() == StepLength(dags, seg[k].left)
  }

  function Shift(seg: seq<WordRange>, offset: nat): (r: seq<WordRange>)
    ensures |r| == |seg|
    ensures forall k | 0 <= k < |seg| :: r[k] == WordRange(seg[k].left + offset, seg[k].right + offset)
  {
    seq(|seg|, k requires 0 <= k < |seg| => WordRange(seg[k].left + offset, seg[k].right + offset))
  }

  /** The ranges step through the whole graph, placed from begin on. */
  ghost predicate FollowsAt(dags: seq<Dag>, begin: nat, parts: seq<WordRange>)
  {
    exists seg :: parts == Shift(seg, begin) && Follows(dags, seg, 0, |dags|)
  }

  method CutByDag(begin: nat, dags: array<Dag>, words: seq<WordRange>) returns (words': seq<WordRange>)
    requires Steppable(dags[..])
    ensures words <= words' && FollowsAt(dags[..], begin, Added(words, words'))
  {
    words' := words;
    ghost var seg: seq<WordRange> := [];
    ghost var graph := dags[..];
    var i := 0;
    while i < dags.Length
      invariant 0 <= i <= dags.Length
      invariant words' == words + Shift(seg, begin) && Follows(graph, seg, 0, i)
    {
      ghost var piece := WordRange(i, i + StepLength(graph, i) - 1);
      FollowsSnoc(graph, seg, i, piece);
      ShiftSnoc(words, seg, begin, piece);
      var p := dags[i].pInfo;
      if p.Some? {
        var wr := WordRange(begin + i, begin + i + |p.value.word| - 1);
        words' := words' + [wr];
        i := i + |p.value.word|;
      } else {
        var wr := WordRange(begin + i, begin + i);
        words' := words' + [wr];
        i := i + 1;
      }
      seg := seg + [piece];
    }
    AddedOf(words, Shift(seg, begin));
  }

  lemma ShiftSnoc(words: seq<WordRange>, seg: seq<WordRange>, begin: nat, piece: WordRange)
    ensures words + Shift(seg + [piece], begin)
         == words + Shift(seg, begin) + [WordRange(begin + piece.left, begin + piece.right)]
  {
    assert Shift(seg + [piece], begin) == Shift(seg, begin) + [WordRange(piece.left + begin, piece.right + begin)];
  }

  lemma FollowsSnoc(dags: seq<Dag>, seg: seq<WordRange>, i: nat, piece: WordRange)
    requires Follows(dags, seg, 0, i) && i < |dags| && 1 <= StepLength(dags, i) <= |dags| - i
    requires piece == WordRange(i, i + StepLength(dags, i) - 1)
    ensures Follows(dags, seg + [piece], 0, i + StepLength(dags, i))
  {
    TilesAppend(seg, [piece], 0, i, i + StepLength(dags, i));
  }

  // ----- optimality

  /** What the pass and the walk need from the graph: naive columns of a self-named dictionary, solved. */
  ghost predicate SolvedGraph(lex: Lexicon, minWeight: real, text: seq<Rune>, maxLen: nat, dags: seq<Dag>)
  {
    && SelfNamed(lex) && |dags| == |text|
    && (forall i {:trigger NaiveNexts(lex, text, i, maxLen)} | 0 <= i < |dags| ::
          dags[i].nexts == NaiveNexts(lex, text, i, maxLen))
    && SolvedFrom(dags, 0, minWeight)
  }

  /** The entry chosen in column i belongs to an edge of that column and names its exact span. */
  lemma ChosenStep(lex: Lexicon, minWeight: real, text: seq<Rune>, maxLen: nat, dags: seq<Dag>, i: nat)
    requires SolvedGraph(lex, minWeight, text, maxLen, dags) && i < |dags|
    ensures 1 <= StepLength(dags, i) <= |dags| - i
    ensures var wr := WordRange(i, i + StepLength(dags, i) - 1);
            && IsPiece(lex, text, maxLen, wr)
            && Max(MIN_DOUBLE, WeightAt(dags, i + StepLength(dags, i)) + PieceWeight(lex, minWeight, text, wr))
               == dags[i].weight
  {
    assert ColumnSolved(dags, i, minWeight);
    var nexts := dags[i].nexts;
    assert nexts == NaiveNexts(lex, text, i, maxLen);
    assert nexts[0] == Edge(i, LookupSpan(lex, text, i, i));
    assert EdgeValue(dags, nexts[0], minWeight) <= dags[i].weight;
    if exists k :: 0 <= k < |nexts| && EdgeValue(dags, nexts[k], minWeight) == dags[i].weight
                   && nexts[k].unit == dags[i].pInfo {
      var k :| 0 <= k < |nexts| && EdgeValue(dags, nexts[k], minWeight) == dags[i].weight
               && nexts[k].unit == dags[i].pInfo;
      assert nexts[k] in nexts;
      NaiveNextsMeaning(lex, text, i, maxLen, nexts[k]);
      if nexts[k].unit.Some? {
        assert lex[text[i..nexts[k].last + 1]].word == text[i..nexts[k].last + 1];
        assert StepLength(dags, i) == nexts[k].last + 1 - i;
      }
    }
  }

  lemma SolvedIsSteppable(lex: Lexicon, minWeight: real, text: seq<Rune>, maxLen: nat, dags: seq<Dag>)
    requires SolvedGraph(lex, minWeight, text, maxLen, dags)
    ensures Steppable(dags)
  {
    forall i | 0 <= i < |dags| ensures 1 <= StepLength(dags, i) <= |dags| - i {
      ChosenStep(lex, minWeight, text, maxLen, dags, i);
    }
  }

  /** Ranges that step through the graph from column lo on are worth exactly the weight of that column. */
  lemma {:induction false} WalkAttains(lex: Lexicon, minWeight: real, text: seq<Rune>, maxLen: nat, dags: seq<Dag>,
                                       seg: seq<WordRange>, lo: nat)
    requires SolvedGraph(lex, minWeight, text, maxLen, dags) && Follows(dags, seg, lo, |dags|)
    ensures IsSegmentation(lex, text, maxLen, seg, lo)
    ensures Floored(lex, minWeight, text, seg) == WeightAt(dags, lo)
    decreases |seg|
  {
    if seg != [] {
      TilesInside(seg, lo, |text|);
      assert seg[0].Length() == StepLength(dags, lo);
      ChosenStep(lex, minWeight, text, maxLen, dags, lo);
      WalkAttains(lex, minWeight, text, maxLen, dags, seg[1..], seg[0].right + 1);
    }
  }

  /** A piece that starts at i is worth no more than column i allows. */
  lemma PieceWithinColumn(lex: Lexicon, minWeight: real, text: seq<Rune>, maxLen: nat, dags: seq<Dag>, wr: WordRange)
    requires SolvedGraph(lex, minWeight, text, maxLen, dags) && IsPiece(lex, text, maxLen, wr)
    ensures WeightAt(dags, wr.right + 1) + PieceWeight(lex, minWeight, text, wr) <= dags[wr.left].weight
    ensures MIN_DOUBLE <= dags[wr.left].weight
  {
    var i := wr.left;
    var e := Edge(wr.right, LookupSpan(lex, text, i, wr.right));
    NaiveNextsMeaning(lex, text, i, maxLen, e);
    assert ColumnSolved(dags, i, minWeight);
    var k :| 0 <= k < |dags[i].nexts| && dags[i].nexts[k] == e;
    assert EdgeValue(dags, dags[i].nexts[k], minWeight) <= dags[i].weight;
  }

  /** Column weights bound every piece followed by the best that can come after it. */
  ghost predicate Dominates(lex: Lexicon, minWeight: real, text: seq<Rune>, maxLen: nat, dags: seq<Dag>)
  {
    && |dags| == |text|
    && forall wr | IsPiece(lex, text, maxLen, wr) ::
         && WeightAt(dags, wr.right + 1) + PieceWeight(lex, minWeight, text, wr) <= dags[wr.left].weight
         && MIN_DOUBLE <= dags[wr.left].weight
  }

  lemma ColumnsDominate(lex: Lexicon, minWeight: real, text: seq<Rune>, maxLen: nat, dags: seq<Dag>)
    requires SolvedGraph(lex, minWeight, text, maxLen, dags)
    ensures Dominates(lex, minWeight, text, maxLen, dags)
  {
    forall wr | IsPiece(lex, text, maxLen, wr)
      ensures WeightAt(dags, wr.right + 1) + PieceWeight(lex, minWeight, text, wr) <= dags[wr.left].weight
      ensures MIN_DOUBLE <= dags[wr.left].weight
    {
      PieceWithinColumn(lex, minWeight, text, maxLen, dags, wr);
    }
  }

  /** No segmentation from position i on beats the weight of column i. */
  lemma {:induction false} NoneBetter(lex: Lexicon, minWeight: real, text: seq<Rune>, maxLen: nat, dags: seq<Dag>,
                                      seg: seq<WordRange>, i: nat)
    requires Dominates(lex, minWeight, text, maxLen, dags)
    requires IsSegmentation(lex, text, maxLen, seg, i)
    ensures Floored(lex, minWeight, text, seg) <= WeightAt(dags, i)
    decreases |seg|
  {
    if seg != [] {
      NoneBetter(lex, minWeight, text, maxLen, dags, seg[1..], seg[0].right + 1);
    }
  }

  /** The walk through a solved graph is optimal, and its score is the first weight. */
  lemma WalkIsOptimal(lex: Lexicon, minWeight: real, text: seq<Rune>, maxLen: nat, dags: seq<Dag>, seg: seq<WordRange>)
    requires SolvedGraph(lex, minWeight, text, maxLen, dags) && Follows(dags, seg, 0, |dags|)
    ensures Optimal(lex, minWeight, text, maxLen, seg)
    ensures Floored(lex, minWeight, text, seg) == WeightAt(dags, 0)
  {
    WalkAttains(lex, minWeight, text, maxLen, dags, seg, 0);
    ColumnsDominate(lex, minWeight, text, maxLen, dags);
    forall other | IsSegmentation(lex, text, maxLen, other, 0)
      ensures Floored(lex, minWeight, text, other) <= Floored(lex, minWeight, text, seg)
    {
      NoneBetter(lex, minWeight, text, maxLen, dags, other, 0);
    }
  }

  // ----- ties

  /** No running total is cut off. */
  ghost predicate StrictlyAbove(lex: Lexicon, minWeight: real, text: seq<Rune>, seg: seq<WordRange>)
    requires InText(text, seg)
  {
    seg != [] ==> Floored(lex, minWeight, text, seg) > MIN_DOUBLE && StrictlyAbove(lex, minWeight, text, seg[1..])
  }

  /** Where a and b differ first, a has the shorter piece. */
  ghost predicate ShorterFirst(a: seq<WordRange>, b: seq<WordRange>)
  {
    exists k :: && 0 <= k < |a| && k < |b| && a[..k] == b[..k]
                && a[k].left == b[k].left && a[k].right < b[k].right
  }

  lemma ShorterBehind(w: WordRange, a: seq<WordRange>, b: seq<WordRange>)
    requires ShorterFirst(a, b)
    ensures ShorterFirst([w] + a, [w] + b)
  {
    var k :| && 0 <= k < |a| && k < |b| && a[..k] == b[..k] && a[k].left == b[k].left && a[k].right < b[k].right;
    var p, q := [w] + a, [w] + b;
    assert p[..k + 1] == [w] + a[..k] && q[..k + 1] == [w] + b[..k];
    assert p[k + 1] == a[k] && q[k + 1] == b[k];
  }

  /** Above the floor the step taken from a column is its first edge that attains the weight. */
  lemma StepIsFirst(lex: Lexicon, minWeight: real, text: seq<Rune>, maxLen: nat, dags: seq<Dag>, i: nat)
    returns (k: nat)
    requires SolvedGraph(lex, minWeight, text, maxLen, dags) && i < |dags| && dags[i].weight > MIN_DOUBLE
    ensures FirstToAttain(dags, i, k, minWeight) && dags[i].nexts[k].last == i + StepLength(dags, i) - 1
  {
    assert ColumnSolved(dags, i, minWeight);
    k :| 0 <= k < |dags[i].nexts| && FirstToAttain(dags, i, k, minWeight);
    var e := dags[i].nexts[k];
    assert dags[i].nexts == NaiveNexts(lex, text, i, maxLen);
    assert e in dags[i].nexts;
    NaiveNextsMeaning(lex, text, i, maxLen, e);
    if e.unit.Some? {
      assert lex[text[i..e.last + 1]].word == text[i..e.last + 1];
    }
  }

  /** A segmentation that is as good as the column allows is so behind its first piece too, which is no shorter. */
  lemma NoShorterTie(lex: Lexicon, minWeight: real, text: seq<Rune>, maxLen: nat, dags: seq<Dag>, wr: WordRange,
                     rest: real)
    requires SolvedGraph(lex, minWeight, text, maxLen, dags) && IsPiece(lex, text, maxLen, wr)
    requires rest <= WeightAt(dags, wr.right + 1)
    requires MIN_DOUBLE < dags[wr.left].weight == rest + PieceWeight(lex, minWeight, text, wr)
    ensures rest == WeightAt(dags, wr.right + 1)
    ensures wr.left + StepLength(dags, wr.left) - 1 <= wr.right
  {
    var i := wr.left;
    var e := Edge(wr.right, LookupSpan(lex, text, i, wr.right));
    PieceWithinColumn(lex, minWeight, text, maxLen, dags, wr);
    NaiveNextsMeaning(lex, text, i, maxLen, e);
    NaiveNextsAscend(lex, text, i, maxLen);
    var nexts := NaiveNexts(lex, text, i, maxLen);
    assert dags[i].nexts == nexts;
    var j :| 0 <= j < |nexts| && nexts[j] == e;
    var k := StepIsFirst(lex, minWeight, text, maxLen, dags, i);
    assert EdgeValue(dags, dags[i].nexts[j], minWeight) == dags[i].weight;
  }

  /** Of the segmentations as good as the column allows the walk takes the shortest piece first. */
  lemma {:induction false} TieIsBroken(lex: Lexicon, minWeight: real, text: seq<Rune>, maxLen: nat, dags: seq<Dag>,
                                       seg: seq<WordRange>, other: seq<WordRange>, lo: nat)
    requires SolvedGraph(lex, minWeight, text, maxLen, dags) && Dominates(lex, minWeight, text, maxLen, dags)
    requires Follows(dags, seg, lo, |dags|) && IsSegmentation(lex, text, maxLen, other, lo) && other != seg
    requires Floored(lex, minWeight, text, other) == WeightAt(dags, lo)
    requires StrictlyAbove(lex, minWeight, text, other)
    ensures ShorterFirst(seg, other)
    decreases |seg|
  {
    assert seg != [] && other != [];
    var wr, step, tail := other[0], seg[0], other[1..];
    TilesInside(seg, lo, |dags|);
    NoneBetter(lex, minWeight, text, maxLen, dags, tail, wr.right + 1);
    NoShorterTie(lex, minWeight, text, maxLen, dags, wr, Floored(lex, minWeight, text, tail));
    assert step.Length() == StepLength(dags, lo);
    if step.right == wr.right {
      assert seg == [step] + seg[1..] && other == [step] + tail;
      TieIsBroken(lex, minWeight, text, maxLen, dags, seg[1..], tail, wr.right + 1);
      ShorterBehind(step, seg[1..], tail);
    } else {
      assert seg[..0] == other[..0];
    }
  }

  /** Among equally good segmentations above the floor, the one with the shorter piece where they first differ. */
  ghost predicate FirstOfTies(lex: Lexicon, minWeight: real, text: seq<Rune>, maxLen: nat, seg: seq<WordRange>)
  {
    forall other | Optimal(lex, minWeight, text, maxLen, other) && StrictlyAbove(lex, minWeight, text, other)
                   && other != seg :: ShorterFirst(seg, other)
  }

  lemma WalkIsFirst(lex: Lexicon, minWeight: real, text: seq<Rune>, maxLen: nat, dags: seq<Dag>, seg: seq<WordRange>)
    requires SolvedGraph(lex, minWeight, text, maxLen, dags) && Follows(dags, seg, 0, |dags|)
    ensures FirstOfTies(lex, minWeight, text, maxLen, seg)
  {
    WalkIsOptimal(lex, minWeight, text, maxLen, dags, seg);
    ColumnsDominate(lex, minWeight, text, maxLen, dags);
    forall other | Optimal(lex, minWeight, text, maxLen, other) && StrictlyAbove(lex, minWeight, text, other)
                   && other != seg
      ensures ShorterFirst(seg, other)
    {
      TieIsBroken(lex, minWeight, text, maxLen, dags, seg, other, 0);
    }
  }

  lemma WordGraphForward(lex: Lexicon, runes: seq<RuneStr>, maxLen: nat, dags: seq<Dag>)
    requires IsWordGraph(lex, runes, maxLen, dags)
    ensures Forward(dags)
  {
    forall i, k | 0 <= i < |dags| && 0 <= k < |dags[i].nexts| ensures i <= dags[i].nexts[k].last {
      assert dags[i].nexts[k] in dags[i].nexts;
      NaiveNextsMeaning(lex, RunesOf(runes), i, maxLen, dags[i].nexts[k]);
    }
  }

  /** The ranges, placed from begin on, are a best segmentation of the text, ties broken. */
  ghost predicate IsBestCut(lex: Lexicon, minWeight: real, text: seq<Rune>, maxLen: nat, begin: nat,
                            parts: seq<WordRange>)
  {
    exists seg ::
      && parts == Shift(seg, begin) && Optimal(lex, minWeight, text, maxLen, seg)
      && FirstOfTies(lex, minWeight, text, maxLen, seg)
  }

  /** `CutByDag` after `CalcDP`, on the word graph of a text. */
  method CutGraph(ghost lex: Lexicon, minWeight: real, ghost text: seq<RuneStr>, ghost maxLen: nat,
                  begin: nat, dags: array<Dag>, words: seq<WordRange>)
    returns (words': seq<WordRange>)
    requires SelfNamed(lex) && IsWordGraph(lex, text, maxLen, dags[..])
    modifies dags
    ensures words <= words' && IsBestCut(lex, minWeight, RunesOf(text), maxLen, begin, Added(words, words'))
    ensures forall seg | Optimal(lex, minWeight, RunesOf(text), maxLen, seg) ::
              Floored(lex, minWeight, RunesOf(text), seg) == WeightAt(dags[..], 0)
  {
    WordGraphForward(lex, text, maxLen, dags[..]);
    CalcDP(dags, minWeight);
    SolvedIsSteppable(lex, minWeight, RunesOf(text), maxLen, dags[..]);
    words' := CutByDag(begin, dags, words);
    ghost var seg :| Added(words, words') == Shift(seg, begin) && Follows(dags[..], seg, 0, dags.Length);
    WalkIsOptimal(lex, minWeight, RunesOf(text), maxLen, dags[..], seg);
    WalkIsFirst(lex, minWeight, RunesOf(text), maxLen, dags[..], seg);
  }

  /** The range `Cut`: appends an optimal segmentation of the runes begin..end-1. */
  method CutRange(trie: Trie, minWeight: real, runes: seq<RuneStr>, begin: nat, end: nat,
                  words: seq<WordRange>, maxWordLen: nat)
    returns (words': seq<WordRange>)
    requires trie.Valid() && SelfNamed(trie.Contents()) && begin <= end <= |runes|
    ensures words <= words'
    ensures IsBestCut(trie.Contents(), minWeight, RunesOf(runes[begin..end]), maxWordLen, begin, Added(words, words'))
  {
    ghost var lex := trie.Contents();
    var dags := trie.FindDag(runes, begin, end, maxWordLen);
    words' := CutGraph(lex, minWeight, runes[begin..end], maxWordLen, begin, dags, words);
  }

  // ----- the floor

  /** n times b. */
  function Times(n: nat, b: real): real
  {
    if n == 0 then 0.0 else Times(n - 1, b) + b
  }

  lemma {:induction false} TimesIsProduct(n: nat, b: real)
    ensures Times(n, b) == n as real * b
  {
    if n > 0 {
      TimesIsProduct(n - 1, b);
    }
  }

  /** A one followed by n zeros. */
  function TenTo(n: nat): int
  {
    if n == 0 then 1 else 10 * TenTo(n - 1)
  }

  lemma {:induction false} TenToSum(m: nat, n: nat)
    ensures TenTo(m + n) == TenTo(m) * TenTo(n)
  {
    if m > 0 {
      TenToSum(m - 1, n);
    }
  }

  lemma TenToFifty()
    ensures TenTo(10) == 1_00000_00000
    ensures TenTo(50) == 1_00000_00000_00000_00000_00000_00000_00000_00000_00000_00000
  {
    assert TenTo(5) == 10 * TenTo(4) && TenTo(4) == 10 * TenTo(3) && TenTo(3) == 10 * TenTo(2) && TenTo(2) == 100;
    TenToSum(5, 5);
    TenToSum(10, 10);
    TenToSum(20, 20);
    TenToSum(40, 10);
  }

  /** The floor is -3.14 times ten to the hundredth. */
  lemma FloorValue()
    ensures MIN_DOUBLE == -3.14 * TenTo(100) as real
  {
    TenToFifty();
    TenToSum(50, 50);
  }

  /** Fewer than 2^32 weights of at least minus ten to the ninetieth do not add up to the floor. */
  lemma FloorIsFar(n: nat)
    requires n < 0x1_0000_0000
    ensures Times(n, TenTo(90) as real) <= -MIN_DOUBLE
  {
    FloorValue();
    TenToFifty();
    TenToSum(10, 90);
    TenToPositive(90);
    TimesIsProduct(n, TenTo(90) as real);
    ProductGrows(n as real, 10000000000.0, TenTo(90) as real);
  }

  lemma {:induction false} TenToPositive(n: nat)
    ensures TenTo(n) > 0
  {
    if n > 0 {
      TenToPositive(n - 1);
    }
  }

  lemma ProductGrows(a: real, b: real, c: real)
    requires a <= b && c >= 0.0
    ensures a * c <= b * c
  {
  }

  lemma {:induction false} TimesGrows(m: nat, n: nat, b: real)
    requires m <= n && b >= 0.0
    ensures Times(m, b) <= Times(n, b)
  {
    if m < n {
      TimesGrows(m, n - 1, b);
    }
  }

  /** Every piece weighs at least -bound. */
  ghost predicate Bounded(lex: Lexicon, minWeight: real, bound: real)
  {
    minWeight >= -bound && forall w | w in lex :: lex[w].weight >= -bound
  }

  /** Flooring never lowers a score. */
  lemma {:induction false} FlooredAtLeastTotal(lex: Lexicon, minWeight: real, text: seq<Rune>, seg: seq<WordRange>)
    requires InText(text, seg)
    ensures Total(lex, minWeight, text, seg) <= Floored(lex, minWeight, text, seg)
  {
    if seg != [] {
      FlooredAtLeastTotal(lex, minWeight, text, seg[1..]);
    }
  }

  lemma {:induction false} FloorUnreached(lex: Lexicon, minWeight: real, text: seq<Rune>, seg: seq<WordRange>,
                          bound: real)
    requires InText(text, seg) && bound >= 0.0
    requires Bounded(lex, minWeight, bound) && Times(|seg|, bound) <= -MIN_DOUBLE
    ensures Total(lex, minWeight, text, seg) == Floored(lex, minWeight, text, seg)
    ensures Total(lex, minWeight, text, seg) >= -Times(|seg|, bound)
  {
    if seg != [] {
      FloorUnreached(lex, minWeight, text, seg[1..], bound);
      assert PieceWeight(lex, minWeight, text, seg[0]) >= -bound;
    }
  }

  lemma {:induction false} AtMostOnePiecePerRune(seg: seq<WordRange>, lo: nat, hi: nat)
    requires Tiles(seg, lo, hi)
    ensures |seg| <= hi - lo
  {
    if seg != [] {
      AtMostOnePiecePerRune(seg[1..], seg[0].right + 1, hi);
    }
  }

  /** When the weights cannot add up to the floor, the floored optimum is the plain optimum. */
  lemma PlainOptimum(lex: Lexicon, minWeight: real, text: seq<Rune>, maxLen: nat, seg: seq<WordRange>,
                     other: seq<WordRange>, bound: real)
    requires Optimal(lex, minWeight, text, maxLen, seg) && IsSegmentation(lex, text, maxLen, other, 0)
    requires bound >= 0.0 && Bounded(lex, minWeight, bound) && Times(|text|, bound) <= -MIN_DOUBLE
    ensures Total(lex, minWeight, text, other) <= Total(lex, minWeight, text, seg)
  {
    AtMostOnePiecePerRune(seg, 0, |text|);
    TimesGrows(|seg|, |text|, bound);
    FloorUnreached(lex, minWeight, text, seg, bound);
    FlooredAtLeastTotal(lex, minWeight, text, other);
  }

  /** In texts of fewer than 2^32 runes and with no weight below minus ten to the ninetieth the floor is never met. */
  lemma PlainOptimumInPractice(lex: Lexicon, minWeight: real, text: seq<Rune>, maxLen: nat, seg: seq<WordRange>,
                               other: seq<WordRange>)
    requires Optimal(lex, minWeight, text, maxLen, seg) && IsSegmentation(lex, text, maxLen, other, 0)
    requires |text| < 0x1_0000_0000 && Bounded(lex, minWeight, TenTo(90) as real)
    ensures StoredWeight(lex, text, other) + Unstored(lex, text, other) as real * minWeight
         <= StoredWeight(lex, text, seg) + Unstored(lex, text, seg) as real * minWeight
  {
    FloorIsFar(|text|);
    TenToPositive(90);
    PlainOptimum(lex, minWeight, text, maxLen, seg, other, TenTo(90) as real);
    TotalMeaning(lex, minWeight, text, seg);
    TotalMeaning(lex, minWeight, text, other);
  }
}
