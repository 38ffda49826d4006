/**
  Fuzzy English search: the index proposes dictionary words that share a byte with the query, the
  edit distance filters them, and a priority queue yields the best ones first.
 */
module SearchModule {
  import opened Unicode
  import opened EditDistance
  import opened ReferenceCreator

  const MAX_DISTANCE: int := 3

  datatype SearchResult = SearchResult(minEditDis: int, occurTimes: int, word: Str)

  // ----- the order of results

  /** `std::string` comparison: the first differing byte decides, a proper prefix comes first. */
  predicate StringLess(a: Str, b: Str)
  {
    if b == [] then false
    else if a == [] then true
    else if a[0] != b[0] then a[0] < b[0]
    else StringLess(a[1..], b[1..])
  }

  /** `operator>`: lhs comes out of the queue after rhs. */
  predicate After(lhs: SearchResult, rhs: SearchResult)
  {
    if lhs.minEditDis == rhs.minEditDis then
      if lhs.occurTimes == rhs.occurTimes then StringLess(rhs.word, lhs.word)
      else lhs.occurTimes < rhs.occurTimes
    else lhs.minEditDis > rhs.minEditDis
  }

  lemma {:induction false} StringOrder(a: Str, b: Str, c: Str)
    ensures !StringLess(a, a)
    ensures StringLess(a, b) || StringLess(b, a) || a == b
    ensures StringLess(a, b) ==> !StringLess(b, a)
    ensures StringLess(a, b) && StringLess(b, c) ==> StringLess(a, c)
    decreases |a| + |b| + |c|
  {
    if a != [] && b != [] && c != [] {
      StringOrder(a[1..], b[1..], c[1..]);
    } else if a != [] && b != [] {
      StringOrder(a[1..], b[1..], c);
    } else if a != [] {
      StringOrder(a[1..], b, c);
    }
    if a != [] && b != [] && a[0] == b[0] && a[1..] == b[1..] {
      assert a == [a[0]] + a[1..] && b == [b[0]] + b[1..];
    }
  }

  /** `operator>` is a strict total order. */
  lemma ResultOrder(a: SearchResult, b: SearchResult, c: SearchResult)
    ensures !After(a, a)
    ensures After(a, b) || After(b, a) || a == b
    ensures After(a, b) ==> !After(b, a)
    ensures After(a, b) && After(b, c) ==> After(a, c)
  {
    StringOrder(a.word, b.word, c.word);
    StringOrder(c.word, b.word, a.word);
    StringOrder(b.word, a.word, c.word);
  }

  /** a sorts before b: at the first byte where they differ it has the smaller one, or it is a proper prefix. */
  ghost predicate Before(a: Str, b: Str)
  {
    exists n :: 0 <= n <= |a| && n < |b| && a[..n] == b[..n] && (n == |a| || a[n] < b[n])
  }

  lemma {:induction false} StringLessMeaning(a: Str, b: Str)
    ensures StringLess(a, b) <==> Before(a, b)
    decreases |a|
  {
    if a != [] && b != [] && a[0] == b[0] {
      StringLessMeaning(a[1..], b[1..]);
      if Before(a[1..], b[1..]) {
        var n :| 0 <= n <= |a[1..]| && n < |b[1..]| && a[1..][..n] == b[1..][..n]
                 && (n == |a[1..]| || a[1..][n] < b[1..][n]);
        assert a[..n + 1] == [a[0]] + a[1..][..n] && b[..n + 1] == [b[0]] + b[1..][..n];
      }
      if Before(a, b) {
        var n :| 0 <= n <= |a| && n < |b| && a[..n] == b[..n] && (n == |a| || a[n] < b[n]);
        assert n > 0;
        assert a[1..][..n - 1] == a[..n][1..] && b[1..][..n - 1] == b[..n][1..];
      }
    } else if a != [] && b != [] {
      assert a[..0] == b[..0];
      forall n | 0 < n <= |a| && n < |b| ensures a[..n] != b[..n] {
        assert a[..n][0] != b[..n][0];
      }
    } else if a == [] {
      assert a[..0] == b[..0];
    }
  }

  /** Nearer words first; at one distance the more frequent first; of these the smaller word first. */
  ghost predicate Ahead(x: SearchResult, y: SearchResult)
  {
    && x.minEditDis <= y.minEditDis
    && (x.minEditDis == y.minEditDis ==> x.occurTimes >= y.occurTimes)
    && (x.minEditDis == y.minEditDis && x.occurTimes == y.occurTimes ==> x.word == y.word || Before(x.word, y.word))
  }

  /** Not to come out after a result is to be ahead of it. */
  lemma AfterMeaning(x: SearchResult, y: SearchResult)
    ensures !After(x, y) <==> Ahead(x, y)
  {
    StringOrder(y.word, x.word, x.word);
    StringLessMeaning(x.word, y.word);
  }

  ghost predicate Ordered(s: seq<SearchResult>)
  {
    forall i, j | 0 <= i < j < |s| :: !After(s[i], s[j])
  }

  /** From front to back distances never fall, at one distance counts never rise, and else the words ascend. */
  lemma OrderedMeaning(s: seq<SearchResult>, i: nat, j: nat)
    requires Ordered(s) && i < j < |s|
    ensures s[i].minEditDis <= s[j].minEditDis
    ensures s[i].minEditDis == s[j].minEditDis ==> s[i].occurTimes >= s[j].occurTimes
    ensures s[i].minEditDis == s[j].minEditDis && s[i].occurTimes == s[j].occurTimes && s[i].word != s[j].word ==>
              exists n :: && 0 <= n <= |s[i].word| && n < |s[j].word| && s[i].word[..n] == s[j].word[..n]
                          && (n == |s[i].word| || s[i].word[n] < s[j].word[n])
  {
    assert !After(s[i], s[j]);
    AfterMeaning(s[i], s[j]);
  }

  /** The first element of an ordered sequence comes after none of the others. */
  lemma FirstIsLeast(s: seq<SearchResult>, x: SearchResult)
    requires Ordered(s) && x in s
    ensures !After(s[0], x)
  {
    var j :| 0 <= j < |s| && s[j] == x;
    ResultOrder(s[0], s[0], s[0]);
    assert j > 0 ==> !After(s[0], s[j]);
  }

  lemma SameFirst(s: seq<SearchResult>, t: seq<SearchResult>)
    requires Ordered(s) && Ordered(t) && multiset(s) == multiset(t) && s != []
    ensures t != [] && s[0] == t[0] && multiset(s[1..]) == multiset(t[1..])
  {
    assert s[0] in multiset(s);
    assert s[0] in t;
    assert t[0] in multiset(t);
    assert t[0] in s;
    FirstIsLeast(s, t[0]);
    FirstIsLeast(t, s[0]);
    ResultOrder(s[0], t[0], t[0]);
    TailBag(s);
    TailBag(t);
  }

  lemma TailBag(s: seq<SearchResult>)
    requires s != []
    ensures multiset(s[1..]) == multiset(s) - multiset{s[0]}
  {
    assert s == [s[0]] + s[1..];
  }

  /** There is only one way to order the same results. */
  lemma {:induction false} OrderedIsUnique(s: seq<SearchResult>, t: seq<SearchResult>)
    requires Ordered(s) && Ordered(t) && multiset(s) == multiset(t)
    ensures s == t
    decreases |s|
  {
    if s == [] {
      assert |multiset(t)| == 0;
    } else {
      SameFirst(s, t);
      OrderedIsUnique(s[1..], t[1..]);
      assert s == [s[0]] + s[1..] && t == [t[0]] + t[1..];
    }
  }

  /** The queue of `HandleENG`: the smallest element in the order of `After` is on top. */
  class ResultQueue {
    /** The elements in the order in which they will be popped. */
    var items: seq<SearchResult>

    constructor ()
      ensures items == []
    {
      items := [];
    }

    method Push(x: SearchResult)
      requires Ordered(items)
      modifies this
      ensures Ordered(items) && multiset(items) == multiset(old(items)) + multiset{x}
    {
      var i := 0;
      while i < |items| && After(x, items[i])
        invariant 0 <= i <= |items|
        invariant forall k | 0 <= k < i :: After(x, items[k])
      {
        i := i + 1;
      }
      InsertKeepsOrder(items, i, x);
      assert items == items[..i] + items[i..];
      items := items[..i] + [x] + items[i..];
    }

    /** `top` and `pop`: the result that comes after none of the others. */
    method Pop() returns (top: SearchResult)
      requires Ordered(items) && items != []
      modifies this
      ensures old(items) == [top] + items && Ordered(items)
      ensures forall x | x in old(items) :: !After(top, x)
    {
      forall x | x in items ensures !After(items[0], x) {
        FirstIsLeast(items, x);
      }
      top := items[0];
      items := items[1..];
    }
  }

  lemma InsertKeepsOrder(s: seq<SearchResult>, i: nat, x: SearchResult)
    requires Ordered(s) && i <= |s|
    requires forall k | 0 <= k < i :: After(x, s[k])
    requires i < |s| ==> !After(x, s[i])
    ensures Ordered(s[..i] + [x] + s[i..])
  {
    var t := s[..i] + [x] + s[i..];
    forall k | 0 <= k < |s| ensures if k < i then !After(s[k], x) else !After(x, s[k]) {
      ResultOrder(x, s[k], x);
      if i < |s| {
        ResultOrder(x, s[k], s[i]);
        ResultOrder(x, s[i], s[k]);
        ResultOrder(s[k], s[i], x);
        ResultOrder(s[i], x, s[k]);
        assert i < k ==> !After(s[i], s[k]);
      }
    }
    forall a, b | 0 <= a < b < |t| ensures !After(t[a], t[b]) {
      assert t[a] == if a < i then s[a] else if a == i then x else s[a - 1];
      assert t[b] == if b < i then s[b] else if b == i then x else s[b - 1];
    }
  }

  // ----- what is found

  ghost predicate SharesByte(a: Str, b: Str) { !ShareNoByte(a, b) }

  predicate Near(query: Str, e: Entry) { Dist(query, e.word) <= MAX_DISTANCE }

  function ResultFor(query: Str, e: Entry): SearchResult
  {
    SearchResult(Dist(query, e.word), e.count, e.word)
  }

  /** The near words among the first n entries whose positions are wanted. */
  ghost function Matches(dict: seq<Entry>, query: Str, wanted: set<int>, n: nat): (m: multiset<SearchResult>)
    requires n <= |dict|
  {
    if n == 0 then multiset{}
    else
      Matches(dict, query, wanted, n - 1) + Contribution(dict, query, wanted, n - 1)
  }

  /** What entry i adds to the matches. */
  ghost function Contribution(dict: seq<Entry>, query: Str, wanted: set<int>, i: nat): multiset<SearchResult>
    requires i < |dict|
  {
    if i in wanted && Near(query, dict[i]) then multiset{ResultFor(query, dict[i])} else multiset{}
  }

  ghost function Positions(n: nat): (r: set<int>)
    ensures forall i :: i in r <==> 0 <= i < n
  {
    if n == 0 then {} else Positions(n - 1) + {n - 1}
  }

  /** Every near word of the dictionary. */
  ghost function FullScan(dict: seq<Entry>, query: Str): multiset<SearchResult>
  {
    Matches(dict, query, Positions(|dict|), |dict|)
  }

  function Words(s: seq<SearchResult>): (r: seq<Str>)
    ensures |r| == |s| && forall i | 0 <= i < |s| :: r[i] == s[i].word
  {
    seq(|s|, i requires 0 <= i < |s| => s[i].word)
  }

  function AtMost(k: nat, n: nat): nat { if k < n then k else n }

  /** words are the first k of the results m, best first. */
  ghost predicate BestWords(words: seq<Str>, m: multiset<SearchResult>, k: nat)
  {
    exists s :: Ordered(s) && multiset(s) == m && words == Words(s[..AtMost(k, |s|)])
  }

  /** Position p is wanted and holds a word at most three edits away from the query. */
  ghost predicate Matching(dict: seq<Entry>, query: Str, wanted: set<int>, p: int)
  {
    0 <= p < |dict| && p in wanted && Dist(query, dict[p].word) <= 3
  }

  /** The entry at position p is ahead of that at position q. */
  ghost predicate AheadAt(dict: seq<Entry>, query: Str, p: int, q: int)
    requires 0 <= p < |dict| && 0 <= q < |dict|
  {
    var d, e := Dist(query, dict[p].word), Dist(query, dict[q].word);
    && d <= e
    && (d == e ==> dict[p].count >= dict[q].count)
    && (d == e && dict[p].count == dict[q].count ==> dict[p].word == dict[q].word || Before(dict[p].word, dict[q].word))
  }

  ghost predicate InOrder(dict: seq<Entry>, query: Str, ps: seq<int>)
    requires forall i | 0 <= i < |ps| :: 0 <= ps[i] < |dict|
  {
    forall i, j | 0 <= i < j < |ps| :: AheadAt(dict, query, ps[i], ps[j])
  }

  /** At most k matching positions, each once and in order; a match is left out only behind k others. */
  ghost predicate BestPositions(dict: seq<Entry>, query: Str, wanted: set<int>, k: nat, ps: seq<int>)
  {
    && |ps| <= k
    && (forall i | 0 <= i < |ps| :: Matching(dict, query, wanted, ps[i]))
    && (forall i, j | 0 <= i < j < |ps| :: ps[i] != ps[j])
    && InOrder(dict, query, ps)
    && (forall p | Matching(dict, query, wanted, p) && p !in ps ::
          |ps| == k && forall i | 0 <= i < |ps| :: AheadAt(dict, query, ps[i], p))
  }

  /** The list holds the words at the best of the wanted positions, in order. */
  ghost predicate IsAnswer(dict: seq<Entry>, query: Str, wanted: set<int>, k: nat, list: seq<Str>)
  {
    exists ps ::
      && BestPositions(dict, query, wanted, k, ps) && |list| == |ps|
      && forall i | 0 <= i < |ps| :: list[i] == dict[ps[i]].word
  }

  /** At how many of the wanted positions below n the value is x. */
  ghost function Count(values: seq<SearchResult>, wanted: set<int>, n: nat, x: SearchResult): nat
    requires n <= |values|
  {
    if n == 0 then 0
    else Count(values, wanted, n - 1, x) + if n - 1 in wanted && values[n - 1] == x then 1 else 0
  }

  /** s holds each value as often as it stands at wanted positions below n. */
  ghost predicate Collects(values: seq<SearchResult>, wanted: set<int>, n: nat, s: seq<SearchResult>)
    requires n <= |values|
  {
    forall x: SearchResult :: multiset(s)[x] == Count(values, wanted, n, x)
  }

  /** ps says from which of the wanted positions below n each element of s comes; every one is used once. */
  ghost predicate ComeFrom(values: seq<SearchResult>, wanted: set<int>, n: nat, s: seq<SearchResult>, ps: seq<int>)
    requires n <= |values|
  {
    && |ps| == |s|
    && (forall i | 0 <= i < |ps| :: 0 <= ps[i] < n && ps[i] in wanted && s[i] == values[ps[i]])
    && (forall i, j | 0 <= i < j < |ps| :: ps[i] != ps[j])
    && (forall p | 0 <= p < n && p in wanted :: p in ps)
  }

  lemma {:induction false} CountedSomewhere(values: seq<SearchResult>, wanted: set<int>, n: nat, x: SearchResult)
    returns (p: int)
    requires n <= |values| && Count(values, wanted, n, x) > 0
    ensures 0 <= p < n && p in wanted && values[p] == x
  {
    if n - 1 in wanted && values[n - 1] == x {
      p := n - 1;
    } else {
      p := CountedSomewhere(values, wanted, n - 1, x);
    }
  }

  /** Position p counts once. */
  lemma {:induction false} CountWithout(values: seq<SearchResult>, wanted: set<int>, n: nat, p: int, x: SearchResult)
    requires n <= |values| && 0 <= p < |values| && p in wanted
    ensures Count(values, wanted, n, x)
         == Count(values, wanted - {p}, n, x) + if p < n && values[p] == x then 1 else 0
  {
    if n > 0 {
      CountWithout(values, wanted, n - 1, p, x);
    }
  }

  lemma CollectsRest(values: seq<SearchResult>, wanted: set<int>, n: nat, s: seq<SearchResult>, p: int)
    requires n <= |values| && s != [] && 0 <= p < n && p in wanted && values[p] == s[0]
    requires Collects(values, wanted, n, s)
    ensures Collects(values, wanted - {p}, n, s[1..])
  {
    assert s == [s[0]] + s[1..];
    forall x: SearchResult ensures multiset(s[1..])[x] == Count(values, wanted - {p}, n, x) {
      CountWithout(values, wanted, n, p, x);
    }
  }

  /** However the values are ordered, each comes from a position of its own. */
  lemma {:induction false} EachComesFrom(values: seq<SearchResult>, wanted: set<int>, n: nat, s: seq<SearchResult>)
    returns (ps: seq<int>)
    requires n <= |values| && Collects(values, wanted, n, s)
    ensures ComeFrom(values, wanted, n, s, ps)
    decreases |s|
  {
    if s == [] {
      ps := [];
      forall p | 0 <= p < n ensures p !in wanted {
        assert multiset(s)[values[p]] == 0;
        if p in wanted {
          CountWithout(values, wanted, n, p, values[p]);
          assert false;
        }
      }
    } else {
      assert s[0] in multiset(s);
      var p := CountedSomewhere(values, wanted, n, s[0]);
      CollectsRest(values, wanted, n, s, p);
      var qs := EachComesFrom(values, wanted - {p}, n, s[1..]);
      ps := [p] + qs;
      OneMoreComesFrom(values, wanted, n, s, p, qs);
    }
  }

  lemma OneMoreComesFrom(values: seq<SearchResult>, wanted: set<int>, n: nat, s: seq<SearchResult>, p: int,
                         qs: seq<int>)
    requires n <= |values| && s != [] && 0 <= p < n && p in wanted && values[p] == s[0]
    requires ComeFrom(values, wanted - {p}, n, s[1..], qs)
    ensures ComeFrom(values, wanted, n, s, [p] + qs)
  {
    var ps := [p] + qs;
    forall i | 0 <= i < |ps|
      ensures 0 <= ps[i] < n && ps[i] in wanted && s[i] == values[ps[i]] && (i > 0 ==> ps[i] != p)
    {
      assert i > 0 ==> s[i] == s[1..][i - 1];
    }
    forall q | 0 <= q < n && q in wanted ensures q in ps {
      assert q == p || q in qs;
    }
  }

  /** The results of all entries. */
  function ResultsFor(dict: seq<Entry>, query: Str): (r: seq<SearchResult>)
    ensures |r| == |dict| && forall i | 0 <= i < |r| :: r[i] == ResultFor(query, dict[i])
  {
    seq(|dict|, i requires 0 <= i < |dict| => ResultFor(query, dict[i]))
  }

  ghost function MatchingPositions(dict: seq<Entry>, query: Str, wanted: set<int>): set<int>
  {
    set p | 0 <= p < |dict| && Matching(dict, query, wanted, p)
  }

  lemma PositionContributes(dict: seq<Entry>, query: Str, wanted: set<int>, i: nat, x: SearchResult)
    requires i < |dict|
    ensures Contribution(dict, query, wanted, i)[x]
         == if i in MatchingPositions(dict, query, wanted) && ResultsFor(dict, query)[i] == x then 1 else 0
  {
  }

  lemma {:induction false} MatchesAreCounted(dict: seq<Entry>, query: Str, wanted: set<int>, n: nat, x: SearchResult)
    requires n <= |dict|
    ensures MatchCount(dict, query, wanted, n, x)
         == Count(ResultsFor(dict, query), MatchingPositions(dict, query, wanted), n, x)
  {
    if n > 0 {
      MatchesAreCounted(dict, query, wanted, n - 1, x);
      PositionContributes(dict, query, wanted, n - 1, x);
    }
  }

  lemma MatchesCollect(dict: seq<Entry>, query: Str, wanted: set<int>, s: seq<SearchResult>)
    requires multiset(s) == Matches(dict, query, wanted, |dict|)
    ensures Collects(ResultsFor(dict, query), MatchingPositions(dict, query, wanted), |dict|, s)
  {
    forall x
      ensures multiset(s)[x] == Count(ResultsFor(dict, query), MatchingPositions(dict, query, wanted), |dict|, x)
    {
      CountOfMatches(dict, query, wanted, |dict|, x);
      MatchesAreCounted(dict, query, wanted, |dict|, x);
    }
  }

  /** Any two results come from entries that are ordered alike. */
  lemma AheadOfPositions(dict: seq<Entry>, query: Str, p: nat, q: nat)
    requires p < |dict| && q < |dict|
    ensures Ahead(ResultFor(query, dict[p]), ResultFor(query, dict[q])) <==> AheadAt(dict, query, p, q)
  {
  }

  lemma OrderedPositions(dict: seq<Entry>, query: Str, s: seq<SearchResult>, ps: seq<int>)
    requires Ordered(s) && |ps| == |s|
    requires forall i | 0 <= i < |ps| :: 0 <= ps[i] < |dict| && s[i] == ResultsFor(dict, query)[ps[i]]
    ensures InOrder(dict, query, ps)
  {
    forall i, j | 0 <= i < j < |ps| ensures AheadAt(dict, query, ps[i], ps[j]) {
      assert !After(s[i], s[j]);
      AfterMeaning(s[i], s[j]);
      AheadOfPositions(dict, query, ps[i], ps[j]);
    }
  }

  /** The first k of the ordered results are the answer. */
  lemma FirstAreBest(dict: seq<Entry>, query: Str, wanted: set<int>, k: nat, s: seq<SearchResult>)
    requires Ordered(s) && multiset(s) == Matches(dict, query, wanted, |dict|)
    ensures IsAnswer(dict, query, wanted, k, Words(s[..AtMost(k, |s|)]))
  {
    var good := MatchingPositions(dict, query, wanted);
    MatchesCollect(dict, query, wanted, s);
    var all := EachComesFrom(ResultsFor(dict, query), good, |dict|, s);
    OrderedPositions(dict, query, s, all);
    FirstOfAll(dict, query, wanted, k, all);
    assert BestPositions(dict, query, wanted, k, all[..AtMost(k, |s|)]);
  }

  /** The first k of all matching positions, in order, are the best. */
  lemma FirstOfAll(dict: seq<Entry>, query: Str, wanted: set<int>, k: nat, all: seq<int>)
    requires forall i | 0 <= i < |all| :: 0 <= all[i] < |dict| && Matching(dict, query, wanted, all[i])
    requires forall i, j | 0 <= i < j < |all| :: all[i] != all[j]
    requires InOrder(dict, query, all)
    requires forall p | Matching(dict, query, wanted, p) :: p in all
    ensures BestPositions(dict, query, wanted, k, all[..AtMost(k, |all|)])
  {
    var n := AtMost(k, |all|);
    assert all == all[..n] + all[n..];
    forall p | Matching(dict, query, wanted, p) && p !in all[..n]
      ensures n == k && forall i | 0 <= i < n :: AheadAt(dict, query, all[i], p)
    {
      var j :| 0 <= j < |all[n..]| && all[n..][j] == p;
      assert all[n + j] == p;
    }
  }

  /** At most k answers, all of them at most three edits away. */
  lemma AnswersAreNear(dict: seq<Entry>, query: Str, wanted: set<int>, k: nat, list: seq<Str>, i: nat)
    requires IsAnswer(dict, query, wanted, k, list) && i < |list|
    ensures |list| <= k && Dist(query, list[i]) <= 3
  {
    var ps :| BestPositions(dict, query, wanted, k, ps) && |list| == |ps|
              && forall i | 0 <= i < |ps| :: list[i] == dict[ps[i]].word;
    assert Matching(dict, query, wanted, ps[i]);
  }

  /** The nearest come first. */
  lemma NearestFirst(dict: seq<Entry>, query: Str, wanted: set<int>, k: nat, list: seq<Str>, i: nat, j: nat)
    requires IsAnswer(dict, query, wanted, k, list) && i < j < |list|
    ensures Dist(query, list[i]) <= Dist(query, list[j])
  {
    var ps :| BestPositions(dict, query, wanted, k, ps) && |list| == |ps|
              && forall i | 0 <= i < |ps| :: list[i] == dict[ps[i]].word;
    assert AheadAt(dict, query, ps[i], ps[j]);
  }

  /** A wanted word at most three edits away that is left out is no nearer than any of k answers. */
  lemma NoNearerLeftOut(dict: seq<Entry>, query: Str, wanted: set<int>, k: nat, list: seq<Str>, i: nat, p: nat)
    requires IsAnswer(dict, query, wanted, k, list)
    requires p < |dict| && p in wanted && Dist(query, dict[p].word) <= 3 && dict[p].word !in list
    ensures |list| == k
    ensures i < k ==> Dist(query, list[i]) <= Dist(query, dict[p].word)
  {
    var ps :| BestPositions(dict, query, wanted, k, ps) && |list| == |ps|
              && forall i | 0 <= i < |ps| :: list[i] == dict[ps[i]].word;
    assert forall i | 0 <= i < |ps| :: ps[i] != p;
    assert Matching(dict, query, wanted, p) && p !in ps;
    assert i < k ==> AheadAt(dict, query, ps[i], p);
  }

  /** Best words of the matches are an answer. */
  lemma BestWordsAnswer(dict: seq<Entry>, query: Str, wanted: set<int>, k: nat, list: seq<Str>)
    requires BestWords(list, Matches(dict, query, wanted, |dict|), k)
    ensures IsAnswer(dict, query, wanted, k, list)
  {
    var s :| Ordered(s) && multiset(s) == Matches(dict, query, wanted, |dict|) && list == Words(s[..AtMost(k, |s|)]);
    FirstAreBest(dict, query, wanted, k, s);
  }

  class SearchModule {
    const searchWordListSize: nat
    const dict: seq<Entry>
    const index: Index

    ghost predicate Valid()
    {
      IsIndex(index, dict) && forall i | 0 <= i < |dict| :: IsEnglish(dict[i].word)
    }

    /** The dictionary positions whose words share a byte with the query. */
    ghost function Candidates(query: Str): set<int>
    {
      set i | 0 <= i < |dict| && SharesByte(query, dict[i].word)
    }

    constructor (size: nat, dict: seq<Entry>, index: Index)
      requires IsIndex(index, dict) && forall i | 0 <= i < |dict| :: IsEnglish(dict[i].word)
      ensures Valid() && searchWordListSize == size && this.dict == dict && this.index == index
    {
      searchWordListSize := size;
      this.dict := dict;
      this.index := index;
    }

    /** The first loop of `HandleENG`: positions listed under any byte of the query. */
    method Lookup(word: Str) returns (positions: set<int>)
      requires Valid()
      ensures positions == Candidates(word)
    {
      positions := {};
      for j := 0 to |word|
        invariant positions == Candidates(word[..j])
      {
        var key := KeyOf(word[j]);
        if key in index {
          positions := positions + index[key];
        }
        CandidatesStep(word, j);
      }
      assert word[..|word|] == word;
    }

    /** One more byte of the query brings in the positions listed under its key. */
    lemma CandidatesStep(word: Str, j: nat)
      requires Valid() && j < |word|
      ensures Candidates(word[..j + 1]) == Candidates(word[..j]) + Found(index, KeyOf(word[j]))
    {
      var key := KeyOf(word[j]);
      assert Found(index, key) == Posting(dict, key);
      forall i | 0 <= i < |dict|
        ensures i in Candidates(word[..j + 1]) <==> i in Candidates(word[..j]) || i in Posting(dict, key)
      {
        SharesOneMore(word, j, dict[i].word);
      }
    }

    method HandleENG(word: Str) returns (list: seq<Str>)
      requires Valid()
      ensures IsAnswer(dict, word, Candidates(word), searchWordListSize, list)
      ensures BestWords(list, Matches(dict, word, Candidates(word), |dict|), searchWordListSize)
    {
      var positions := Lookup(word);
      var queue := FillQueue(word, positions);
      ghost var all := queue.items;
      list := PopBest(queue);
      FirstAreBest(dict, word, positions, searchWordListSize, all);
      assert Ordered(all) && list == Words(all[..AtMost(searchWordListSize, |all|)]);
    }

    /** The second loop of `HandleENG`, over the positions in ascending order. */
    method FillQueue(word: Str, positions: set<int>) returns (queue: ResultQueue)
      ensures fresh(queue) && Ordered(queue.items)
      ensures multiset(queue.items) == Matches(dict, word, positions, |dict|)
    {
      queue := new ResultQueue();
      for i := 0 to |dict|
        invariant Ordered(queue.items)
        invariant multiset(queue.items) == Matches(dict, word, positions, i)
      {
        if i in positions {
          var distance := MinEdit(word, dict[i].word);
          if distance <= MAX_DISTANCE {
            queue.Push(SearchResult(distance, dict[i].count, dict[i].word));
          }
        }
      }
    }

    /** The last loop of `HandleENG`. */
    method PopBest(queue: ResultQueue) returns (list: seq<Str>)
      requires Ordered(queue.items)
      modifies queue
      ensures list == Words(old(queue.items)[..AtMost(searchWordListSize, |old(queue.items)|)])
    {
      ghost var all := queue.items;
      var size := AtMost(searchWordListSize, |queue.items|);
      list := [];
      for pos := 0 to size
        invariant queue.items == all[pos..] && Ordered(queue.items)
        invariant list == Words(all[..pos])
      {
        var top := queue.Pop();
        assert all[..pos + 1] == all[..pos] + [top];
        list := list + [top.word];
      }
    }

    /** The English branch of `SearchWord`: the query is lower-cased, searched and returned as the key. */
    method SearchWord(word: Str) returns (key: Str, list: seq<Str>)
      requires Valid() && IsEnglish(word)
      ensures key == Lower(word) && IsLowered(word, key)
      ensures IsAnswer(dict, key, Candidates(key), searchWordListSize, list)
      ensures BestWords(list, Matches(dict, key, Candidates(key), |dict|), searchWordListSize)
      ensures |word| > 3 ==> IsAnswer(dict, key, Positions(|dict|), searchWordListSize, list)
      ensures |word| > 3 ==> BestWords(list, FullScan(dict, key), searchWordListSize)
    {
      key := [];
      for i := 0 to |word|
        invariant key == Lower(word[..i])
      {
        assert word[..i + 1][..i] == word[..i];
        key := key + [if IsUpper(word[i]) then word[i] + 32 else word[i]];
      }
      assert word[..|word|] == word;
      list := HandleENG(key);
      LowerMeaning(word);
      if |word| > MAX_DISTANCE {
        LongQueriesLoseNothing(dict, key);
        BestWordsAnswer(dict, key, Positions(|dict|), searchWordListSize, list);
      }
    }
  }

  lemma SharesOneMore(word: Str, j: nat, other: Str)
    requires j < |word|
    ensures SharesByte(word[..j + 1], other) <==> SharesByte(word[..j], other) || HasKey(other, KeyOf(word[j]))
  {
    assert word[..j + 1] == word[..j] + [word[j]];
    KeyHits(other, word[j]);
    if SharesByte(word[..j + 1], other) {
      var x :| x in word[..j + 1] && x in other;
      assert x in word[..j] || x == word[j];
    }
    if SharesByte(word[..j], other) {
      var x :| x in word[..j] && x in other;
      assert x in word[..j + 1];
    }
    assert word[j] in word[..j + 1];
  }

  /** Distinct bytes have distinct keys, NUL included. */
  lemma KeyHits(word: Str, c: byte)
    ensures HasKey(word, KeyOf(c)) <==> c in word
  {
    if c in word {
      var j :| 0 <= j < |word| && word[j] == c;
      assert KeyOf(word[j]) == KeyOf(c);
    }
    if HasKey(word, KeyOf(c)) {
      var j :| 0 <= j < |word| && KeyOf(word[j]) == KeyOf(c);
      assert word[j] == c;
    }
  }

  // ----- lower case

  predicate IsUpper(c: byte) { 65 <= c <= 90 }

  function Lower(s: Str): (r: Str)
  {
    if s == [] then []
    else Lower(s[..|s| - 1]) + [if IsUpper(s[|s| - 1]) then s[|s| - 1] + 32 else s[|s| - 1]]
  }

  lemma {:induction false} LowerLength(s: Str)
    ensures |Lower(s)| == |s|
  {
    if s != [] {
      LowerLength(s[..|s| - 1]);
    }
  }

  lemma {:induction false} LowerAt(s: Str, i: nat)
    requires i < |s|
    ensures |Lower(s)| == |s| && Lower(s)[i] == if IsUpper(s[i]) then s[i] + 32 else s[i]
  {
    LowerLength(s);
    LowerLength(s[..|s| - 1]);
    if i < |s| - 1 {
      LowerAt(s[..|s| - 1], i);
    }
  }

  /** Every capital becomes its small letter, every other byte stays. */
  ghost predicate IsLowered(s: Str, r: Str)
  {
    && |r| == |s|
    && forall i | 0 <= i < |s| ::
         if 'A' as int <= s[i] <= 'Z' as int then r[i] - 'a' as int == s[i] - 'A' as int else r[i] == s[i]
  }

  lemma {:induction false} LowerMeaning(s: Str)
    ensures IsLowered(s, Lower(s))
  {
    LowerLength(s);
    forall i | 0 <= i < |s|
      ensures if 'A' as int <= s[i] <= 'Z' as int then Lower(s)[i] - 'a' as int == s[i] - 'A' as int
              else Lower(s)[i] == s[i]
    {
      LowerAt(s, i);
    }
  }

  /** A query comes back as its own key exactly when it has no upper-case byte. */
  lemma {:induction false} LowerFixed(s: Str)
    ensures Lower(s) == s <==> forall i | 0 <= i < |s| :: !IsUpper(s[i])
    ensures Lower(Lower(s)) == Lower(s)
  {
    LowerLength(s);
    LowerLength(Lower(s));
    forall i | 0 <= i < |s|
      ensures (Lower(s)[i] == s[i] <==> !IsUpper(s[i])) && Lower(Lower(s))[i] == Lower(s)[i]
    {
      LowerAt(s, i);
      LowerAt(Lower(s), i);
    }
  }

  // ----- what the index loses

  /** Near the query, but without a byte in common: the index never proposes it. */
  ghost predicate Lost(query: Str, e: Entry) { Near(query, e) && ShareNoByte(query, e.word) }

  /** A word is lost exactly when it and the query have at most three bytes, none of them shared. */
  lemma LostAreShort(query: Str, e: Entry)
    ensures Lost(query, e) <==> ShareNoByte(query, e.word) && |query| <= MAX_DISTANCE && |e.word| <= MAX_DISTANCE
  {
    if ShareNoByte(query, e.word) {
      DisjointIsLonger(query, e.word);
    }
  }

  /** Entry i is a near word that is wanted by all but not by some. */
  ghost predicate Missing(dict: seq<Entry>, query: Str, some: set<int>, all: set<int>, i: nat)
  {
    i < |dict| && Near(query, dict[i]) && i in all && i !in some
  }

  /** No near word among the first n is wanted by all but not by some. */
  ghost predicate NoneMissing(dict: seq<Entry>, query: Str, some: set<int>, all: set<int>, n: nat)
    requires n <= |dict|
  {
    forall i | 0 <= i < n :: !Missing(dict, query, some, all, i)
  }

  lemma ContributionCount(dict: seq<Entry>, query: Str, some: set<int>, all: set<int>, i: nat, x: SearchResult)
    requires i < |dict| && some <= all
    ensures Contribution(dict, query, all, i)[x]
         == Contribution(dict, query, some, i)[x]
            + if Missing(dict, query, some, all, i) && x == ResultFor(query, dict[i]) then 1 else 0
  {
  }

  /** How often a result is among the matches. */
  ghost function MatchCount(dict: seq<Entry>, query: Str, wanted: set<int>, n: nat, x: SearchResult): nat
    requires n <= |dict|
  {
    if n == 0 then 0
    else MatchCount(dict, query, wanted, n - 1, x) + Contribution(dict, query, wanted, n - 1)[x]
  }

  lemma {:induction false} CountOfMatches(dict: seq<Entry>, query: Str, wanted: set<int>, n: nat, x: SearchResult)
    requires n <= |dict|
    ensures Matches(dict, query, wanted, n)[x] == MatchCount(dict, query, wanted, n, x)
  {
    if n > 0 {
      CountOfMatches(dict, query, wanted, n - 1, x);
    }
  }

  /** How often a result is among all matches but not among some: once for every entry that is missing. */
  ghost function MissingCount(dict: seq<Entry>, query: Str, some: set<int>, all: set<int>, n: nat, x: SearchResult): nat
    requires n <= |dict|
  {
    if n == 0 then 0
    else MissingCount(dict, query, some, all, n - 1, x)
         + if Missing(dict, query, some, all, n - 1) && x == ResultFor(query, dict[n - 1]) then 1 else 0
  }

  lemma {:induction false} CountMissing(dict: seq<Entry>, query: Str, some: set<int>, all: set<int>, n: nat,
                                        x: SearchResult)
    requires n <= |dict| && some <= all
    ensures MatchCount(dict, query, all, n, x)
         == MatchCount(dict, query, some, n, x) + MissingCount(dict, query, some, all, n, x)
  {
    if n > 0 {
      CountMissing(dict, query, some, all, n - 1, x);
      ContributionCount(dict, query, some, all, n - 1, x);
    }
  }

  lemma {:induction false} MissingCounts(dict: seq<Entry>, query: Str, some: set<int>, all: set<int>, n: nat,
                                         x: SearchResult)
    requires n <= |dict|
    ensures MissingCount(dict, query, some, all, n, x) == 0
       <==> forall i | 0 <= i < n && Missing(dict, query, some, all, i) :: ResultFor(query, dict[i]) != x
  {
    if n > 0 {
      MissingCounts(dict, query, some, all, n - 1, x);
    }
  }

  lemma MatchesSize(dict: seq<Entry>, query: Str, some: set<int>, all: set<int>, n: nat)
    requires n <= |dict| && some <= all
    ensures Matches(dict, query, some, n) <= Matches(dict, query, all, n)
    ensures Matches(dict, query, some, n) == Matches(dict, query, all, n) <==> NoneMissing(dict, query, some, all, n)
  {
    forall x
      ensures Matches(dict, query, all, n)[x]
           == Matches(dict, query, some, n)[x] + MissingCount(dict, query, some, all, n, x)
      ensures NoneMissing(dict, query, some, all, n) ==> MissingCount(dict, query, some, all, n, x) == 0
    {
      CountMissing(dict, query, some, all, n, x);
      CountOfMatches(dict, query, some, n, x);
      CountOfMatches(dict, query, all, n, x);
      MissingCounts(dict, query, some, all, n, x);
    }
    if !NoneMissing(dict, query, some, all, n) {
      var i :| 0 <= i < n && Missing(dict, query, some, all, i);
      MissingCounts(dict, query, some, all, n, ResultFor(query, dict[i]));
    }
  }

  /** The index finds what a scan of the whole dictionary finds, if and only if no word is lost. */
  lemma LosslessIff(dict: seq<Entry>, query: Str, candidates: set<int>)
    requires candidates == set i | 0 <= i < |dict| && SharesByte(query, dict[i].word)
    ensures Matches(dict, query, candidates, |dict|) == FullScan(dict, query)
       <==> forall i | 0 <= i < |dict| :: !(|query| <= MAX_DISTANCE && |dict[i].word| <= MAX_DISTANCE
                                           && ShareNoByte(query, dict[i].word))
  {
    var all := Positions(|dict|);
    MatchesSize(dict, query, candidates, all, |dict|);
    forall i | 0 <= i < |dict|
      ensures Missing(dict, query, candidates, all, i)
         <==> |query| <= MAX_DISTANCE && |dict[i].word| <= MAX_DISTANCE && ShareNoByte(query, dict[i].word)
    {
      LostAreShort(query, dict[i]);
    }
  }

  lemma {:induction false} LongQueriesLoseNothing(dict: seq<Entry>, query: Str)
    requires |query| > MAX_DISTANCE
    ensures Matches(dict, query, (set i | 0 <= i < |dict| && SharesByte(query, dict[i].word)), |dict|)
         == FullScan(dict, query)
  {
    LosslessIff(dict, query, set i | 0 <= i < |dict| && SharesByte(query, dict[i].word));
  }

  /** The answer is determined: any two lists of best words over the same results are equal. */
  lemma BestWordsUnique(a: seq<Str>, b: seq<Str>, m: multiset<SearchResult>, k: nat)
    ensures BestWords(a, m, k) && BestWords(b, m, k) ==> a == b
  {
    if BestWords(a, m, k) && BestWords(b, m, k) {
      var s :| Ordered(s) && multiset(s) == m && a == Words(s[..AtMost(k, |s|)]);
      var t :| Ordered(t) && multiset(t) == m && b == Words(t[..AtMost(k, |t|)]);
      OrderedIsUnique(s, t);
    }
  }
}
