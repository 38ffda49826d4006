/**
  The per-thread result cache: a list in recency order whose nodes a hash map points at, and the
  periodic merge that copies what the replicas learned through cache 0 into all of them.
 */
module Cache {
  import opened Unicode

  type Str = seq<byte>

  datatype SearchRetPair = SearchRetPair(first: Str, second: seq<Str>)

  /** A list node; a reference to it is the iterator the map stores. */
  class ListNode {
    const pair: SearchRetPair

    constructor (pair: SearchRetPair)
      ensures this.pair == pair
    {
      this.pair := pair;
    }
  }

  // ----- recency, as the reference for the list

  function Without(keys: seq<Str>, q: Str): (r: seq<Str>)
  {
    if keys == [] then []
    else if keys[0] == q then Without(keys[1..], q)
    else [keys[0]] + Without(keys[1..], q)
  }

  /** The distinct keys of a history, most recently used first. */
  function Recency(history: seq<Str>): (r: seq<Str>)
  {
    if history == [] then []
    else
      var n := |history| - 1;
      [history[n]] + Without(Recency(history[..n]), history[n])
  }

  function Take<T>(s: seq<T>, n: nat): (r: seq<T>)
    ensures r <= s && (|r| == n <= |s| || |r| == |s| <= n)
  {
    if |s| <= n then s else s[..n]
  }

  /** The position of the last use of a key. */
  ghost predicate LastUse(history: seq<Str>, key: Str, at: nat)
  {
    at < |history| && history[at] == key && forall k | at < k < |history| :: history[k] != key
  }

  lemma {:induction false} WithoutMeaning(keys: seq<Str>, q: Str)
    ensures forall k :: k in Without(keys, q) <==> k in keys && k != q
    ensures q !in keys ==> Without(keys, q) == keys
  {
    if keys != [] {
      WithoutMeaning(keys[1..], q);
    }
  }

  lemma {:induction false} RecencyKeys(history: seq<Str>)
    ensures forall k :: k in Recency(history) <==> k in history
  {
    if history != [] {
      var n := |history| - 1;
      RecencyKeys(history[..n]);
      WithoutMeaning(Recency(history[..n]), history[n]);
      assert history == history[..n] + [history[n]];
    }
  }

  /** Every key of the sequence was last used, and each one later than the one behind it. */
  ghost predicate ByLastUse(history: seq<Str>, keys: seq<Str>)
  {
    forall i, j, a, b | 0 <= i < j < |keys| && LastUse(history, keys[i], a) && LastUse(history, keys[j], b) :: a > b
  }

  lemma {:induction false} WithoutKeepsOrder(history: seq<Str>, keys: seq<Str>, q: Str)
    requires ByLastUse(history, keys)
    ensures ByLastUse(history, Without(keys, q))
  {
    if keys != [] {
      assert ByLastUse(history, keys[1..]) by {
        forall i, j, a, b | 0 <= i < j < |keys[1..]| && LastUse(history, keys[1..][i], a) && LastUse(history, keys[1..][j], b)
          ensures a > b
        {
          assert keys[1..][i] == keys[i + 1] && keys[1..][j] == keys[j + 1];
        }
      }
      WithoutKeepsOrder(history, keys[1..], q);
      var rest := Without(keys[1..], q);
      WithoutMeaning(keys[1..], q);
      var r := Without(keys, q);
      forall i, j, a, b | 0 <= i < j < |r| && LastUse(history, r[i], a) && LastUse(history, r[j], b) ensures a > b {
        if keys[0] != q {
          assert r[j] == rest[j - 1];
          if i == 0 {
            assert r[j] in keys[1..];
            var m :| 0 <= m < |keys[1..]| && keys[1..][m] == r[j];
            assert keys[m + 1] == r[j];
          } else {
            assert r[i] == rest[i - 1];
          }
        }
      }
    }
  }

  /** Recency lists exactly the keys of the history, ordered by last use. */
  lemma {:induction false} RecencyMeaning(history: seq<Str>)
    ensures forall k :: k in Recency(history) <==> k in history
    ensures ByLastUse(history, Recency(history))
  {
    RecencyKeys(history);
    if history != [] {
      var n := |history| - 1;
      var q, before, keys := history[n], history[..n], Recency(history[..n]);
      RecencyMeaning(before);
      WithoutKeepsOrder(before, keys, q);
      WithoutMeaning(keys, q);
      var r := Recency(history);
      assert r == [q] + Without(keys, q);
      forall i, j, a, b | 0 <= i < j < |r| && LastUse(history, r[i], a) && LastUse(history, r[j], b) ensures a > b {
        UseOrder(history, Without(keys, q), i, j, a, b);
      }
    }
  }

  lemma UseOrder(history: seq<Str>, rest: seq<Str>, i: nat, j: nat, a: nat, b: nat)
    requires history != [] && history[|history| - 1] !in rest && ByLastUse(history[..|history| - 1], rest)
    requires var r := [history[|history| - 1]] + rest;
             i < j < |r| && LastUse(history, r[i], a) && LastUse(history, r[j], b)
    ensures a > b
  {
    LaterUse(history, rest[j - 1], b);
    if i > 0 {
      LaterUse(history, rest[i - 1], a);
    }
  }

  lemma LaterUse(history: seq<Str>, key: Str, at: nat)
    requires history != [] && LastUse(history, key, at) && key != history[|history| - 1]
    ensures LastUse(history[..|history| - 1], key, at)
  {
  }

  // ----- one request, on the keys alone

  function NextKeys(keys: seq<Str>, q: Str, cap: nat): (r: seq<Str>)
  {
    if q in keys then [q] + Without(keys, q) else Take([q] + keys, cap)
  }

  lemma TakeCons(head: Str, tail: seq<Str>, n: nat)
    requires n > 0
    ensures Take([head] + tail, n) == [head] + Take(tail, n - 1)
  {
  }

  lemma TakeMembers(keys: seq<Str>, n: nat, q: Str)
    ensures q in Take(keys, n) ==> q in keys
  {
  }

  /** Dropping a key from among the first n brings nothing new into the first n - 1. */
  lemma {:induction false} WithoutTakeHit(keys: seq<Str>, q: Str, n: nat)
    requires Distinct(keys) && q in Take(keys, n)
    ensures n > 0 && Without(Take(keys, n), q) == Take(Without(keys, q), n - 1)
    decreases |keys|
  {
    var tail := keys[1..];
    assert keys == [keys[0]] + tail;
    TakeCons(keys[0], tail, n);
    DistinctTail(keys);
    if keys[0] == q {
      WithoutMeaning(tail, q);
      WithoutMeaning(Take(tail, n - 1), q);
    } else {
      WithoutTakeHit(tail, q, n - 1);
      TakeCons(keys[0], Without(tail, q), n - 1);
    }
  }

  lemma {:induction false} WithoutTakeMiss(keys: seq<Str>, q: Str, n: nat)
    requires Distinct(keys) && q !in Take(keys, n) && n > 0
    ensures Take(Without(keys, q), n - 1) == Take(keys, n - 1)
    decreases |keys|
  {
    if keys != [] && n > 1 {
      var tail := keys[1..];
      assert keys == [keys[0]] + tail;
      TakeCons(keys[0], tail, n);
      TakeCons(keys[0], tail, n - 1);
      DistinctTail(keys);
      WithoutTakeMiss(tail, q, n - 1);
      TakeCons(keys[0], Without(tail, q), n - 1);
    }
  }

  ghost predicate Distinct<T>(s: seq<T>) { forall i, j | 0 <= i < j < |s| :: s[i] != s[j] }

  lemma DistinctTail(keys: seq<Str>)
    requires Distinct(keys) && keys != []
    ensures Distinct(keys[1..]) && keys[0] !in keys[1..]
  {
    forall i | 0 <= i < |keys[1..]| ensures keys[1..][i] != keys[0] {
      assert keys[1..][i] == keys[i + 1];
    }
    forall i, j | 0 <= i < j < |keys[1..]| ensures keys[1..][i] != keys[1..][j] {
      assert keys[1..][i] == keys[i + 1] && keys[1..][j] == keys[j + 1];
    }
  }

  lemma {:induction false} WithoutDistinct(keys: seq<Str>, q: Str)
    requires Distinct(keys)
    ensures Distinct(Without(keys, q))
  {
    if keys != [] {
      DistinctTail(keys);
      WithoutDistinct(keys[1..], q);
      WithoutMeaning(keys[1..], q);
    }
  }

  lemma {:induction false} RecencyDistinct(history: seq<Str>)
    ensures Distinct(Recency(history))
  {
    if history != [] {
      var n := |history| - 1;
      RecencyDistinct(history[..n]);
      WithoutDistinct(Recency(history[..n]), history[n]);
      WithoutMeaning(Recency(history[..n]), history[n]);
    }
  }

  /** Keeping the most recent cap keys of the old history is enough to know those of the new one. */
  lemma NextIsRecency(history: seq<Str>, q: Str, cap: nat)
    ensures NextKeys(Take(Recency(history), cap), q, cap) == Take(Recency(history + [q]), cap)
  {
    var keys := Recency(history);
    RecencyDistinct(history);
    assert (history + [q])[..|history|] == history;
    if q in Take(keys, cap) {
      WithoutTakeHit(keys, q, cap);
      TakeCons(q, Without(keys, q), cap);
    } else if cap > 0 {
      WithoutTakeMiss(keys, q, cap);
      TakeCons(q, Without(keys, q), cap);
      TakeCons(q, Take(keys, cap), cap);
    }
  }

  /** The keys after looking a query up: outside update mode a hit comes to the front. */
  function FoundKeys(keys: seq<Str>, query: Str, update: bool): (r: seq<Str>)
  {
    if !update && query in keys then [query] + Without(keys, query) else keys
  }

  /** The keys after serving a query for which the search returns this key. */
  function ServedKeys(keys: seq<Str>, query: Str, key: Str, known: bool, update: bool, cap: nat): (r: seq<Str>)
  {
    var found := FoundKeys(keys, query, update);
    if known then found else Take([key] + found, cap)
  }

  /** A lookup changes no membership. */
  lemma FoundMembers(keys: seq<Str>, query: Str, update: bool, key: Str)
    ensures key in FoundKeys(keys, query, update) <==> key in keys
  {
    WithoutMeaning(keys, query);
  }

  lemma HistoryGrows(history: seq<Str>, queries: seq<Str>, i: nat)
    requires i < |queries|
    ensures history + queries[..i + 1] == history + queries[..i] + [queries[i]]
  {
  }

  lemma HistoryEnds(history: seq<Str>, queries: seq<Str>)
    ensures history + queries[..0] == history && history + queries[..|queries|] == history + queries
  {
    assert queries[..|queries|] == queries;
  }

  // ----- the cache itself

  function KeysOf(list: seq<ListNode>): (r: seq<Str>)
    ensures |r| == |list| && forall i | 0 <= i < |list| :: r[i] == list[i].pair.first
  {
    seq(|list|, i requires 0 <= i < |list| => list[i].pair.first)
  }

  function PairsOf(list: seq<ListNode>): (r: seq<SearchRetPair>)
    ensures |r| == |list| && forall i | 0 <= i < |list| :: r[i] == list[i].pair
  {
    seq(|list|, i requires 0 <= i < |list| => list[i].pair)
  }

  /** The map indexes exactly the nodes of the list, each under its own key. */
  ghost predicate Indexes(index: map<Str, ListNode>, list: seq<ListNode>)
  {
    && Distinct(list)
    && (forall i | 0 <= i < |list| :: list[i].pair.first in index && index[list[i].pair.first] == list[i])
    && (forall k | k in index :: index[k] in list && index[k].pair.first == k)
  }

  lemma IndexedKeys(index: map<Str, ListNode>, list: seq<ListNode>)
    requires Indexes(index, list)
    ensures Distinct(KeysOf(list))
    ensures forall k :: k in index <==> k in KeysOf(list)
  {
    forall k ensures k in index <==> k in KeysOf(list) {
      if k in index {
        var i :| 0 <= i < |list| && list[i] == index[k];
        assert KeysOf(list)[i] == k;
      }
    }
  }

  class Cache {
    var update: bool
    var isReading: bool
    const cacheSize: nat
    var lruList: seq<ListNode>
    var updaterMap: map<Str, ListNode>
    var nonUpdate: map<Str, seq<Str>>
    var newSearchList: seq<SearchRetPair>

    ghost predicate Valid()
      reads this`lruList, this`updaterMap
    {
      |lruList| <= cacheSize && Indexes(updaterMap, lruList)
    }

    ghost function Keys(): seq<Str>
      reads this`lruList
    {
      KeysOf(lruList)
    }

    ghost function Pairs(): seq<SearchRetPair>
      reads this`lruList
    {
      PairsOf(lruList)
    }

    constructor (cacheSize: nat)
      ensures Valid() && this.cacheSize == cacheSize && !update && !isReading
      ensures lruList == [] && nonUpdate == map[] && newSearchList == []
    {
      this.cacheSize := cacheSize;
      update, isReading := false, false;
      lruList, updaterMap, nonUpdate, newSearchList := [], map[], map[], [];
    }

    /**
      Moves a cached pair to the front, or puts a new pair there and drops the last one when the
      list grows too long. The new pair's key must be absent for the map to stay in step: with a
      key already cached, the list and the map never agree afterwards.
     */
    method LRU(retPair: SearchRetPair, retIter: ListNode?)
      requires Valid()
      requires retIter != null ==> retIter in lruList && retIter.pair == retPair
      modifies this`lruList, this`updaterMap
      ensures retIter == null ==> Pairs() == Take([retPair] + old(Pairs()), cacheSize)
      ensures retIter == null ==> (Valid() <==> retPair.first !in old(Keys()))
      ensures retIter != null ==> Valid() && Keys() == [retPair.first] + Without(old(Keys()), retPair.first)
      ensures retIter != null ==> forall p :: p in Pairs() <==> p in old(Pairs())
    {
      if retIter == null {
        PushNew(retPair);
      } else {
        MoveToFront(retPair, retIter);
      }
    }

    /** A miss answers with the empty key. In update mode only the snapshot is consulted. */
    method SearchCache(word: Str) returns (ret: SearchRetPair)
      requires Valid()
      modifies this`isReading, this`lruList, this`updaterMap
      ensures Valid() && (update ==> isReading == old(isReading)) && (!update ==> !isReading)
      ensures !update && word in old(Keys()) ==>
                && ret in old(Pairs()) && ret.first == word
                && Keys() == [word] + Without(old(Keys()), word)
                && forall p :: p in Pairs() <==> p in old(Pairs())
      ensures update || word !in old(Keys()) ==> lruList == old(lruList) && updaterMap == old(updaterMap)
      ensures !update && word !in old(Keys()) ==> ret == SearchRetPair([], [])
      ensures update ==> ret == if word in nonUpdate then SearchRetPair(word, nonUpdate[word]) else SearchRetPair([], [])
    {
      IndexedKeys(updaterMap, lruList);
      if !update {
        isReading := true;
        if word !in updaterMap {
          isReading := false;
          ret := SearchRetPair([], []);
        } else {
          var retIter := updaterMap[word];
          ret := retIter.pair;
          PairOfNode(lruList, retIter);
          LRU(ret, retIter);
          isReading := false;
        }
      } else {
        ret := if word in nonUpdate then SearchRetPair(word, nonUpdate[word]) else SearchRetPair([], []);
      }
    }

    /** Replicas also remember the pair for the next merge. */
    method InsertCache(retPair: SearchRetPair, isFirst: bool)
      requires Valid()
      modifies this`lruList, this`updaterMap, this`newSearchList
      ensures Pairs() == Take([retPair] + old(Pairs()), cacheSize)
      ensures Valid() <==> retPair.first !in old(Keys())
      ensures newSearchList == if isFirst then old(newSearchList) else old(newSearchList) + [retPair]
    {
      LRU(retPair, null);
      if !isFirst {
        newSearchList := newSearchList + [retPair];
      }
    }

    /** Every cached pair is what the search module answers for its key. */
    ghost predicate Answers(search: Str -> SearchRetPair)
      reads this`lruList
    {
      forall p | p in Pairs() :: p == search(p.first)
    }

    /** Every entry of the snapshot is what the search module answers for its key. */
    ghost predicate SnapshotAnswers(search: Str -> SearchRetPair)
      reads this`nonUpdate
    {
      Right(nonUpdate, search)
    }

    /** A lookup that the caller takes for a hit; an empty key in the answer means a miss. */
    ghost predicate Knows(query: Str)
      reads this`update, this`nonUpdate, this`lruList
    {
      query != [] && if update then query in nonUpdate else query in Keys()
    }

    /**
      One turn of a worker's loop: look the query up, search and insert on a miss. The answer is the
      one a search would give. List and map stay in step if and only if the cache knew the query or
      did not hold the key that the search returned for it.
     */
    method Serve(query: Str, search: Str -> SearchRetPair, isFirst: bool) returns (answer: SearchRetPair)
      requires Valid()
      modifies this`isReading, this`lruList, this`updaterMap, this`newSearchList
      ensures Valid() <==> old(Knows(query)) || search(query).first !in old(Keys())
      ensures Keys() == ServedKeys(old(Keys()), query, search(query).first, old(Knows(query)), update, cacheSize)
      ensures old(Answers(search)) && (update ==> SnapshotAnswers(search)) ==> answer == search(query)
      ensures old(Answers(search)) && search(search(query).first) == search(query) ==> Answers(search)
    {
      answer := SearchCache(query);
      assert Keys() == FoundKeys(old(Keys()), query, update);
      if answer.first == [] {
        FoundMembers(old(Keys()), query, update, search(query).first);
        answer := search(query);
        InsertAnswer(answer, search, isFirst);
      }
    }

    method InsertAnswer(retPair: SearchRetPair, ghost search: Str -> SearchRetPair, isFirst: bool)
      requires Valid()
      modifies this`lruList, this`updaterMap, this`newSearchList
      ensures Valid() <==> retPair.first !in old(Keys())
      ensures Keys() == Take([retPair.first] + old(Keys()), cacheSize)
      ensures old(Answers(search)) && retPair == search(retPair.first) ==> Answers(search)
    {
      ghost var pairs := Pairs();
      SameKeys(lruList);
      InsertCache(retPair, isFirst);
      KeysOfTake(pairs, retPair, cacheSize, Pairs());
      SameKeys(lruList);
      assert Keys() == FirstsOf(Pairs());
    }

    /** The cache after a history of queries: the most recent keys, each with its right answer. */
    ghost predicate Remembers(history: seq<Str>, search: Str -> SearchRetPair)
      reads this`lruList, this`updaterMap
    {
      Valid() && Answers(search) && Keys() == Take(Recency(history), cacheSize)
    }

    method DoTask(queries: seq<Str>, i: nat, search: Str -> SearchRetPair, isFirst: bool, ghost history: seq<Str>)
      returns (answer: SearchRetPair)
      requires !update && i < |queries| && queries[i] != [] && search(queries[i]).first == queries[i]
      requires Remembers(history + queries[..i], search)
      modifies this`isReading, this`lruList, this`updaterMap, this`newSearchList
      ensures Remembers(history + queries[..i + 1], search) && answer == search(queries[i])
    {
      NextIsRecency(history + queries[..i], queries[i], cacheSize);
      answer := Serve(queries[i], search, isFirst);
      HistoryGrows(history, queries, i);
    }

    /** A worker's whole run, outside update mode, from what a history of queries has left in the cache. */
    method DoWork(queries: seq<Str>, search: Str -> SearchRetPair, isFirst: bool, ghost history: seq<Str>)
      returns (answers: seq<SearchRetPair>)
      requires !update && Remembers(history, search)
      requires forall i | 0 <= i < |queries| :: queries[i] != [] && search(queries[i]).first == queries[i]
      modifies this`isReading, this`lruList, this`updaterMap, this`newSearchList
      ensures Remembers(history + queries, search)
      ensures |answers| == |queries| && forall i | 0 <= i < |queries| :: answers[i] == search(queries[i])
    {
      answers := [];
      HistoryEnds(history, queries);
      for i := 0 to |queries|
        invariant Remembers(history + queries[..i], search)
        invariant |answers| == i && forall k | 0 <= k < i :: answers[k] == search(queries[k])
      {
        var answer := DoTask(queries, i, search, isFirst, history);
        answers := answers + [answer];
      }
    }

    /** Hands the pairs found since the last merge to cache 0, unless it already has their keys. */
    method WriteToFirstCache(main: Cache)
      requires main != this && main.Valid()
      modifies main`lruList, main`updaterMap
      ensures main.Valid() && main.Pairs() == MergeAll(old(main.Pairs()), newSearchList, main.cacheSize)
      ensures Absorbs(old(main.Pairs()), newSearchList, main.Pairs(), main.cacheSize)
    {
      ghost var before := main.Pairs();
      for i := 0 to |newSearchList|
        invariant main.Valid()
        invariant MergeAll(main.Pairs(), newSearchList[i..], main.cacheSize)
               == MergeAll(before, newSearchList, main.cacheSize)
      {
        var newPair := newSearchList[i];
        IndexedKeys(main.updaterMap, main.lruList);
        SameKeys(main.lruList);
        if newPair.first !in main.updaterMap {
          main.LRU(newPair, null);
        }
        assert newSearchList[i..][1..] == newSearchList[i + 1..];
      }
      MergeAbsorbs(before, newSearchList, main.cacheSize);
    }

    /** Copies cache 0's list node by node and points the map at the copies. */
    method ReadFromFirstCache(main: Cache)
      requires main != this && main.Valid() && main.cacheSize <= cacheSize
      modifies this`lruList, this`updaterMap
      ensures Valid() && Pairs() == main.Pairs()
    {
      IndexedKeys(main.updaterMap, main.lruList);
      lruList := CopyNodes(main.lruList);
      updaterMap := IndexNodes(lruList);
      assert KeysOf(main.lruList) == KeysOf(lruList);
      assert |lruList| == |main.lruList|;
    }

    /** `list::operator=`: new nodes with the same pairs. */
    method CopyNodes(list: seq<ListNode>) returns (copy: seq<ListNode>)
      ensures PairsOf(copy) == PairsOf(list) && KeysOf(copy) == KeysOf(list) && Distinct(copy)
    {
      copy := [];
      for i := 0 to |list|
        invariant |copy| == i && Distinct(copy)
        invariant forall k | 0 <= k < i :: copy[k].pair == list[k].pair
      {
        var node := new ListNode(list[i].pair);
        copy := copy + [node];
      }
    }

    method IndexNodes(list: seq<ListNode>) returns (index: map<Str, ListNode>)
      ensures Distinct(KeysOf(list)) && Distinct(list) ==> Indexes(index, list)
    {
      index := map[];
      for i := 0 to |list|
        invariant forall k | 0 <= k < i :: list[k].pair.first in index
        invariant Distinct(KeysOf(list)) ==> forall k | 0 <= k < i :: index[list[k].pair.first] == list[k]
        invariant forall k | k in index :: index[k] in list && index[k].pair.first == k
      {
        assert forall k | 0 <= k < i :: KeysOf(list)[k] == list[k].pair.first;
        index := index[list[i].pair.first := list[i]];
      }
    }

    /** `cache_nonupdate_[first] = second` for every pair of the list; `OverwriteMeaning` says what that gives. */
    method TakeSnapshot()
      modifies this`nonUpdate
      ensures nonUpdate == Overwrite(old(nonUpdate), Pairs())
    {
      for i := 0 to |lruList|
        invariant nonUpdate == Overwrite(old(nonUpdate), Pairs()[..i])
      {
        assert Pairs()[..i + 1][..i] == Pairs()[..i];
        nonUpdate := nonUpdate[lruList[i].pair.first := lruList[i].pair.second];
      }
      assert Pairs()[..|lruList|] == Pairs();
    }

    method PushNew(retPair: SearchRetPair)
      requires Valid()
      modifies this`lruList, this`updaterMap
      ensures Pairs() == Take([retPair] + old(Pairs()), cacheSize)
      ensures Valid() <==> retPair.first !in old(Keys())
    {
      ghost var index, list := updaterMap, lruList;
      var node := new ListNode(retPair);
      lruList := [node] + lruList;
      updaterMap := updaterMap[retPair.first := node];
      ghost var all := lruList;
      if |lruList| > cacheSize {
        var delWord := lruList[|lruList| - 1].pair.first;
        assert delWord in updaterMap;
        updaterMap := updaterMap - {delWord};
        lruList := lruList[..|lruList| - 1];
      }
      assert updaterMap == Evicted(index[retPair.first := node], all, cacheSize);
      assert lruList == Take(all, cacheSize);
      PushFrontPairs(list, node, cacheSize);
      PushFront(index, list, node, cacheSize);
    }

    method MoveToFront(retPair: SearchRetPair, retIter: ListNode)
      requires Valid() && retIter in lruList && retIter.pair == retPair
      modifies this`lruList, this`updaterMap
      ensures Valid() && Keys() == [retPair.first] + Without(old(Keys()), retPair.first)
      ensures forall p :: p in Pairs() <==> p in old(Pairs())
    {
      var node := new ListNode(retPair);
      var i :| 0 <= i < |lruList| && lruList[i] == retIter;
      MoveFrontIndex(updaterMap, lruList, i, node);
      MoveFrontKeys(updaterMap, lruList, i, node);
      MoveFrontPairs(lruList, i, node);
      lruList := Moved(lruList, i, node);
      updaterMap := updaterMap[retPair.first := node];
    }
  }

  lemma SameKeys(list: seq<ListNode>)
    ensures KeysOf(list) == FirstsOf(PairsOf(list))
  {
  }

  lemma PairOfNode(list: seq<ListNode>, node: ListNode)
    requires node in list
    ensures node.pair in PairsOf(list)
  {
    var i :| 0 <= i < |list| && list[i] == node;
    assert PairsOf(list)[i] == node.pair;
  }

  function FirstsOf(pairs: seq<SearchRetPair>): (r: seq<Str>)
    ensures |r| == |pairs| && forall i | 0 <= i < |pairs| :: r[i] == pairs[i].first
  {
    seq(|pairs|, i requires 0 <= i < |pairs| => pairs[i].first)
  }

  lemma KeysOfTake(pairs: seq<SearchRetPair>, p: SearchRetPair, cap: nat, result: seq<SearchRetPair>)
    requires result == Take([p] + pairs, cap)
    ensures FirstsOf(result) == Take([p.first] + FirstsOf(pairs), cap)
    ensures forall x | x in result :: x == p || x in pairs
  {
    assert FirstsOf([p] + pairs) == [p.first] + FirstsOf(pairs);
    FirstsOfPrefix([p] + pairs, |result|);
  }

  lemma FirstsOfPrefix(pairs: seq<SearchRetPair>, n: nat)
    requires n <= |pairs|
    ensures FirstsOf(pairs[..n]) == FirstsOf(pairs)[..n]
  {
  }

  lemma PushFrontPairs(list: seq<ListNode>, node: ListNode, cap: nat)
    ensures PairsOf(Take([node] + list, cap)) == Take([node.pair] + PairsOf(list), cap)
  {
    assert PairsOf([node] + list) == [node.pair] + PairsOf(list);
  }

  /** The map once a list that has grown too long has lost its last node. */
  function Evicted(index: map<Str, ListNode>, all: seq<ListNode>, cap: nat): (r: map<Str, ListNode>)
  {
    if |all| > cap then index - {all[|all| - 1].pair.first} else index
  }

  /** What the insertion branch of `LRU` does to list and map. */
  lemma PushFront(index: map<Str, ListNode>, list: seq<ListNode>, node: ListNode, cap: nat)
    requires Indexes(index, list) && |list| <= cap && node !in list
    ensures var all, added := [node] + list, index[node.pair.first := node];
            Indexes(Evicted(added, all, cap), Take(all, cap)) <==> node.pair.first !in KeysOf(list)
  {
    IndexedKeys(index, list);
    if node.pair.first in KeysOf(list) {
      var i :| 0 <= i < |list| && KeysOf(list)[i] == node.pair.first;
      PushPresent(index[node.pair.first := node], list, node, cap, i);
    } else {
      PushFits(index, list, node);
      if |list| == cap {
        DropLast(index[node.pair.first := node], [node] + list);
      }
    }
  }

  /** Two nodes with the same key cannot both be indexed. */
  lemma KeyTwice(index: map<Str, ListNode>, list: seq<ListNode>, a: nat, b: nat)
    requires a < |list| && b < |list| && list[a] != list[b] && list[a].pair.first == list[b].pair.first
    ensures !Indexes(index, list)
  {
  }

  /** A node without its key is not indexed. */
  lemma KeyMissing(index: map<Str, ListNode>, list: seq<ListNode>, a: nat)
    requires a < |list| && list[a].pair.first !in index
    ensures !Indexes(index, list)
  {
  }

  /** A new node in front of one with its key: the map cannot index both. */
  lemma PresentFits(index: map<Str, ListNode>, list: seq<ListNode>, node: ListNode, i: nat)
    requires i < |list| && list[i] != node && list[i].pair.first == node.pair.first
    ensures !Indexes(index, [node] + list)
  {
    var all := [node] + list;
    assert all[0] == node && all[i + 1] == list[i];
    KeyTwice(index, all, 0, i + 1);
  }

  /** Nor when the last node is dropped: either both remain, or the one that goes takes the key along. */
  lemma PresentDrops(index: map<Str, ListNode>, list: seq<ListNode>, node: ListNode, i: nat)
    requires i < |list| && list[i] != node && list[i].pair.first == node.pair.first
    ensures !Indexes(index - {list[|list| - 1].pair.first}, [node] + list[..|list| - 1])
  {
    var n := |list| - 1;
    var rest := index - {list[n].pair.first};
    if i < n {
      PresentFits(rest, list[..n], node, i);
    } else {
      KeyMissing(rest, [node] + list[..n], 0);
    }
  }

  lemma WithoutLast(list: seq<ListNode>, node: ListNode)
    requires list != []
    ensures var all, n := [node] + list, |list| - 1; all[..|list|] == [node] + list[..n] && all[|list|] == list[n]
  {
  }

  lemma PushPresent(index: map<Str, ListNode>, list: seq<ListNode>, node: ListNode, cap: nat, i: nat)
    requires i < |list| <= cap && list[i] != node && list[i].pair.first == node.pair.first
    ensures var all := [node] + list; !Indexes(Evicted(index, all, cap), Take(all, cap))
  {
    if |list| < cap {
      PresentFits(index, list, node, i);
    } else {
      PresentDrops(index, list, node, i);
      WithoutLast(list, node);
    }
  }

  lemma PushFits(index: map<Str, ListNode>, list: seq<ListNode>, node: ListNode)
    requires Indexes(index, list) && node !in list && node.pair.first !in KeysOf(list)
    ensures Indexes(index[node.pair.first := node], [node] + list)
  {
    var all, added := [node] + list, index[node.pair.first := node];
    forall i | 0 <= i < |all| ensures all[i].pair.first in added && added[all[i].pair.first] == all[i] {
      if i > 0 {
        assert all[i] == list[i - 1] && KeysOf(list)[i - 1] == all[i].pair.first;
      }
    }
    forall k | k in added ensures added[k] in all && added[k].pair.first == k {
      if k == node.pair.first {
        assert all[0] == node;
      } else {
        assert added[k] == index[k];
      }
    }
  }

  /** Without its last node and that node's key, list and map are still in step. */
  lemma DropLast(index: map<Str, ListNode>, list: seq<ListNode>)
    requires Indexes(index, list) && list != []
    ensures var n := |list| - 1; Indexes(index - {list[n].pair.first}, list[..n])
  {
    var n := |list| - 1;
    var last := list[n].pair.first;
    var init, rest := list[..n], index - {last};
    forall i | 0 <= i < n ensures init[i].pair.first in rest && rest[init[i].pair.first] == init[i] {
      assert list[i] != list[n];
    }
    forall k | k in rest ensures rest[k] in init && rest[k].pair.first == k {
      var i :| 0 <= i < |list| && list[i] == index[k];
      assert i < n && init[i] == rest[k];
    }
  }

  /** A copy of node i goes to the front and node i is erased. */
  function Moved(list: seq<ListNode>, i: nat, node: ListNode): (r: seq<ListNode>)
    requires i < |list|
    ensures |r| == |list|
    ensures forall j | 0 <= j < |r| :: r[j] == if j == 0 then node else if j <= i then list[j - 1] else list[j]
  {
    [node] + list[..i] + list[i + 1..]
  }

  lemma MovedDistinct(list: seq<ListNode>, i: nat, node: ListNode)
    requires Distinct(list) && i < |list| && node !in list
    ensures Distinct(Moved(list, i, node))
  {
  }

  lemma MoveFrontIndex(index: map<Str, ListNode>, list: seq<ListNode>, i: nat, node: ListNode)
    requires Indexes(index, list) && i < |list| && node !in list && node.pair == list[i].pair
    ensures Indexes(index[node.pair.first := node], Moved(list, i, node))
  {
    MovedDistinct(list, i, node);
    MovedEntries(index, list, i, node);
    MovedKeys(index, list, i, node);
  }

  /** Every node of the moved list is indexed under its key. */
  lemma MovedEntries(index: map<Str, ListNode>, list: seq<ListNode>, i: nat, node: ListNode)
    requires Indexes(index, list) && i < |list| && node !in list && node.pair == list[i].pair
    ensures var list', index' := Moved(list, i, node), index[node.pair.first := node];
            forall j | 0 <= j < |list'| :: list'[j].pair.first in index' && index'[list'[j].pair.first] == list'[j]
  {
    var list', index' := Moved(list, i, node), index[node.pair.first := node];
    forall j | 0 <= j < |list'| ensures list'[j].pair.first in index' && index'[list'[j].pair.first] == list'[j] {
      if j > 0 {
        var was := if j <= i then j - 1 else j;
        assert list'[j] == list[was] && list[was] != list[i];
      }
    }
  }

  /** Every entry of the new map is a node of the moved list. */
  lemma MovedKeys(index: map<Str, ListNode>, list: seq<ListNode>, i: nat, node: ListNode)
    requires Indexes(index, list) && i < |list| && node !in list && node.pair == list[i].pair
    ensures var list', index' := Moved(list, i, node), index[node.pair.first := node];
            forall k | k in index' :: index'[k] in list' && index'[k].pair.first == k
  {
    var list', index' := Moved(list, i, node), index[node.pair.first := node];
    forall k | k in index' ensures index'[k] in list' && index'[k].pair.first == k {
      if k == node.pair.first {
        assert list'[0] == node;
      } else {
        assert index'[k] == index[k] && index[k].pair.first == k;
        var j :| 0 <= j < |list| && list[j] == index[k];
        assert list'[if j < i then j + 1 else j] == list[j];
      }
    }
  }

  lemma MoveFrontKeys(index: map<Str, ListNode>, list: seq<ListNode>, i: nat, node: ListNode)
    requires Indexes(index, list) && i < |list| && node.pair == list[i].pair
    ensures KeysOf(Moved(list, i, node)) == [node.pair.first] + Without(KeysOf(list), node.pair.first)
  {
    IndexedKeys(index, list);
    RemoveAt(KeysOf(list), i);
    KeysOfMoved(list, i, node);
  }

  lemma KeysOfMoved(list: seq<ListNode>, i: nat, node: ListNode)
    requires i < |list|
    ensures KeysOf(Moved(list, i, node)) == [node.pair.first] + (KeysOf(list)[..i] + KeysOf(list)[i + 1..])
  {
  }

  lemma MoveFrontPairs(list: seq<ListNode>, i: nat, node: ListNode)
    requires i < |list| && node.pair == list[i].pair
    ensures forall p :: p in PairsOf(Moved(list, i, node)) <==> p in PairsOf(list)
  {
    var a := PairsOf(list);
    assert PairsOf(Moved(list, i, node)) == [a[i]] + (a[..i] + a[i + 1..]);
    SameElements(a, i);
  }

  /** Moving an element to the front changes no membership. */
  lemma SameElements(a: seq<SearchRetPair>, i: nat)
    requires i < |a|
    ensures forall p :: p in [a[i]] + (a[..i] + a[i + 1..]) <==> p in a
  {
    assert a == a[..i] + ([a[i]] + a[i + 1..]);
  }

  lemma {:induction false} RemoveAt(keys: seq<Str>, i: nat)
    requires Distinct(keys) && i < |keys|
    ensures Without(keys, keys[i]) == keys[..i] + keys[i + 1..]
  {
    DistinctTail(keys);
    if i == 0 {
      WithoutMeaning(keys[1..], keys[0]);
    } else {
      RemoveAt(keys[1..], i - 1);
      assert keys[1..][..i - 1] == keys[..i][1..];
    }
  }

  // ----- the merge

  function MergeOne(pairs: seq<SearchRetPair>, p: SearchRetPair, cap: nat): (r: seq<SearchRetPair>)
  {
    if p.first in FirstsOf(pairs) then pairs else Take([p] + pairs, cap)
  }

  function MergeAll(pairs: seq<SearchRetPair>, added: seq<SearchRetPair>, cap: nat): (r: seq<SearchRetPair>)
    decreases |added|
  {
    if added == [] then pairs else MergeAll(MergeOne(pairs, added[0], cap), added[1..], cap)
  }

  function Overwrite(snapshot: map<Str, seq<Str>>, pairs: seq<SearchRetPair>): (r: map<Str, seq<Str>>)
  {
    if pairs == [] then snapshot
    else
      var n := |pairs| - 1;
      Overwrite(snapshot, pairs[..n])[pairs[n].first := pairs[n].second]
  }

  /** Of pairs with distinct keys the last one shares its key with none before it. */
  lemma LastHasOwnKey(pairs: seq<SearchRetPair>, before: seq<SearchRetPair>, last: SearchRetPair)
    requires pairs == before + [last] && Distinct(FirstsOf(pairs))
    ensures Distinct(FirstsOf(before))
    ensures forall p | p in before :: p.first != last.first
    ensures forall k | k !in FirstsOf(pairs) :: k !in FirstsOf(before) && k != last.first
  {
    var keys, n := FirstsOf(pairs), |before|;
    assert FirstsOf(before) == keys[..n] && keys[n] == last.first;
    forall p | p in before ensures p.first != last.first {
      var i :| 0 <= i < n && before[i] == p;
      assert keys[i] == p.first;
    }
  }

  /** Each pair of distinct keys is in the overwritten snapshot, which is otherwise unchanged. */
  lemma {:induction false} OverwriteMeaning(snapshot: map<Str, seq<Str>>, pairs: seq<SearchRetPair>)
    requires Distinct(FirstsOf(pairs))
    ensures var r := Overwrite(snapshot, pairs);
            && (forall p | p in pairs :: p.first in r && r[p.first] == p.second)
            && forall k | k !in FirstsOf(pairs) :: if k in snapshot then k in r && r[k] == snapshot[k] else k !in r
  {
    if pairs != [] {
      var before, last := pairs[..|pairs| - 1], pairs[|pairs| - 1];
      assert pairs == before + [last];
      LastHasOwnKey(pairs, before, last);
      OverwriteMeaning(snapshot, before);
      assert forall p | p in pairs :: p in before || p == last;
    }
  }

  ghost predicate Right(snapshot: map<Str, seq<Str>>, search: Str -> SearchRetPair)
  {
    forall k | k in snapshot :: SearchRetPair(k, snapshot[k]) == search(k)
  }

  ghost predicate AllRight(pairs: seq<SearchRetPair>, search: Str -> SearchRetPair)
  {
    forall p | p in pairs :: p == search(p.first)
  }

  /** Right answers in the main cache, the found lists and the snapshot make right answers after the merge. */
  lemma RightAfterMerge(pairs: seq<SearchRetPair>, added: seq<SearchRetPair>, cap: nat,
                        snapshot: map<Str, seq<Str>>, search: Str -> SearchRetPair)
    requires AllRight(pairs, search) && AllRight(added, search) && Right(snapshot, search)
    ensures var merged := MergeAll(pairs, added, cap);
            AllRight(merged, search) && Right(Overwrite(snapshot, merged), search)
  {
    MergeInventsNothing(pairs, added, cap);
    OverwriteRight(snapshot, MergeAll(pairs, added, cap), search);
  }

  lemma {:induction false} OverwriteRight(snapshot: map<Str, seq<Str>>, pairs: seq<SearchRetPair>,
                                          search: Str -> SearchRetPair)
    requires AllRight(pairs, search) && Right(snapshot, search)
    ensures Right(Overwrite(snapshot, pairs), search)
  {
    if pairs != [] {
      OverwriteRight(snapshot, pairs[..|pairs| - 1], search);
    }
  }

  /** After the same queries a smaller cache holds the front of what a larger one holds, answers included. */
  lemma SmallerIsPrefix(small: Cache, large: Cache, history: seq<Str>, search: Str -> SearchRetPair)
    requires small.Remembers(history, search) && large.Remembers(history, search)
    requires small.cacheSize <= large.cacheSize
    ensures small.Keys() <= large.Keys() && small.Pairs() <= large.Pairs()
  {
    assert small.Keys() <= large.Keys();
    forall i | 0 <= i < |small.Pairs()| ensures small.Pairs()[i] == large.Pairs()[i] {
      assert small.Keys()[i] == large.Keys()[i];
      PairOfKey(small, i, search);
      PairOfKey(large, i, search);
    }
  }

  lemma PairOfKey(cache: Cache, i: nat, search: Str -> SearchRetPair)
    requires cache.Answers(search) && i < |cache.Keys()|
    ensures cache.Pairs()[i] == search(cache.Keys()[i])
  {
    assert cache.Pairs()[i] in cache.Pairs();
  }

  function Flatten(lists: seq<seq<SearchRetPair>>): (r: seq<SearchRetPair>)
  {
    if lists == [] then [] else Flatten(lists[..|lists| - 1]) + lists[|lists| - 1]
  }

  lemma {:induction false} MergeAppend(pairs: seq<SearchRetPair>, a: seq<SearchRetPair>, b: seq<SearchRetPair>,
                          cap: nat)
    ensures MergeAll(pairs, a + b, cap) == MergeAll(MergeAll(pairs, a, cap), b, cap)
    decreases |a|
  {
    if a == [] {
      assert a + b == b;
    } else {
      assert (a + b)[1..] == a[1..] + b;
      MergeAppend(MergeOne(pairs, a[0], cap), a[1..], b, cap);
    }
  }

  lemma MergeNext(pairs: seq<SearchRetPair>, lists: seq<seq<SearchRetPair>>, i: nat, cap: nat)
    requires 0 < i < |lists|
    ensures MergeAll(pairs, Flatten(lists[1..i + 1]), cap)
         == MergeAll(MergeAll(pairs, Flatten(lists[1..i]), cap), lists[i], cap)
  {
    assert lists[1..i + 1][..i - 1] == lists[1..i];
    MergeAppend(pairs, Flatten(lists[1..i]), lists[i], cap);
  }

  lemma MergeEnds(pairs: seq<SearchRetPair>, lists: seq<seq<SearchRetPair>>, cap: nat)
    requires lists != []
    ensures MergeAll(pairs, Flatten(lists[1..1]), cap) == pairs
    ensures Flatten(lists[1..|lists|]) == Flatten(lists[1..])
  {
    assert lists[1..|lists|] == lists[1..];
    assert lists[1..1] == [];
  }

  function Reversed(pairs: seq<SearchRetPair>): (r: seq<SearchRetPair>)
    ensures |r| == |pairs| && forall i | 0 <= i < |r| :: r[i] == pairs[|pairs| - 1 - i]
  {
    seq(|pairs|, i requires 0 <= i < |pairs| => pairs[|pairs| - 1 - i])
  }

  lemma ReversedCons(pairs: seq<SearchRetPair>, rest: seq<SearchRetPair>)
    requires pairs != []
    ensures Reversed(pairs[1..]) + ([pairs[0]] + rest) == Reversed(pairs) + rest
  {
    assert Reversed(pairs) == Reversed(pairs[1..]) + [pairs[0]];
  }

  /** Cutting what is behind first makes no difference. */
  lemma TakeTake(a: seq<SearchRetPair>, b: seq<SearchRetPair>, cap: nat)
    ensures Take(a + Take(b, cap), cap) == Take(a + b, cap)
  {
  }

  /** Of new pairs with keys of their own the latest come first, before the old pairs, and the list is cut to size. */
  lemma {:induction false} MergeOfNew(pairs: seq<SearchRetPair>, added: seq<SearchRetPair>, cap: nat)
    requires |pairs| <= cap && Distinct(FirstsOf(added))
    requires forall p | p in added :: p.first !in FirstsOf(pairs)
    ensures MergeAll(pairs, added, cap) == Take(Reversed(added) + pairs, cap)
    decreases |added|
  {
    if added == [] {
      assert Reversed(added) + pairs == pairs;
    } else {
      var next, rest := Take([added[0]] + pairs, cap), added[1..];
      assert MergeOne(pairs, added[0], cap) == next;
      StillNew(pairs, added, next);
      MergeOfNew(next, rest, cap);
      TakeTake(Reversed(rest), [added[0]] + pairs, cap);
      ReversedCons(added, pairs);
    }
  }

  lemma StillNew(pairs: seq<SearchRetPair>, added: seq<SearchRetPair>, next: seq<SearchRetPair>)
    requires added != [] && Distinct(FirstsOf(added)) && next <= [added[0]] + pairs
    requires forall p | p in added :: p.first !in FirstsOf(pairs)
    ensures Distinct(FirstsOf(added[1..])) && forall p | p in added[1..] :: p.first !in FirstsOf(next)
  {
    var keys, rest := FirstsOf(added), added[1..];
    assert FirstsOf(rest) == keys[1..];
    DistinctTail(keys);
    forall p | p in rest ensures p.first !in FirstsOf(next) {
      var i :| 0 <= i < |rest| && rest[i] == p;
      assert keys[i + 1] == p.first != keys[0];
      forall k | 0 <= k < |next| ensures FirstsOf(next)[k] != p.first {
        assert next[k] == ([added[0]] + pairs)[k];
        assert k > 0 ==> FirstsOf(pairs)[k - 1] == next[k].first;
      }
    }
  }

  /** Pairs whose keys are there already change nothing, neither values nor order. */
  lemma {:induction false} MergeOfKnown(pairs: seq<SearchRetPair>, added: seq<SearchRetPair>, cap: nat)
    requires forall p | p in added :: p.first in FirstsOf(pairs)
    ensures MergeAll(pairs, added, cap) == pairs
    decreases |added|
  {
    if added != [] {
      MergeOfKnown(pairs, added[1..], cap);
    }
  }

  /** Unless there is no room at all, the key found last is in the result. */
  lemma LastIsKept(pairs: seq<SearchRetPair>, added: seq<SearchRetPair>, cap: nat)
    requires added != [] && cap > 0
    ensures added[|added| - 1].first in FirstsOf(MergeAll(pairs, added, cap))
  {
    var n := |added| - 1;
    var before := MergeAll(pairs, added[..n], cap);
    assert added == added[..n] + [added[n]];
    MergeAppend(pairs, added[..n], [added[n]], cap);
    assert MergeAll(before, [added[n]], cap) == MergeOne(before, added[n], cap);
    if added[n].first !in FirstsOf(before) {
      assert FirstsOf(Take([added[n]] + before, cap))[0] == added[n].first;
    }
  }

  /** The list after a merge, from the pairs alone: new ones go in front, and the last one is never lost. */
  ghost predicate Absorbs(pairs: seq<SearchRetPair>, added: seq<SearchRetPair>, after: seq<SearchRetPair>, cap: nat)
  {
    && (Distinct(FirstsOf(added)) && (forall p | p in added :: p.first !in FirstsOf(pairs)) ==>
          after == Take(Reversed(added) + pairs, cap))
    && ((forall p | p in added :: p.first in FirstsOf(pairs)) ==> after == pairs)
    && (added != [] && cap > 0 ==> added[|added| - 1].first in FirstsOf(after))
  }

  lemma MergeAbsorbs(pairs: seq<SearchRetPair>, added: seq<SearchRetPair>, cap: nat)
    requires |pairs| <= cap
    ensures Absorbs(pairs, added, MergeAll(pairs, added, cap), cap)
  {
    if Distinct(FirstsOf(added)) && forall p | p in added :: p.first !in FirstsOf(pairs) {
      MergeOfNew(pairs, added, cap);
    }
    if forall p | p in added :: p.first in FirstsOf(pairs) {
      MergeOfKnown(pairs, added, cap);
    }
    if added != [] && cap > 0 {
      LastIsKept(pairs, added, cap);
    }
  }

  /** The lists of the replicas, one behind the other. */
  lemma {:induction false} FlattenMeaning(first: seq<SearchRetPair>, rest: seq<seq<SearchRetPair>>)
    ensures Flatten([]) == [] && Flatten([first] + rest) == first + Flatten(rest)
    decreases |rest|
  {
    var all := [first] + rest;
    if rest == [] {
      assert all[..0] == [];
      assert [] + first == first + [];
    } else {
      var n := |rest| - 1;
      assert all[..n + 1] == [first] + rest[..n];
      FlattenMeaning(first, rest[..n]);
      assert first + (Flatten(rest[..n]) + rest[n]) == (first + Flatten(rest[..n])) + rest[n];
    }
  }

  /** The merge invents no pair. */
  lemma {:induction false} MergeInventsNothing(pairs: seq<SearchRetPair>, added: seq<SearchRetPair>, cap: nat)
    ensures forall p | p in MergeAll(pairs, added, cap) :: p in pairs || p in added
    decreases |added|
  {
    if added != [] {
      MergeInventsNothing(MergeOne(pairs, added[0], cap), added[1..], cap);
    }
  }

  lemma {:induction false} DistinctSize(keys: seq<Str>)
    requires Distinct(keys)
    ensures |set k | k in keys| == |keys|
  {
    if keys != [] {
      DistinctTail(keys);
      DistinctSize(keys[1..]);
      assert (set k | k in keys) == {keys[0]} + set k | k in keys[1..];
    }
  }

  lemma DistinctWithin(keys: seq<Str>, room: set<Str>)
    requires Distinct(keys) && forall k | k in keys :: k in room
    ensures |keys| <= |room|
  {
    DistinctSize(keys);
    SubsetSize((set k | k in keys), room);
  }

  lemma {:induction false} SubsetSize(a: set<Str>, b: set<Str>)
    requires a <= b
    ensures |a| <= |b|
  {
    if a != {} {
      var x :| x in a;
      SubsetSize(a - {x}, b - {x});
    }
  }

  lemma OneSurvives(pairs: seq<SearchRetPair>, p: SearchRetPair, cap: nat, room: set<Str>)
    requires Distinct(FirstsOf(pairs)) && |room| <= cap && p.first in room
    requires forall k | k in FirstsOf(pairs) :: k in room
    ensures var r := MergeOne(pairs, p, cap);
            && Distinct(FirstsOf(r)) && p.first in FirstsOf(r)
            && (forall k | k in FirstsOf(pairs) :: k in FirstsOf(r))
            && forall k | k in FirstsOf(r) :: k in room
  {
    if p.first !in FirstsOf(pairs) {
      var keys := [p.first] + FirstsOf(pairs);
      DistinctWithin(keys, room);
      assert FirstsOf([p] + pairs) == keys;
      assert keys[0] == p.first && forall k | k in FirstsOf(pairs) :: k in keys;
    }
  }

  /** When the old and the added keys fit together, the merge keeps every one of them, once. */
  lemma {:induction false} MergeKeepsKeys(pairs: seq<SearchRetPair>, added: seq<SearchRetPair>, cap: nat,
                          room: set<Str>)
    requires Distinct(FirstsOf(pairs)) && |room| <= cap
    requires forall k :: k in room <==> k in FirstsOf(pairs) || k in FirstsOf(added)
    ensures var keys := FirstsOf(MergeAll(pairs, added, cap));
            Distinct(keys) && forall k :: k in room <==> k in keys
    decreases |added|
  {
    if added != [] {
      var next := MergeOne(pairs, added[0], cap);
      assert FirstsOf(added)[0] == added[0].first;
      assert FirstsOf(added)[1..] == FirstsOf(added[1..]);
      assert forall k | k in FirstsOf(added) :: k == added[0].first || k in FirstsOf(added[1..]);
      OneSurvives(pairs, added[0], cap, room);
      assert forall k | k in FirstsOf(added[1..]) :: k in FirstsOf(added);
      MergeKeepsKeys(next, added[1..], cap, room);
    }
  }

  /** All caches, each a different object of the same capacity; cache 0 is the main one. */
  ghost predicate Replicas(caches: seq<Cache>)
    reads All(caches)`lruList, All(caches)`updaterMap
  {
    && caches != [] && Distinct(caches)
    && forall i | 0 <= i < |caches| :: caches[i].Valid() && caches[i].cacheSize == caches[0].cacheSize
  }

  /** Every list is that of cache 0. */
  ghost predicate Agree(caches: seq<Cache>)
    requires caches != []
    reads All(caches)`lruList
  {
    forall i | 0 <= i < |caches| :: caches[i].Pairs() == caches[0].Pairs()
  }

  ghost function All(caches: seq<Cache>): set<Cache> { set c | c in caches }

  /** What each cache has found since the last merge. */
  ghost predicate Found(caches: seq<Cache>, lists: seq<seq<SearchRetPair>>)
    reads All(caches)`newSearchList
  {
    |lists| == |caches| && forall i | 0 <= i < |caches| :: caches[i].newSearchList == lists[i]
  }

  /**
    `UpdateCache` called on cache `caller` while nobody reads. Afterwards every list equals cache
    0's. Only the caller leaves update mode, so the replicas stay in it for good.
   */
  method UpdateCache(caches: seq<Cache>, caller: nat, ghost lists: seq<seq<SearchRetPair>>)
    requires Replicas(caches) && caller < |caches| && Found(caches, lists)
    requires forall i | 0 <= i < |caches| :: !caches[i].isReading
    modifies All(caches)
    ensures Merged(caches, lists)
    ensures caches[0].Pairs()
         == MergeAll(old(caches[0].Pairs()), Flatten(lists[1..]), caches[0].cacheSize)
    ensures Absorbs(old(caches[0].Pairs()), Flatten(lists[1..]), caches[0].Pairs(), caches[0].cacheSize)
    ensures forall i | 0 <= i < |caches| ::
              caches[i].nonUpdate == Overwrite(old(caches[i].nonUpdate), caches[i].Pairs())
    ensures forall i | 0 <= i < |caches| && i != caller ::
              caches[i].update == (i > 0 || old(caches[0].update))
    ensures !caches[caller].update
  {
    MergeAbsorbs(caches[0].Pairs(), Flatten(lists[1..]), caches[0].cacheSize);
    EnterAndMerge(caches, lists);
    LeaveAndSnapshot(caches, caller, lists);
  }

  method EnterAndMerge(caches: seq<Cache>, ghost lists: seq<seq<SearchRetPair>>)
    requires Replicas(caches) && Found(caches, lists)
    modifies All(caches)`update, All(caches)`lruList, All(caches)`updaterMap, All(caches)`newSearchList
    ensures Merged(caches, lists)
    ensures caches[0].Pairs() == MergeAll(old(caches[0].Pairs()), Flatten(lists[1..]), caches[0].cacheSize)
    ensures forall i | 0 <= i < |caches| :: caches[i].update == (i > 0 || old(caches[0].update))
    ensures forall i | 0 <= i < |caches| :: caches[i].nonUpdate == old(caches[i].nonUpdate)
  {
    EnterUpdateMode(caches);
    assert Found(caches, lists) && caches[0].Pairs() == old(caches[0].Pairs());
    Merge(caches, lists);
  }

  method LeaveAndSnapshot(caches: seq<Cache>, caller: nat, ghost lists: seq<seq<SearchRetPair>>)
    requires Merged(caches, lists) && caller < |caches|
    modifies {caches[caller]}`update, All(caches)`nonUpdate
    ensures Merged(caches, lists) && caches[0].Pairs() == old(caches[0].Pairs())
    ensures !caches[caller].update
    ensures forall i | 0 <= i < |caches| && i != caller :: caches[i].update == old(caches[i].update)
    ensures forall i | 0 <= i < |caches| ::
              caches[i].nonUpdate == Overwrite(old(caches[i].nonUpdate), caches[i].Pairs())
  {
    LeaveUpdateMode(caches, caller, lists);
    SnapshotAll(caches, lists);
  }

  /** All lists agree, and the replicas have handed over what they found. */
  ghost predicate Merged(caches: seq<Cache>, lists: seq<seq<SearchRetPair>>)
    reads All(caches)`lruList, All(caches)`updaterMap, All(caches)`newSearchList
  {
    Replicas(caches) && |caches| == |lists| && Agree(caches) && TakenUpTo(caches, lists, |caches|)
  }

  method Merge(caches: seq<Cache>, ghost lists: seq<seq<SearchRetPair>>)
    requires Replicas(caches) && Found(caches, lists)
    modifies All(caches)`lruList, All(caches)`updaterMap, All(caches)`newSearchList
    ensures Merged(caches, lists)
    ensures caches[0].Pairs() == MergeAll(old(caches[0].Pairs()), Flatten(lists[1..]), caches[0].cacheSize)
    ensures forall i | 0 <= i < |caches| ::
              caches[i].update == old(caches[i].update) && caches[i].nonUpdate == old(caches[i].nonUpdate)
  {
    WriteAll(caches, lists);
    assert forall i | 0 < i < |caches| :: caches[i].Valid();
    ReadAll(caches);
  }

  method LeaveUpdateMode(caches: seq<Cache>, caller: nat, ghost lists: seq<seq<SearchRetPair>>)
    requires Merged(caches, lists) && caller < |caches|
    modifies {caches[caller]}`update
    ensures Merged(caches, lists) && caches[0].Pairs() == old(caches[0].Pairs())
    ensures !caches[caller].update
    ensures forall i | 0 <= i < |caches| && i != caller :: caches[i].update == old(caches[i].update)
  {
    caches[caller].update := false;
  }

  method EnterUpdateMode(caches: seq<Cache>)
    requires Replicas(caches)
    modifies All(caches)`update
    ensures Replicas(caches)
    ensures forall i | 0 <= i < |caches| ::
              caches[i].update == (i > 0 || old(caches[0].update)) && caches[i].nonUpdate == old(caches[i].nonUpdate)
  {
    for i := 1 to |caches|
      invariant Replicas(caches)
      invariant forall k | 0 <= k < i :: caches[k].update == (k > 0 || old(caches[0].update))
    {
      caches[i].update := true;
    }
  }

  /** Cache 0 takes over what the replicas found, replica by replica. */
  method WriteAll(caches: seq<Cache>, ghost lists: seq<seq<SearchRetPair>>)
    requires Replicas(caches) && Found(caches, lists)
    modifies {caches[0]}`lruList, {caches[0]}`updaterMap, All(caches)`newSearchList
    ensures caches[0].Valid()
    ensures caches[0].Pairs()
         == MergeAll(old(caches[0].Pairs()), Flatten(lists[1..]), caches[0].cacheSize)
    ensures TakenUpTo(caches, lists, |caches|)
    ensures forall i | 0 <= i < |caches| ::
              caches[i].update == old(caches[i].update) && caches[i].nonUpdate == old(caches[i].nonUpdate)
  {
    ghost var pairs, cap := caches[0].Pairs(), caches[0].cacheSize;
    for i := 1 to |caches|
      invariant caches[0].Valid()
      invariant caches[0].Pairs() == MergeAll(pairs, Flatten(lists[1..i]), cap)
      invariant TakenUpTo(caches, lists, i)
    {
      TakeOver(caches, lists, i);
      MergeNext(pairs, lists, i, cap);
    }
    MergeEnds(pairs, lists, cap);
  }

  /** The replicas before i have handed over what they found; cache 0 has nothing to hand over. */
  ghost predicate TakenUpTo(caches: seq<Cache>, lists: seq<seq<SearchRetPair>>, i: nat)
    requires |caches| == |lists|
    reads All(caches)`newSearchList
  {
    && (forall k | 0 < k < i && k < |caches| :: caches[k].newSearchList == [])
    && (forall k | i <= k < |caches| :: caches[k].newSearchList == lists[k])
  }

  method TakeOver(caches: seq<Cache>, ghost lists: seq<seq<SearchRetPair>>, i: nat)
    requires Distinct(caches) && |caches| == |lists| && 0 < i < |caches| && TakenUpTo(caches, lists, i)
    requires caches[0].Valid()
    modifies {caches[0]}`lruList, {caches[0]}`updaterMap, {caches[i]}`newSearchList
    ensures caches[0].Valid() && TakenUpTo(caches, lists, i + 1)
    ensures caches[0].Pairs() == MergeAll(old(caches[0].Pairs()), lists[i], caches[0].cacheSize)
  {
    Contribute(caches[0], caches[i]);
  }

  method Contribute(main: Cache, replica: Cache)
    requires main != replica && main.Valid()
    modifies main`lruList, main`updaterMap, replica`newSearchList
    ensures main.Valid() && replica.newSearchList == []
    ensures main.Pairs() == MergeAll(old(main.Pairs()), old(replica.newSearchList), main.cacheSize)
  {
    replica.WriteToFirstCache(main);
    replica.newSearchList := [];
  }

  method ReadAll(caches: seq<Cache>)
    requires Replicas(caches)
    modifies All(caches)`lruList, All(caches)`updaterMap
    ensures Replicas(caches) && caches[0].Pairs() == old(caches[0].Pairs()) && Agree(caches)
    ensures forall i | 0 <= i < |caches| ::
              caches[i].update == old(caches[i].update) && caches[i].nonUpdate == old(caches[i].nonUpdate)
  {
    for i := 1 to |caches|
      invariant Replicas(caches) && caches[0].lruList == old(caches[0].lruList)
      invariant forall k | 0 <= k < i :: caches[k].Pairs() == caches[0].Pairs()
    {
      ReadOne(caches, i);
    }
  }

  /** Replica i copies cache 0. */
  method ReadOne(caches: seq<Cache>, i: nat)
    requires Replicas(caches) && 0 < i < |caches|
    modifies {caches[i]}`lruList, {caches[i]}`updaterMap
    ensures Replicas(caches) && caches[i].Pairs() == caches[0].Pairs()
  {
    assert caches[i] != caches[0];
    caches[i].ReadFromFirstCache(caches[0]);
  }

  method SnapshotAll(caches: seq<Cache>, ghost lists: seq<seq<SearchRetPair>>)
    requires Merged(caches, lists)
    modifies All(caches)`nonUpdate
    ensures Merged(caches, lists) && caches[0].Pairs() == old(caches[0].Pairs())
    ensures forall k | 0 <= k < |caches| ::
              caches[k].nonUpdate == Overwrite(old(caches[k].nonUpdate), caches[k].Pairs())
  {
    ghost var before := Snapshots(caches);
    for i := 0 to |caches|
      invariant RefreshedUpTo(caches, before, i)
    {
      RefreshOne(caches, before, i);
    }
  }

  ghost function Snapshots(caches: seq<Cache>): (r: seq<map<Str, seq<Str>>>)
    reads All(caches)
    ensures |r| == |caches| && forall i | 0 <= i < |caches| :: r[i] == caches[i].nonUpdate
  {
    seq(|caches|, i requires 0 <= i < |caches| reads All(caches) => caches[i].nonUpdate)
  }

  /** The snapshots of the caches before i are refreshed, the others as they were. */
  ghost predicate RefreshedUpTo(caches: seq<Cache>, before: seq<map<Str, seq<Str>>>, i: nat)
    requires |before| == |caches|
    reads All(caches)`nonUpdate, All(caches)`lruList
  {
    && (forall k | 0 <= k < i && k < |caches| :: caches[k].nonUpdate == Overwrite(before[k], caches[k].Pairs()))
    && (forall k | i <= k < |caches| :: caches[k].nonUpdate == before[k])
  }

  method RefreshOne(caches: seq<Cache>, ghost before: seq<map<Str, seq<Str>>>, i: nat)
    requires Distinct(caches) && i < |caches| == |before| && RefreshedUpTo(caches, before, i)
    modifies {caches[i]}`nonUpdate
    ensures RefreshedUpTo(caches, before, i + 1)
  {
    caches[i].TakeSnapshot();
  }

  /**
    After a merge a replica serves in update mode for good. A query its snapshot lacks is then
    searched and inserted every time: asked twice in a row, it leaves list and map out of step.
   */
  method AskTwice(replica: Cache, query: Str, search: Str -> SearchRetPair)
    requires replica.Valid() && replica.update && replica.cacheSize > 0
    requires query != [] && search(query).first == query
    requires query !in replica.nonUpdate && query !in replica.Keys()
    modifies replica
    ensures !replica.Valid()
  {
    var first := replica.Serve(query, search, false);
    assert replica.Keys()[0] == query;
    var second := replica.Serve(query, search, false);
  }

  /** Outside update mode the same happens to a query that comes back lower-cased: it never becomes a hit. */
  method AskMixedCase(cache: Cache, query: Str, search: Str -> SearchRetPair)
    requires cache.Valid() && !cache.update && cache.cacheSize > 0
    requires query !in cache.Keys() && search(query).first !in cache.Keys()
    requires search(query).first != query
    modifies cache
    ensures !cache.Valid()
  {
    var first := cache.Serve(query, search, true);
    assert cache.Keys()[0] == search(query).first;
    TakeMembers([search(query).first] + old(cache.Keys()), cache.cacheSize, query);
    var second := cache.Serve(query, search, true);
  }
}
