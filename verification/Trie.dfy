/**
  The dictionary trie: nodes linked through hash maps, grown by `InsertNode` and walked by the
  two `Find` functions. The abstract value of a trie is a map from words to dictionary entries.
 */
module WordTrie {
  import opened Facts
  import opened Options
  import opened Unicode

  const MAX_WORD_LENGTH: nat := 512

  datatype DictUnit = DictUnit(word: seq<Rune>, weight: real, tag: seq<byte>)

  /** One edge of the word graph: the position where the word ends and its entry, if it has one. */
  datatype Edge = Edge(last: nat, unit: Option<DictUnit>)

  /** A column of the word graph; the shortest-path pass overwrites `pInfo` and `weight`. */
  datatype Dag = Dag(runestr: RuneStr, nexts: seq<Edge>, pInfo: Option<DictUnit>, weight: real)

  type Lexicon = map<seq<Rune>, DictUnit>

  class TrieNode {
    var next: Option<map<Rune, TrieNode>>
    var ptValue: Option<DictUnit>
    /** The runes on the way from the root. */
    ghost const path: seq<Rune>

    constructor (ghost path: seq<Rune>)
      ensures next == None && ptValue == None && this.path == path
    {
      this.path := path;
      next := None;
      ptValue := None;
    }
  }

  // ----- naive lookup, the reference for both walks

  function Lookup(lex: Lexicon, word: seq<Rune>): (r: Option<DictUnit>)
  {
    if word in lex then Some(lex[word]) else None
  }

  /** The entry of the runes i..last, both included. */
  function LookupSpan(lex: Lexicon, text: seq<Rune>, i: nat, last: nat): Option<DictUnit>
    requires i <= last < |text|
  {
    Lookup(lex, text[i..last + 1])
  }

  /** Every stored word that starts at i, ends in from..end-1 and is found by looking up the substring. */
  function WordsFrom(lex: Lexicon, text: seq<Rune>, i: nat, from: int, end: int): (edges: seq<Edge>)
    requires i <= from && end <= |text|
    decreases end - from
  {
    if from >= end then []
    else
      var unit := LookupSpan(lex, text, i, from);
      (if unit.Some? then [Edge(from, unit)] else []) + WordsFrom(lex, text, i, from + 1, end)
  }

  /** Just past the last position a word of at most maxLen runes starting at i may end. */
  function Reach(text: seq<Rune>, i: nat, maxLen: nat): (r: nat)
    ensures r <= |text|
  {
    if i + maxLen < |text| then i + maxLen else |text|
  }

  /** The column for position i: the single rune always, then the longer words by increasing end. */
  function NaiveNexts(lex: Lexicon, text: seq<Rune>, i: nat, maxLen: nat): (edges: seq<Edge>)
    requires i < |text|
  {
    [Edge(i, LookupSpan(lex, text, i, i))] + WordsFrom(lex, text, i, i + 1, Reach(text, i, maxLen))
  }

  lemma {:induction false} WordsFromSnoc(lex: Lexicon, text: seq<Rune>, i: nat, from: int, end: int)
    requires i <= from <= end < |text|
    ensures WordsFrom(lex, text, i, from, end + 1)
         == WordsFrom(lex, text, i, from, end)
            + (if LookupSpan(lex, text, i, end).Some? then [Edge(end, LookupSpan(lex, text, i, end))] else [])
    decreases end - from
  {
    if from < end {
      WordsFromSnoc(lex, text, i, from + 1, end);
      var head := if LookupSpan(lex, text, i, from).Some? then [Edge(from, LookupSpan(lex, text, i, from))] else [];
      var last := if LookupSpan(lex, text, i, end).Some? then [Edge(end, LookupSpan(lex, text, i, end))] else [];
      Regroup(head, WordsFrom(lex, text, i, from + 1, end), last);
    }
  }

  lemma {:induction false} WordsFromNone(lex: Lexicon, text: seq<Rune>, i: nat, from: int, end: int)
    requires i <= from && end <= |text|
    requires forall last | from <= last < end :: LookupSpan(lex, text, i, last).None?
    ensures WordsFrom(lex, text, i, from, end) == []
    decreases end - from
  {
    if from < end {
      WordsFromNone(lex, text, i, from + 1, end);
    }
  }

  /** An edge is in a column exactly when it is the single rune or a stored word within reach. */
  lemma NaiveNextsMeaning(lex: Lexicon, text: seq<Rune>, i: nat, maxLen: nat, e: Edge)
    requires i < |text|
    ensures e in NaiveNexts(lex, text, i, maxLen) <==>
              && i <= e.last < |text|
              && e.unit == LookupSpan(lex, text, i, e.last)
              && (e.last == i || (e.last - i + 1 <= maxLen && e.unit.Some?))
  {
    WordsFromMeaning(lex, text, i, i + 1, Reach(text, i, maxLen), e);
  }

  lemma {:induction false} WordsFromMeaning(lex: Lexicon, text: seq<Rune>, i: nat, from: int, end: int, e: Edge)
    requires i <= from && end <= |text|
    ensures e in WordsFrom(lex, text, i, from, end) <==>
              from <= e.last < end && e.unit == LookupSpan(lex, text, i, e.last) && e.unit.Some?
    decreases end - from
  {
    if from < end {
      WordsFromMeaning(lex, text, i, from + 1, end, e);
    }
  }

  ghost predicate Ascending(edges: seq<Edge>, from: int)
  {
    && (forall k | 0 <= k < |edges| :: from <= edges[k].last)
    && (forall j, k | 0 <= j < k < |edges| :: edges[j].last < edges[k].last)
  }

  lemma EdgeInFront(e: Edge, edges: seq<Edge>)
    requires Ascending(edges, e.last + 1)
    ensures Ascending([e] + edges, e.last)
  {
  }

  lemma {:induction false} WordsFromAscend(lex: Lexicon, text: seq<Rune>, i: nat, from: int, end: int)
    requires i <= from && end <= |text|
    ensures Ascending(WordsFrom(lex, text, i, from, end), from)
    decreases end - from
  {
    if from < end {
      WordsFromAscend(lex, text, i, from + 1, end);
      var unit := LookupSpan(lex, text, i, from);
      if unit.Some? {
        EdgeInFront(Edge(from, unit), WordsFrom(lex, text, i, from + 1, end));
      } else {
        assert WordsFrom(lex, text, i, from, end) == WordsFrom(lex, text, i, from + 1, end);
      }
    }
  }

  /** The edges of a column end further and further right; no two end at the same place. */
  lemma NaiveNextsAscend(lex: Lexicon, text: seq<Rune>, i: nat, maxLen: nat)
    requires i < |text|
    ensures Ascending(NaiveNexts(lex, text, i, maxLen), i)
  {
    WordsFromAscend(lex, text, i, i + 1, Reach(text, i, maxLen));
    EdgeInFront(Edge(i, LookupSpan(lex, text, i, i)), WordsFrom(lex, text, i, i + 1, Reach(text, i, maxLen)));
  }

  /** The word graph of a text, before the shortest-path pass. */
  ghost predicate IsWordGraph(lex: Lexicon, text: seq<RuneStr>, maxLen: nat, dags: seq<Dag>)
  {
    && |dags| == |text|
    && forall i | 0 <= i < |dags| ::
         dags[i].runestr == text[i] && dags[i].nexts == NaiveNexts(lex, RunesOf(text), i, maxLen)
  }

  class Trie {
    const root: TrieNode

    /** Which node each path of runes leads to; the paths present are closed under prefixes. */
    ghost var nodes: map<seq<Rune>, TrieNode>

    ghost predicate Valid()
      reads this, nodes.Values
    {
      && [] in nodes && nodes[[]] == root
      && root.ptValue == None
      && (forall p | p in nodes :: nodes[p].path == p)
      && (forall p {:trigger Up(p)} | p in nodes && p != [] :: Up(p) in nodes && Child(nodes[Up(p)], Last(p)) == Some(nodes[p]))
      && (forall p, r {:trigger Down(p, r)} | p in nodes && Child(nodes[p], r).Some? :: Down(p, r) in nodes)
    }

    static function Up(p: seq<Rune>): seq<Rune>
      requires p != []
    {
      p[..|p| - 1]
    }

    static function Last(p: seq<Rune>): Rune
      requires p != []
    {
      p[|p| - 1]
    }

    static function Down(p: seq<Rune>, r: Rune): seq<Rune> { p + [r] }

    static function Child(node: TrieNode, r: Rune): Option<TrieNode>
      reads node
    {
      if node.next.Some? && r in node.next.value then Some(node.next.value[r]) else None
    }

    /** The dictionary the trie stands for. */
    ghost function Contents(): (lex: Lexicon)
      reads this, nodes.Values
    {
      map p | p in nodes && nodes[p].ptValue.Some? :: nodes[p].ptValue.value
    }

    /** The trie is sound and stands for this dictionary. */
    ghost predicate Holds(lex: Lexicon)
      reads this, nodes.Values
    {
      Valid() && Contents() == lex
    }

    constructor Empty()
      ensures Valid() && Contents() == map[]
      ensures fresh(nodes.Values)
    {
      root := new TrieNode([]);
      new;
      nodes := map[[] := root];
    }

    /** Paths are closed under prefixes. */
    lemma {:induction false} PrefixClosed(p: seq<Rune>, k: nat)
      requires Valid() && p in nodes && k <= |p|
      ensures p[..k] in nodes
      decreases |p|
    {
      if k < |p| {
        PrefixClosed(Up(p), k);
        assert Up(p)[..k] == p[..k];
      } else {
        assert p[..k] == p;
      }
    }

    /** Following rune r from path p: a dead end means that no path continues that way. */
    lemma Follow(p: seq<Rune>, r: Rune)
      requires Valid() && p in nodes
      ensures Child(nodes[p], r) == if Down(p, r) in nodes then Some(nodes[Down(p, r)]) else None
    {
      var q := Down(p, r);
      assert Up(q) == p && Last(q) == r;
    }

    method InsertNode(key: seq<Rune>, ptValue: DictUnit)
      requires Valid()
      modifies this`nodes, nodes.Values
      ensures Valid() && fresh(nodes.Values - old(nodes.Values))
      ensures Contents() == if key == [] then old(Contents()) else old(Contents())[key := ptValue]
    {
      if key == [] {
        return;
      }
      var ptNode := root;
      for i := 0 to |key|
        invariant Valid() && fresh(nodes.Values - old(nodes.Values))
        invariant Contents() == old(Contents())
        invariant key[..i] in nodes && ptNode == nodes[key[..i]]
      {
        assert Down(key[..i], key[i]) == key[..i + 1];
        ptNode := StepDown(key[..i], ptNode, key[i]);
      }
      assert key[..|key|] == key;
      SetValue(key, ptNode, ptValue);
    }

    /** The loop body: from the node of path p to that of the path one rune longer, linked in if absent. */
    method StepDown(ghost p: seq<Rune>, ptNode: TrieNode, r: Rune) returns (child: TrieNode)
      requires Valid() && p in nodes && nodes[p] == ptNode
      modifies this`nodes, ptNode`next
      ensures Valid() && Contents() == old(Contents())
      ensures Down(p, r) in nodes && nodes[Down(p, r)] == child
      ensures fresh(nodes.Values - old(nodes.Values))
    {
      Follow(p, r);
      if ptNode.next == None {
        GiveMap(p, ptNode);
      }
      if r !in ptNode.next.value {
        child := LinkNode(p, ptNode, r);
      } else {
        child := ptNode.next.value[r];
      }
    }

    /** A node without a map gets an empty one, which changes no lookup. */
    method GiveMap(ghost p: seq<Rune>, ptNode: TrieNode)
      requires Valid() && p in nodes && nodes[p] == ptNode && ptNode.next == None
      modifies ptNode`next
      ensures Valid() && ptNode.next == Some(map[])
      ensures Contents() == old(Contents())
    {
      ptNode.next := Some(map[]);
      assert forall q | q in nodes :: nodes[q].ptValue == old(nodes[q].ptValue);
      assert forall q, s | q in nodes :: Child(nodes[q], s) == old(Child(nodes[q], s));
    }

    /** Links a new node below path p along r. */
    method LinkNode(ghost p: seq<Rune>, ptNode: TrieNode, r: Rune) returns (nextNode: TrieNode)
      requires Valid() && p in nodes && nodes[p] == ptNode && ptNode.next.Some? && r !in ptNode.next.value
      modifies this`nodes, ptNode`next
      ensures Valid() && fresh(nextNode)
      ensures nodes == old(nodes)[Down(p, r) := nextNode]
      ensures nodes.Values == old(nodes.Values) + {nextNode}
      ensures Contents() == old(Contents())
    {
      Follow(p, r);
      ghost var pr, was, lex := Down(p, r), nodes, Contents();
      ghost var childOf, valueOf := (map q | q in nodes :: nodes[q].next), (map q | q in nodes :: nodes[q].ptValue);
      OldLinks(childOf);
      OldContents(valueOf);
      nextNode := new TrieNode(pr);
      ptNode.next := Some(ptNode.next.value[r := nextNode]);
      nodes := nodes[pr := nextNode];
      assert forall q | q in was :: nodes[q] == was[q] && (q != p ==> nodes[q].next == childOf[q]);
      LinkedIsValid(was, childOf, p, r, nextNode);
      LinkedHolds(was, valueOf, pr, nextNode, lex);
      OneMoreValue(was, pr, nextNode);
    }

    static lemma OneMoreValue(was: map<seq<Rune>, TrieNode>, pr: seq<Rune>, node: TrieNode)
      requires pr !in was
      ensures was[pr := node].Values == was.Values + {node}
    {
      var all := was[pr := node];
      assert forall q | q in was :: q in all && all[q] == was[q];
      assert pr in all && all[pr] == node;
    }

    static ghost function LexiconOf(valueOf: map<seq<Rune>, Option<DictUnit>>): Lexicon
    {
      map q | q in valueOf && valueOf[q].Some? :: valueOf[q].value
    }

    lemma OldContents(valueOf: map<seq<Rune>, Option<DictUnit>>)
      requires valueOf == map q | q in nodes :: nodes[q].ptValue
      ensures Contents() == LexiconOf(valueOf)
    {
    }

    /** The link conditions of `Valid`, on a copy of the maps of the nodes. */
    lemma OldLinks(childOf: map<seq<Rune>, Option<map<Rune, TrieNode>>>)
      requires Valid() && childOf == map q | q in nodes :: nodes[q].next
      ensures forall q {:trigger Up(q)} | q in nodes && q != [] ::
                Up(q) in nodes && childOf[Up(q)].Some? && Last(q) in childOf[Up(q)].value
                && childOf[Up(q)].value[Last(q)] == nodes[q]
      ensures forall q, s {:trigger Down(q, s)} | q in nodes && childOf[q].Some? && s in childOf[q].value ::
                Down(q, s) in nodes
    {
      forall q {:trigger Up(q)} | q in nodes && q != []
        ensures Up(q) in nodes && childOf[Up(q)].Some? && Last(q) in childOf[Up(q)].value
                && childOf[Up(q)].value[Last(q)] == nodes[q]
      {
        assert Child(nodes[Up(q)], Last(q)) == Some(nodes[q]);
      }
    }

    lemma LinkedHolds(was: map<seq<Rune>, TrieNode>, valueOf: map<seq<Rune>, Option<DictUnit>>,
                      pr: seq<Rune>, nextNode: TrieNode, lex: Lexicon)
      requires pr !in was && nodes == was[pr := nextNode] && nextNode.ptValue == None
      requires valueOf.Keys == was.Keys && forall q | q in was :: was[q].ptValue == valueOf[q]
      requires lex == LexiconOf(valueOf)
      ensures Contents() == lex
    {
    }

    /** The link conditions of `Valid`, from what they were before one node was linked in. */
    lemma LinkedIsValid(was: map<seq<Rune>, TrieNode>, childOf: map<seq<Rune>, Option<map<Rune, TrieNode>>>,
                        p: seq<Rune>, r: Rune, nextNode: TrieNode)
      requires p in was && Down(p, r) !in was && nodes == was[Down(p, r) := nextNode]
      requires childOf.Keys == was.Keys && childOf[p].Some? && nextNode.next == None
      requires nodes[p].next == Some(childOf[p].value[r := nextNode])
      requires forall q | q in was && q != p :: was[q].next == childOf[q]
      requires forall q {:trigger Up(q)} | q in was && q != [] ::
                 Up(q) in was && childOf[Up(q)].Some? && Last(q) in childOf[Up(q)].value
                 && childOf[Up(q)].value[Last(q)] == was[q]
      requires forall q, s {:trigger Down(q, s)} | q in was && childOf[q].Some? && s in childOf[q].value ::
                 Down(q, s) in was
      ensures forall q {:trigger Up(q)} | q in nodes && q != [] ::
                Up(q) in nodes && Child(nodes[Up(q)], Last(q)) == Some(nodes[q])
      ensures forall q, s {:trigger Down(q, s)} | q in nodes && Child(nodes[q], s).Some? :: Down(q, s) in nodes
    {
      forall q {:trigger Up(q)} | q in nodes && q != []
        ensures Up(q) in nodes && Child(nodes[Up(q)], Last(q)) == Some(nodes[q])
      {
        assert q == Down(Up(q), Last(q));
        assert q == Down(p, r) ==> Up(q) == p && Last(q) == r;
      }
    }

    method SetValue(ghost p: seq<Rune>, ptNode: TrieNode, ptValue: DictUnit)
      requires Valid() && p in nodes && p != [] && nodes[p] == ptNode
      modifies ptNode`ptValue
      ensures Valid()
      ensures Contents() == old(Contents())[p := ptValue]
    {
      ptNode.ptValue := Some(ptValue);
      assert forall q | q in nodes && q != p :: nodes[q].ptValue == old(nodes[q].ptValue);
      assert forall q, s | q in nodes :: Child(nodes[q], s) == old(Child(nodes[q], s));
    }
  
    /** `Trie(keys, valuePointers)`: later keys win, as in a map built by the same insertions. */
    method CreateTrie(keys: seq<seq<Rune>>, valuePointers: seq<DictUnit>)
      requires Valid()
      requires keys != [] && valuePointers != [] ==> |keys| == |valuePointers|
      modifies this`nodes, nodes.Values
      ensures Valid() && fresh(nodes.Values - old(nodes.Values))
      ensures Contents() == if keys == [] || valuePointers == [] then old(Contents())
                            else InsertAll(old(Contents()), keys, valuePointers)
    {
      if valuePointers == [] || keys == [] {
        return;
      }
      for i := 0 to |keys|
        invariant Valid() && fresh(nodes.Values - old(nodes.Values))
        invariant Contents() == InsertAll(old(Contents()), keys[..i], valuePointers[..i])
      {
        InsertNode(keys[i], valuePointers[i]);
        assert keys[..i + 1][..i] == keys[..i] && valuePointers[..i + 1][..i] == valuePointers[..i];
      }
      assert keys[..|keys|] == keys && valuePointers[..|keys|] == valuePointers;
    }

    /** Exact lookup of the runes begin..end-1. */
    method Find(runes: seq<RuneStr>, begin: nat, end: nat) returns (unit: Option<DictUnit>)
      requires Valid() && begin <= end <= |runes|
      ensures unit == Lookup(Contents(), RunesOf(runes)[begin..end])
    {
      ghost var word := RunesOf(runes)[begin..end];
      if begin == end {
        return None;
      }
      var ptNode := root;
      for it := begin to end
        invariant word[..it - begin] in nodes && ptNode == nodes[word[..it - begin]]
      {
        ghost var k := it - begin;
        assert Down(word[..k], runes[it].rune) == word[..k + 1];
        Follow(word[..k], runes[it].rune);
        if ptNode.next == None || runes[it].rune !in ptNode.next.value {
          if word in nodes {
            PrefixClosed(word, k + 1);
          }
          return None;
        }
        ptNode := ptNode.next.value[runes[it].rune];
      }
      assert word[..end - begin] == word;
      return ptNode.ptValue;
    }

    /** The word graph of the runes begin..end-1, one column per rune. */
    method FindDag(runes: seq<RuneStr>, begin: nat, end: nat, maxWordLen: nat) returns (res: array<Dag>)
      requires Valid() && begin <= end <= |runes|
      ensures fresh(res)
      ensures IsWordGraph(Contents(), runes[begin..end], maxWordLen, res[..])
    {
      ghost var lex, text := Contents(), RunesOf(runes[begin..end]);
      res := new Dag[end - begin](_ => Dag(RuneStr(0, 0, 0, 0, 0), [], None, 0.0));
      for i := 0 to end - begin
        invariant forall k | 0 <= k < i ::
                    res[k].runestr == runes[begin + k] && res[k].nexts == NaiveNexts(lex, text, k, maxWordLen)
      {
        var nexts := FindColumn(runes, begin, end, i, maxWordLen);
        res[i] := res[i].(runestr := runes[begin + i], nexts := nexts);
      }
    }

    /** The body of the outer loop of `FindDag`: the edges that leave position i. */
    method FindColumn(runes: seq<RuneStr>, begin: nat, end: nat, i: nat, maxWordLen: nat)
      returns (nexts: seq<Edge>)
      requires Valid() && begin <= end <= |runes| && i < end - begin
      ensures nexts == NaiveNexts(Contents(), RunesOf(runes[begin..end]), i, maxWordLen)
    {
      ghost var lex, text := Contents(), RunesOf(runes[begin..end]);
      var ptNode;
      ptNode, nexts := FirstEdge(lex, text, i, runes[begin + i].rune);
      var j := i + 1;
      while j < end - begin && j - i + 1 <= maxWordLen
        invariant i + 1 <= j <= |text| && (j == i + 1 || j <= Reach(text, i, maxWordLen))
        invariant Holds(lex) && ptNode == NodeAt(text[i..j])
        invariant nexts == ColumnUpTo(lex, text, i, j)
      {
        ptNode, nexts := TakeEdge(lex, text, i, j, runes[begin + j].rune, ptNode, nexts);
        if ptNode == null {
          DeadColumn(lex, text, i, j, maxWordLen);
          return;
        }
        j := j + 1;
      }
      ColumnDone(lex, text, i, j, maxWordLen);
    }

    /** The single rune's edge, whether or not the rune is stored. */
    method FirstEdge(ghost lex: Lexicon, ghost text: seq<Rune>, i: nat, r: Rune)
      returns (ptNode: TrieNode?, nexts: seq<Edge>)
      requires Holds(lex) && i < |text| && r == text[i]
      ensures Holds(lex) && ptNode == NodeAt(text[i..i + 1]) && nexts == ColumnUpTo(lex, text, i, i + 1)
    {
      ptNode := null;
      assert text[i..i] == [];
      StepFrom(lex, text, i, i, root);
      if root.next.Some? && r in root.next.value {
        ptNode := root.next.value[r];
      }
      nexts := if ptNode != null then [Edge(i, ptNode.ptValue)] else [Edge(i, None)];
    }

    /** The body of the inner loop: one rune further down the trie, or null where the source breaks off. */
    method TakeEdge(ghost lex: Lexicon, ghost text: seq<Rune>, ghost i: nat, j: nat, r: Rune, node: TrieNode?,
                    nexts: seq<Edge>)
      returns (ptNode: TrieNode?, nexts': seq<Edge>)
      requires Holds(lex) && i < j < |text| && r == text[j]
      requires node == NodeAt(text[i..j]) && nexts == ColumnUpTo(lex, text, i, j)
      ensures Holds(lex) && ptNode == NodeAt(text[i..j + 1])
      ensures if ptNode == null then nexts' == nexts else nexts' == ColumnUpTo(lex, text, i, j + 1)
    {
      nexts' := nexts;
      StepFrom(lex, text, i, j, node);
      if node == null || node.next == None || r !in node.next.value {
        return null, nexts;
      }
      ptNode := node.next.value[r];
      ColumnGrows(lex, text, i, j, nexts);
      if ptNode.ptValue.Some? {
        nexts' := nexts' + [Edge(j, ptNode.ptValue)];
      }
    }

    /** The node that a path of runes leads to. */
    ghost function NodeAt(p: seq<Rune>): TrieNode?
      reads this
    {
      if p in nodes then nodes[p] else null
    }

    /** One step of a walk along the text from i, and what the lookup of text[i..j + 1] finds there. */
    lemma StepFrom(lex: Lexicon, text: seq<Rune>, i: nat, j: nat, node: TrieNode?)
      requires Valid() && lex == Contents() && i <= j < |text| && node == NodeAt(text[i..j])
      ensures var next := NodeAt(text[i..j + 1]);
              if node == null || Child(node, text[j]).None? then next == null && LookupSpan(lex, text, i, j) == None
              else next == Child(node, text[j]).value && next.ptValue == LookupSpan(lex, text, i, j)
    {
      Advance(text, i, j);
    }

    /** Walking from the node of text[i..j] along text[j] is looking up text[i..j + 1]. */
    lemma Advance(text: seq<Rune>, i: nat, j: nat)
      requires Valid() && i <= j < |text|
      ensures text[i..j + 1] in nodes <==> text[i..j] in nodes && Child(nodes[text[i..j]], text[j]).Some?
      ensures text[i..j + 1] in nodes ==> Child(nodes[text[i..j]], text[j]) == Some(nodes[text[i..j + 1]])
    {
      var p, q := text[i..j], text[i..j + 1];
      assert Down(p, text[j]) == q;
      if q in nodes {
        PrefixClosed(q, j - i);
        assert q[..j - i] == p;
      }
      if p in nodes {
        Follow(p, text[j]);
      }
    }

    /** Where the walk stops the column is complete. */
    lemma DeadColumn(lex: Lexicon, text: seq<Rune>, i: nat, j: nat, maxLen: nat)
      requires Holds(lex) && i < j < |text| && j <= Reach(text, i, maxLen) && NodeAt(text[i..j + 1]) == null
      ensures ColumnUpTo(lex, text, i, j) == NaiveNexts(lex, text, i, maxLen)
    {
      DeadEnd(lex, text, i, j, Reach(text, i, maxLen));
    }

    /** Once the walk from i stops before j, no stored word starting at i reaches j. */
    lemma DeadEnd(lex: Lexicon, text: seq<Rune>, i: nat, j: nat, end: nat)
      requires Valid() && lex == Contents() && i < j <= end <= |text|
      requires j < |text| && NodeAt(text[i..j + 1]) == null
      ensures WordsFrom(lex, text, i, i + 1, j) == WordsFrom(lex, text, i, i + 1, end)
    {
      forall last | j <= last < end ensures LookupSpan(lex, text, i, last).None? {
        assert text[i..last + 1][..j + 1 - i] == text[i..j + 1];
        if text[i..last + 1] in nodes {
          PrefixClosed(text[i..last + 1], j + 1 - i);
        }
      }
      WordsFromNone(lex, text, i, j, end);
      WordsFromSplit(lex, text, i, i + 1, j, end);
    }
  }

  /** The column for position i as far as words that end before j. */
  function ColumnUpTo(lex: Lexicon, text: seq<Rune>, i: nat, j: nat): (edges: seq<Edge>)
    requires i < j <= |text|
  {
    [Edge(i, LookupSpan(lex, text, i, i))] + WordsFrom(lex, text, i, i + 1, j)
  }

  lemma ColumnDone(lex: Lexicon, text: seq<Rune>, i: nat, j: nat, maxLen: nat)
    requires i < j <= |text| && (j == i + 1 || j <= Reach(text, i, maxLen)) && (j == |text| || j - i + 1 > maxLen)
    ensures ColumnUpTo(lex, text, i, j) == NaiveNexts(lex, text, i, maxLen)
  {
  }

  lemma ColumnGrows(lex: Lexicon, text: seq<Rune>, i: nat, j: nat, nexts: seq<Edge>)
    requires i < j < |text| && nexts == ColumnUpTo(lex, text, i, j)
    ensures nexts + (if LookupSpan(lex, text, i, j).Some? then [Edge(j, LookupSpan(lex, text, i, j))] else [])
         == ColumnUpTo(lex, text, i, j + 1)
  {
    WordsFromSnoc(lex, text, i, i + 1, j);
  }

  /** Last write wins; the empty key is ignored. */
  function InsertAll(lex: Lexicon, keys: seq<seq<Rune>>, units: seq<DictUnit>): Lexicon
    requires |keys| == |units|
  {
    if keys == [] then lex
    else
      var k := |keys| - 1;
      var before := InsertAll(lex, keys[..k], units[..k]);
      if keys[k] == [] then before else before[keys[k] := units[k]]
  }

  lemma {:induction false} WordsFromSplit(lex: Lexicon, text: seq<Rune>, i: nat, from: int, mid: int, end: int)
    requires i <= from <= mid <= end <= |text|
    ensures WordsFrom(lex, text, i, from, end)
         == WordsFrom(lex, text, i, from, mid) + WordsFrom(lex, text, i, mid, end)
    decreases mid - from
  {
    if from < mid {
      WordsFromSplit(lex, text, i, from + 1, mid, end);
      var head := if LookupSpan(lex, text, i, from).Some? then [Edge(from, LookupSpan(lex, text, i, from))] else [];
      Regroup(head, WordsFrom(lex, text, i, from + 1, mid), WordsFrom(lex, text, i, mid, end));
    }
  }

  /** A trie built from an empty one finds every key with the last entry given for it, and nothing else. */
  lemma {:induction false} InsertAllMeaning(keys: seq<seq<Rune>>, units: seq<DictUnit>, word: seq<Rune>)
    requires |keys| == |units|
    ensures var found := Lookup(InsertAll(map[], keys, units), word);
            if word != [] && word in keys
            then exists k :: 0 <= k < |keys| && keys[k] == word && found == Some(units[k])
                             && forall later | k < later < |keys| :: keys[later] != word
            else found == None
    decreases |keys|
  {
    if keys != [] {
      var k := |keys| - 1;
      InsertAllMeaning(keys[..k], units[..k], word);
      if word != [] && word in keys {
        if keys[k] != word {
          assert word in keys[..k];
          var j :| 0 <= j < k && keys[..k][j] == word && Lookup(InsertAll(map[], keys[..k], units[..k]), word) == Some(units[..k][j])
                   && forall later | j < later < k :: keys[..k][later] != word;
          assert keys[j] == word;
          forall later | j < later < |keys| ensures keys[later] != word {
            assert later < k ==> keys[..k][later] == keys[later];
          }
        }
      }
    }
  }

  /** Every entry sits at its own word: what `DictTrie` feeds to the trie. */
  ghost predicate SelfNamed(lex: Lexicon)
  {
    forall w | w in lex :: w != [] && lex[w].word == w
  }

  lemma {:induction false} InsertAllSelfNamed(lex: Lexicon, keys: seq<seq<Rune>>, units: seq<DictUnit>)
    requires |keys| == |units| && SelfNamed(lex)
    requires forall k | 0 <= k < |keys| :: units[k].word == keys[k]
    ensures SelfNamed(InsertAll(lex, keys, units))
    decreases |keys|
  {
    if keys != [] {
      InsertAllSelfNamed(lex, keys[..|keys| - 1], units[..|keys| - 1]);
    }
  }

  /** `DictTrie::CreateTrie`: the keys are the words of the entries themselves. */
  method CreateDictTrie(dictUnits: seq<DictUnit>) returns (trie: Trie)
    requires dictUnits != []
    ensures fresh(trie) && fresh(trie.nodes.Values) && trie.Valid() && SelfNamed(trie.Contents())
    ensures trie.Contents() == InsertAll(map[], seq(|dictUnits|, i requires 0 <= i < |dictUnits| => dictUnits[i].word), dictUnits)
  {
    var words: seq<seq<Rune>> := [];
    for i := 0 to |dictUnits|
      invariant words == seq(i, k requires 0 <= k < i => dictUnits[k].word)
    {
      words := words + [dictUnits[i].word];
    }
    trie := new Trie.Empty();
    trie.CreateTrie(words, dictUnits);
    InsertAllSelfNamed(map[], words, dictUnits);
  }
}
