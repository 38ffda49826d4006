/**
  The edit distance behind fuzzy search: the table the server fills equals the length of a
  shortest script of single-byte edits, and is therefore a metric.
 */
module EditDistance {
  import opened Options
  import opened Unicode

  type Str = seq<byte>

  // ----- the reference: scripts of single edits

  datatype Step = Insert(at: nat, c: byte) | Delete(at: nat) | Substitute(at: nat, c: byte)

  function Apply(s: Str, step: Step): (r: Option<Str>)
  {
    match step
    case Insert(i, c) => if i <= |s| then Some(s[..i] + [c] + s[i..]) else None
    case Delete(i) => if i < |s| then Some(s[..i] + s[i + 1..]) else None
    case Substitute(i, c) => if i < |s| then Some(s[i := c]) else None
  }

  function Run(s: Str, script: seq<Step>): (r: Option<Str>)
  {
    if script == [] then Some(s)
    else
      var before := Run(s, script[..|script| - 1]);
      if before.None? then None else Apply(before.value, script[|script| - 1])
  }

  ghost predicate Turns(a: Str, script: seq<Step>, b: Str) { Run(a, script) == Some(b) }

  // ----- the recurrence the table follows

  /** `Min(a, b, c)` as the source writes it. */
  function Min(a: int, b: int, c: int): (r: int)
  {
    if (if a < b then a else b) < c then (if a < b then a else b) else c
  }

  function Init(s: Str): Str
    requires s != []
  {
    s[..|s| - 1]
  }

  function Last(s: Str): byte
    requires s != []
  {
    s[|s| - 1]
  }

  function Cost(x: byte, y: byte): int { if x == y then 0 else 1 }

  function Dist(a: Str, b: Str): (d: nat)
    decreases |a| + |b|
  {
    if a == [] then |b|
    else if b == [] then |a|
    else Min(Dist(Init(a), b) + 1, Dist(a, Init(b)) + 1, Dist(Init(a), Init(b)) + Cost(Last(a), Last(b)))
  }

  method MinEdit(word1: Str, word2: Str) returns (dis: int)
    ensures dis == Dist(word1, word2)
  {
    var max1 := |word1|;
    var max2 := |word2|;
    var ptr := new int[max1 + 1, max2 + 1];
    for i := 0 to max1 + 1
      invariant forall k | 0 <= k < i :: ptr[k, 0] == k
    {
      ptr[i, 0] := i;
    }
    for i := 0 to max2 + 1
      invariant forall k | 0 <= k < max1 + 1 :: ptr[k, 0] == k
      invariant forall k | 0 <= k < i :: ptr[0, k] == k
    {
      ptr[0, i] := i;
    }
    for i := 1 to max1 + 1
      invariant Filled(ptr, word1, word2, i, 1)
    {
      for j := 1 to max2 + 1
        invariant Filled(ptr, word1, word2, i, j)
      {
        FillCell(ptr, word1, word2, i, j);
      }
    }
    dis := ptr[max1, max2];
    assert word1[..max1] == word1 && word2[..max2] == word2;
  }

  /** The distance of two prefixes, by their lengths. */
  ghost function DistAt(a: Str, b: Str, i: nat, j: nat): int
    requires i <= |a| && j <= |b|
  {
    Dist(a[..i], b[..j])
  }

  /** The borders, the rows before i and the cells of row i before j hold the distances of prefixes. */
  ghost predicate Filled(ptr: array2<int>, word1: Str, word2: Str, i: nat, j: nat)
    reads ptr
  {
    && ptr.Length0 == |word1| + 1 && ptr.Length1 == |word2| + 1
    && forall m, k {:trigger ptr[m, k]} |
         0 <= m <= |word1| && 0 <= k <= |word2| && (m == 0 || k == 0 || m < i || (m == i && k < j)) ::
           ptr[m, k] == DistAt(word1, word2, m, k)
  }

  /** The body of the inner loop. */
  method FillCell(ptr: array2<int>, word1: Str, word2: Str, i: nat, j: nat)
    requires Filled(ptr, word1, word2, i, j) && 1 <= i <= |word1| && 1 <= j <= |word2|
    modifies ptr
    ensures Filled(ptr, word1, word2, i, j + 1)
  {
    DistOfPrefixes(word1, word2, i, j);
    ptr[i, j] := Min(ptr[i - 1, j] + 1, ptr[i, j - 1] + 1,
                     ptr[i - 1, j - 1] + (if word1[i - 1] == word2[j - 1] then 0 else 1));
  }

  lemma DistOfPrefixes(a: Str, b: Str, i: nat, j: nat)
    requires 1 <= i <= |a| && 1 <= j <= |b|
    ensures DistAt(a, b, i, j)
         == Min(DistAt(a, b, i - 1, j) + 1, DistAt(a, b, i, j - 1) + 1,
                DistAt(a, b, i - 1, j - 1) + Cost(a[i - 1], b[j - 1]))
  {
    assert Init(a[..i]) == a[..i - 1] && Init(b[..j]) == b[..j - 1];
  }

  // ----- no script is shorter

  lemma {:induction false} DropLast(a: Str, b: Str)
    requires b != []
    ensures Dist(a, Init(b)) <= Dist(a, b) + 1
    decreases |a|
  {
    if a != [] {
      DropLast(Init(a), b);
    }
  }

  lemma {:induction false} ChangeLast(a: Str, b: Str, c: Str)
    requires b != [] && c != [] && Init(b) == Init(c)
    ensures Dist(a, c) <= Dist(a, b) + 1
    decreases |a|
  {
    if a != [] {
      ChangeLast(Init(a), b, c);
    }
  }

  /** An edit before the last byte is an edit of what comes before it. */
  lemma ApplyToInit(s: Str, step: Step)
    requires s != [] && step.at < |s| && (step.Insert? || step.at < |s| - 1)
    ensures Apply(s, step).Some? && Apply(Init(s), step).Some?
    ensures var t := Apply(s, step).value;
            t != [] && Init(t) == Apply(Init(s), step).value && Last(t) == Last(s)
  {
  }

  /** One more edit moves the target at most one further away. */
  lemma {:induction false} OneEdit(a: Str, s: Str, step: Step)
    requires Apply(s, step).Some?
    ensures Dist(a, Apply(s, step).value) <= Dist(a, s) + 1
    decreases |a| + |s|
  {
    var t := Apply(s, step).value;
    if s == [] || (step.Insert? && step.at == |s|) {
      assert Init(t) == s;
    } else if step.Delete? && step.at == |s| - 1 {
      assert t == Init(s);
      DropLast(a, s);
    } else if step.Substitute? && step.at == |s| - 1 {
      assert Init(t) == Init(s);
      ChangeLast(a, s, t);
    } else {
      ApplyToInit(s, step);
      if a != [] {
        OneEdit(Init(a), s, step);
        OneEdit(a, Init(s), step);
        OneEdit(Init(a), Init(s), step);
      }
    }
  }

  lemma {:induction false} DistToSelf(a: Str)
    ensures Dist(a, a) == 0
  {
    if a != [] {
      DistToSelf(Init(a));
    }
  }

  lemma {:induction false} NoShorterScript(a: Str, b: Str, script: seq<Step>)
    requires Turns(a, script, b)
    ensures Dist(a, b) <= |script|
    decreases |script|
  {
    if script == [] {
      DistToSelf(a);
    } else {
      var before := Run(a, script[..|script| - 1]).value;
      NoShorterScript(a, before, script[..|script| - 1]);
      OneEdit(a, before, script[|script| - 1]);
    }
  }

  // ----- some script is that short

  lemma {:induction false} RunJoin(a: Str, first: seq<Step>, second: seq<Step>)
    requires Run(a, first).Some?
    ensures Run(a, first + second) == Run(Run(a, first).value, second)
    decreases |second|
  {
    if second == [] {
      assert first + second == first;
    } else {
      var n := |second| - 1;
      assert (first + second)[..|first| + n] == first + second[..n];
      RunJoin(a, first, second[..n]);
    }
  }

  /** A script leaves a byte behind the edited text alone. */
  lemma {:induction false} RunBefore(p: Str, script: seq<Step>, x: byte)
    requires Run(p, script).Some?
    ensures Run(p + [x], script) == Some(Run(p, script).value + [x])
    decreases |script|
  {
    if script != [] {
      var n := |script| - 1;
      RunBefore(p, script[..n], x);
      var q := Run(p, script[..n]).value;
      ApplyBefore(q, script[n], x);
    }
  }

  lemma ApplyBefore(q: Str, step: Step, x: byte)
    requires Apply(q, step).Some?
    ensures Apply(q + [x], step) == Some(Apply(q, step).value + [x])
  {
    var i := step.at;
    assert (q + [x])[..i] == q[..i];
    match step {
      case Insert(_, c) =>
        assert (q + [x])[i..] == q[i..] + [x];
        assert q[..i] + [c] + (q[i..] + [x]) == (q[..i] + [c] + q[i..]) + [x];
      case Delete(_) =>
        assert (q + [x])[i + 1..] == q[i + 1..] + [x];
        assert q[..i] + (q[i + 1..] + [x]) == (q[..i] + q[i + 1..]) + [x];
      case Substitute(_, c) =>
        assert (q + [x])[i := c] == q[i := c] + [x];
    }
  }

  lemma AppendInsert(a: Str, b: Str, s: seq<Step>)
    requires b != [] && Turns(a, s, Init(b))
    ensures Turns(a, s + [Insert(|b| - 1, Last(b))], b)
  {
    var insert := Insert(|b| - 1, Last(b));
    RunJoin(a, s, [insert]);
    OneStep(Init(b), insert);
    assert Init(b)[..|b| - 1] + [Last(b)] + Init(b)[|b| - 1..] == b;
  }

  lemma PrependDelete(a: Str, b: Str, s: seq<Step>)
    requires a != [] && Turns(Init(a), s, b)
    ensures Turns(a, [Delete(|a| - 1)] + s, b)
  {
    var delete := Delete(|a| - 1);
    OneStep(a, delete);
    assert a[..|a| - 1] + a[|a| - 1 + 1..] == Init(a);
    RunJoin(a, [delete], s);
  }

  lemma KeepLast(a: Str, b: Str, s: seq<Step>)
    requires a != [] && b != [] && Turns(Init(a), s, Init(b))
    ensures Last(a) == Last(b) ==> Turns(a, s, b)
    ensures Turns(a, s + [Substitute(|b| - 1, Last(b))], b)
  {
    RunBefore(Init(a), s, Last(a));
    assert Init(a) + [Last(a)] == a && Init(b) + [Last(b)] == b;
    var change := Substitute(|b| - 1, Last(b));
    var before := Init(b) + [Last(a)];
    RunJoin(a, s, [change]);
    OneStep(before, change);
    assert before[|b| - 1 := Last(b)] == b;
  }

  lemma {:induction false} ShortestScript(a: Str, b: Str) returns (script: seq<Step>)
    ensures Turns(a, script, b) && |script| == Dist(a, b)
    decreases |a| + |b|
  {
    if a == [] && b == [] {
      script := [];
    } else if b != [] && (a == [] || Dist(a, b) == Dist(a, Init(b)) + 1) {
      var s := ShortestScript(a, Init(b));
      AppendInsert(a, b, s);
      script := s + [Insert(|b| - 1, Last(b))];
    } else if a != [] && (b == [] || Dist(a, b) == Dist(Init(a), b) + 1) {
      var s := ShortestScript(Init(a), b);
      PrependDelete(a, b, s);
      script := [Delete(|a| - 1)] + s;
    } else {
      var s := ShortestScript(Init(a), Init(b));
      KeepLast(a, b, s);
      script := if Last(a) == Last(b) then s else s + [Substitute(|b| - 1, Last(b))];
    }
  }

  lemma OneStep(s: Str, step: Step)
    ensures Run(s, [step]) == Apply(s, step)
  {
    assert [step][..0] == [];
  }

  /** The table value is the length of a shortest edit script. */
  lemma DistIsShortest(a: Str, b: Str)
    ensures exists script :: Turns(a, script, b) && |script| == Dist(a, b)
    ensures forall script | Turns(a, script, b) :: Dist(a, b) <= |script|
  {
    var s := ShortestScript(a, b);
    assert Turns(a, s, b);
    forall script | Turns(a, script, b) ensures Dist(a, b) <= |script| {
      NoShorterScript(a, b, script);
    }
  }

  // ----- a metric

  lemma {:induction false} ZeroIffEqual(a: Str, b: Str)
    ensures Dist(a, b) == 0 <==> a == b
  {
    DistToSelf(a);
    if Dist(a, b) == 0 {
      var s := ShortestScript(a, b);
      assert s == [];
    }
  }

  lemma {:induction false} Symmetric(a: Str, b: Str)
    ensures Dist(a, b) == Dist(b, a)
    decreases |a| + |b|
  {
    if a != [] && b != [] {
      Symmetric(Init(a), b);
      Symmetric(a, Init(b));
      Symmetric(Init(a), Init(b));
    }
  }

  lemma {:induction false} Triangle(a: Str, b: Str, c: Str)
    ensures Dist(a, c) <= Dist(a, b) + Dist(b, c)
  {
    var s := ShortestScript(a, b);
    var t := ShortestScript(b, c);
    RunJoin(a, s, t);
    NoShorterScript(a, c, s + t);
  }

  function Longer(a: Str, b: Str): nat { if |a| < |b| then |b| else |a| }

  lemma {:induction false} Bounds(a: Str, b: Str)
    ensures |a| - |b| <= Dist(a, b) && |b| - |a| <= Dist(a, b)
    ensures Dist(a, b) <= Longer(a, b)
    decreases |a| + |b|
  {
    if a != [] && b != [] {
      Bounds(Init(a), b);
      Bounds(a, Init(b));
      Bounds(Init(a), Init(b));
    }
  }

  ghost predicate ShareNoByte(a: Str, b: Str) { forall x :: !(x in a && x in b) }

  /** Strings without a common byte are as far apart as they can be. */
  lemma {:induction false} DisjointIsLonger(a: Str, b: Str)
    requires ShareNoByte(a, b)
    ensures Dist(a, b) == Longer(a, b)
    decreases |a| + |b|
  {
    if a != [] && b != [] {
      DisjointIsLonger(Init(a), b);
      DisjointIsLonger(a, Init(b));
      DisjointIsLonger(Init(a), Init(b));
      assert Last(a) in a && Last(b) in b;
    }
  }
}
