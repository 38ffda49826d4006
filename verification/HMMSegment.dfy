/**
  The hidden-Markov segmenter: a Viterbi table over four states, read back into a state sequence,
  words that end at the E and S states, and the letter and number rules for ASCII text.
 */
module HMMSegment {
  import opened Unicode
  import opened MPSegment

  /** The states, in the order of the model: B is 0, E is 1, M is 2, S is 3. */
  const E: nat := 1
  const S: nat := 3
  const STATUS_SUM: nat := 4

  type State = y: nat | y < STATUS_SUM

  datatype HMMModel = HMMModel(startProb: seq<real>, transProb: seq<seq<real>>, emitProb: seq<map<Rune, real>>) {
    ghost predicate Valid() {
      && |startProb| == STATUS_SUM && |transProb| == STATUS_SUM && |emitProb| == STATUS_SUM
      && forall y: nat | y < STATUS_SUM :: |transProb[y]| == STATUS_SUM
    }

    /** Unknown runes weigh MIN_DOUBLE. */
    function Emit(y: State, rune: Rune): real
      requires Valid()
    {
      if rune in emitProb[y] then emitProb[y][rune] else MIN_DOUBLE
    }

    function Start(y: State, rune: Rune): real
      requires Valid()
    {
      startProb[y] + Emit(y, rune)
    }

    function Move(pre: State, y: State, rune: Rune): real
      requires Valid()
    {
      transProb[pre][y] + Emit(y, rune)
    }
  }

  // ----- what a state sequence is worth

  /** The running score of a state sequence over as many runes, floored at every step but the first. */
  function PathScore(model: HMMModel, text: seq<Rune>, st: seq<State>): real
    requires model.Valid() && 1 <= |st| <= |text|
  {
    var x := |st| - 1;
    if x == 0 then model.Start(st[0], text[0])
    else Max(MIN_DOUBLE, PathScore(model, text, st[..x]) + model.Move(st[x - 1], st[x], text[x]))
  }

  predicate EndsWord(y: State) { y == E || y == S }

  /** A best state sequence among those that end a word. */
  ghost predicate OptimalStates(model: HMMModel, text: seq<Rune>, st: seq<State>)
    requires model.Valid()
  {
    && 1 <= |st| == |text| && EndsWord(st[|st| - 1])
    && forall other: seq<State> | |other| == |text| && EndsWord(other[|other| - 1]) ::
         PathScore(model, text, other) <= PathScore(model, text, st)
  }

  // ----- the table

  /** Where the cell of rune x and state y lies in the flattened table. */
  function Index(X: nat, x: nat, y: State): (i: nat)
    requires x < X
    ensures i < 4 * X
  {
    x + (if y == 0 then 0 else if y == 1 then X else if y == 2 then 2 * X else 3 * X)
  }

  lemma IndexIsFlat(X: nat, x: nat, y: State)
    requires x < X
    ensures Index(X, x, y) == x + y * X
  {
  }

  /** A table entry is the floored best over the first n predecessors and the first that attains it, or E. */
  ghost predicate BestCell(model: HMMModel, text: seq<Rune>, w: seq<real>, path: seq<int>, x: nat, y: State, n: nat)
    requires model.Valid() && 0 < x < |text| && |w| == |path| == 4 * |text| && n <= STATUS_SUM
  {
    var X := |text|;
    var now := Index(X, x, y);
    && w[now] >= MIN_DOUBLE
    && (forall pre: State | pre < n :: w[Index(X, x - 1, pre)] + model.Move(pre, y, text[x]) <= w[now])
    && 0 <= path[now] < STATUS_SUM
    && (|| (w[now] == MIN_DOUBLE && path[now] == E)
        || (&& path[now] < n && MIN_DOUBLE < w[now]
            && w[Index(X, x - 1, path[now])] + model.Move(path[now], y, text[x]) == w[now]
            && forall pre: State | pre < path[now] :: w[Index(X, x - 1, pre)] + model.Move(pre, y, text[x]) < w[now]))
  }

  ghost predicate CellDone(model: HMMModel, text: seq<Rune>, w: seq<real>, path: seq<int>, x: nat, y: State)
    requires model.Valid() && x < |text| && |w| == |path| == 4 * |text|
  {
    if x == 0 then w[Index(|text|, 0, y)] == model.Start(y, text[0])
    else BestCell(model, text, w, path, x, y, STATUS_SUM)
  }

  /** Columns before x are complete, and in column x the states below n. */
  ghost predicate TableDone(model: HMMModel, text: seq<Rune>, w: seq<real>, path: seq<int>, x: nat, n: nat)
  {
    && model.Valid() && |w| == |path| == 4 * |text| && x <= |text|
    && forall x': nat, y: State {:trigger CellDone(model, text, w, path, x', y)} |
         x' < |text| && (x' < x || (x' == x && y < n)) :: CellDone(model, text, w, path, x', y)
  }

  /** Writing one cell of a column leaves all cells of earlier columns and its neighbours as they were. */
  lemma CellKept(model: HMMModel, text: seq<Rune>, w: seq<real>, path: seq<int>, w': seq<real>, path': seq<int>,
                 x: nat, y: State)
    requires TableDone(model, text, w, path, x, y) && x < |text|
    requires |w'| == |w| && |path'| == |path|
    requires w' == w[Index(|text|, x, y) := w'[Index(|text|, x, y)]]
    requires path' == path[Index(|text|, x, y) := path'[Index(|text|, x, y)]]
    ensures TableDone(model, text, w', path', x, y)
  {
    forall x': nat, z: State {:trigger CellDone(model, text, w', path', x', z)} |
      x' < |text| && (x' < x || (x' == x && z < y))
      ensures CellDone(model, text, w', path', x', z)
    {
      assert CellDone(model, text, w, path, x', z);
      assert Index(|text|, x', z) != Index(|text|, x, y);
    }
  }

  lemma TableGrows(model: HMMModel, text: seq<Rune>, w: seq<real>, path: seq<int>, x: nat, y: State)
    requires TableDone(model, text, w, path, x, y) && x < |text| && CellDone(model, text, w, path, x, y)
    ensures TableDone(model, text, w, path, x, y + 1)
  {
  }

  lemma ColumnFinished(model: HMMModel, text: seq<Rune>, w: seq<real>, path: seq<int>, x: nat)
    requires TableDone(model, text, w, path, x, STATUS_SUM) && x < |text|
    ensures TableDone(model, text, w, path, x + 1, 0)
  {
  }

  // ----- the table bounds every path, and walking it back attains the bound

  lemma {:induction false} PathWithinTable(model: HMMModel, text: seq<Rune>, w: seq<real>, path: seq<int>,
                          st: seq<State>)
    requires TableDone(model, text, w, path, |text|, 0) && 1 <= |st| <= |text|
    ensures PathScore(model, text, st) <= w[Index(|text|, |st| - 1, st[|st| - 1])]
    decreases |st|
  {
    var x := |st| - 1;
    assert CellDone(model, text, w, path, x, st[x]);
    if x > 0 {
      PathWithinTable(model, text, w, path, st[..x]);
    }
  }

  /** Every state but the first was reached from the back-pointer of the next. */
  ghost predicate WalkedBack(text: seq<Rune>, path: seq<int>, st: seq<State>)
  {
    && 1 <= |st| <= |text| && |path| == 4 * |text|
    && forall x | 1 <= x < |st| :: st[x - 1] == path[Index(|text|, x, st[x])]
  }

  lemma {:induction false} WalkAttains(model: HMMModel, text: seq<Rune>, w: seq<real>, path: seq<int>, st: seq<State>)
    requires TableDone(model, text, w, path, |text|, 0) && WalkedBack(text, path, st)
    ensures PathScore(model, text, st) == w[Index(|text|, |st| - 1, st[|st| - 1])]
    decreases |st|
  {
    var x := |st| - 1;
    assert CellDone(model, text, w, path, x, st[x]);
    if x > 0 {
      assert st[x - 1] == path[Index(|text|, x, st[x])];
      WalkAttains(model, text, w, path, st[..x]);
      assert w[Index(|text|, x - 1, st[x - 1])] + model.Move(st[x - 1], st[x], text[x]) <= w[Index(|text|, x, st[x])];
    }
  }

  lemma WalkIsOptimal(model: HMMModel, text: seq<Rune>, w: seq<real>, path: seq<int>, st: seq<State>)
    requires TableDone(model, text, w, path, |text|, 0) && WalkedBack(text, path, st) && |st| == |text|
    requires st[|st| - 1] == if w[Index(|text|, |text| - 1, E)] >= w[Index(|text|, |text| - 1, S)] then E else S
    ensures OptimalStates(model, text, st)
  {
    WalkAttains(model, text, w, path, st);
    forall other: seq<State> | |other| == |text| && EndsWord(other[|other| - 1])
      ensures PathScore(model, text, other) <= PathScore(model, text, st)
    {
      PathWithinTable(model, text, w, path, other);
    }
  }

  // ----- ties

  /** Every running score after the first is above the floor. */
  ghost predicate StrictlyAbove(model: HMMModel, text: seq<Rune>, st: seq<State>)
    requires model.Valid() && 1 <= |st| <= |text|
  {
    |st| > 1 ==> StrictlyAbove(model, text, st[..|st| - 1]) && PathScore(model, text, st) > MIN_DOUBLE
  }

  /** Where a and b differ last, a has the smaller state. */
  ghost predicate SmallerFromBehind(a: seq<State>, b: seq<State>)
  {
    |a| == |b| && exists x :: 0 <= x < |a| && a[x] < b[x] && a[x + 1..] == b[x + 1..]
  }

  lemma SmallerAtEnd(a: seq<State>, b: seq<State>)
    requires |a| == |b| > 0 && a[|a| - 1] < b[|b| - 1]
    ensures SmallerFromBehind(a, b)
  {
    var x := |a| - 1;
    assert a[x + 1..] == b[x + 1..];
  }

  lemma SmallerExtends(a: seq<State>, b: seq<State>, y: State)
    requires SmallerFromBehind(a, b)
    ensures SmallerFromBehind(a + [y], b + [y])
  {
    var x :| 0 <= x < |a| && a[x] < b[x] && a[x + 1..] == b[x + 1..];
    var p, q := a + [y], b + [y];
    assert p[x + 1..] == a[x + 1..] + [y] && q[x + 1..] == b[x + 1..] + [y];
    assert p[x] < q[x];
  }

  /** A sequence that attains a cell above the floor attains the cell before, at no smaller state than the pointer. */
  lemma AttainsBefore(model: HMMModel, text: seq<Rune>, w: seq<real>, path: seq<int>, other: seq<State>)
    requires TableDone(model, text, w, path, |text|, 0) && 1 < |other| <= |text|
    requires MIN_DOUBLE < PathScore(model, text, other) == w[Index(|text|, |other| - 1, other[|other| - 1])]
    ensures var x := |other| - 1;
            && PathScore(model, text, other[..x]) == w[Index(|text|, x - 1, other[x - 1])]
            && path[Index(|text|, x, other[x])] <= other[x - 1]
  {
    var x := |other| - 1;
    assert CellDone(model, text, w, path, x, other[x]);
    PathWithinTable(model, text, w, path, other[..x]);
    assert w[Index(|text|, x - 1, other[x - 1])] + model.Move(other[x - 1], other[x], text[x])
        <= w[Index(|text|, x, other[x])];
  }

  lemma DifferBefore(a: seq<State>, b: seq<State>)
    requires |a| == |b| > 0 && a != b && a[|a| - 1] == b[|b| - 1]
    ensures |a| > 1 && a[..|a| - 1] != b[..|b| - 1]
    ensures a == a[..|a| - 1] + [a[|a| - 1]] && b == b[..|b| - 1] + [b[|b| - 1]]
  {
  }

  /** Of two sequences that attain the cell of their common last state, the one read back is the smaller. */
  lemma {:induction false} ReadBackIsFirst(model: HMMModel, text: seq<Rune>, w: seq<real>, path: seq<int>,
                                           st: seq<State>, other: seq<State>)
    requires TableDone(model, text, w, path, |text|, 0) && WalkedBack(text, path, st)
    requires |other| == |st| && other != st && other[|st| - 1] == st[|st| - 1] && StrictlyAbove(model, text, other)
    requires PathScore(model, text, other) == w[Index(|text|, |st| - 1, st[|st| - 1])]
    ensures SmallerFromBehind(st, other)
    decreases |st|
  {
    var x := |st| - 1;
    var a, b := st[..x], other[..x];
    DifferBefore(st, other);
    AttainsBefore(model, text, w, path, other);
    if other[x - 1] == st[x - 1] {
      ReadBackIsFirst(model, text, w, path, a, b);
    } else {
      SmallerAtEnd(a, b);
    }
    SmallerExtends(a, b, st[x]);
  }

  /** Among equally good sequences above the floor, the one with the smaller states from the last rune backwards. */
  ghost predicate FirstOfTies(model: HMMModel, text: seq<Rune>, st: seq<State>)
    requires model.Valid() && text != []
  {
    forall other | OptimalStates(model, text, other) && StrictlyAbove(model, text, other) && other != st ::
      SmallerFromBehind(st, other)
  }

  lemma TiesAreBroken(model: HMMModel, text: seq<Rune>, w: seq<real>, path: seq<int>, st: seq<State>)
    requires TableDone(model, text, w, path, |text|, 0) && WalkedBack(text, path, st) && |st| == |text|
    requires st[|st| - 1] == if w[Index(|text|, |text| - 1, E)] >= w[Index(|text|, |text| - 1, S)] then E else S
    ensures FirstOfTies(model, text, st)
  {
    forall other | OptimalStates(model, text, other) && StrictlyAbove(model, text, other) && other != st
      ensures SmallerFromBehind(st, other)
    {
      TieIsBroken(model, text, w, path, st, other);
    }
  }

  lemma TieIsBroken(model: HMMModel, text: seq<Rune>, w: seq<real>, path: seq<int>, st: seq<State>, other: seq<State>)
    requires TableDone(model, text, w, path, |text|, 0) && WalkedBack(text, path, st) && |st| == |text|
    requires st[|st| - 1] == if w[Index(|text|, |text| - 1, E)] >= w[Index(|text|, |text| - 1, S)] then E else S
    requires OptimalStates(model, text, other) && StrictlyAbove(model, text, other) && other != st
    ensures SmallerFromBehind(st, other)
  {
    var x := |st| - 1;
    WalkIsOptimal(model, text, w, path, st);
    WalkAttains(model, text, w, path, st);
    PathWithinTable(model, text, w, path, other);
    if other[x] == st[x] {
      ReadBackIsFirst(model, text, w, path, st, other);
    } else {
      SmallerAtEnd(st, other);
    }
  }

  // ----- the floor

  /** The plain sum of a state sequence, without the floor. */
  function PlainScore(model: HMMModel, text: seq<Rune>, st: seq<State>): real
    requires model.Valid() && 1 <= |st| <= |text|
  {
    var x := |st| - 1;
    if x == 0 then model.Start(st[0], text[0])
    else PlainScore(model, text, st[..x]) + model.Move(st[x - 1], st[x], text[x])
  }

  /** The transition weights between neighbouring states, from each state to the next. */
  function Transitions(transProb: seq<seq<real>>, st: seq<State>): real
    requires |transProb| == 4 && forall y: nat | y < 4 :: |transProb[y]| == 4
  {
    var n := |st|;
    if n < 2 then 0.0 else Transitions(transProb, st[..n - 1]) + transProb[st[n - 2]][st[n - 1]]
  }

  /** For each rune the weight its state's table gives it, or -3.14e+100 where the table has no entry. */
  function Emissions(emitProb: seq<map<Rune, real>>, text: seq<Rune>, st: seq<State>): real
    requires |emitProb| == 4 && |st| <= |text|
  {
    if st == [] then 0.0
    else
      var x := |st| - 1;
      Emissions(emitProb, text, st[..x]) + if text[x] in emitProb[st[x]] then emitProb[st[x]][text[x]] else MIN_DOUBLE
  }

  /** The plain sum: the first state's start weight, all transitions and all emissions. */
  lemma {:induction false} PlainScoreMeaning(model: HMMModel, text: seq<Rune>, st: seq<State>)
    requires model.Valid() && 1 <= |st| <= |text|
    ensures PlainScore(model, text, st)
         == model.startProb[st[0]] + Transitions(model.transProb, st) + Emissions(model.emitProb, text, st)
    decreases |st|
  {
    var x := |st| - 1;
    if x > 0 {
      PlainScoreMeaning(model, text, st[..x]);
    } else {
      assert st[..0] == [];
    }
  }

  /** Flooring never lowers a score. */
  lemma {:induction false} ScoreAtLeastPlain(model: HMMModel, text: seq<Rune>, st: seq<State>)
    requires model.Valid() && 1 <= |st| <= |text|
    ensures PlainScore(model, text, st) <= PathScore(model, text, st)
    decreases |st|
  {
    if |st| > 1 {
      ScoreAtLeastPlain(model, text, st[..|st| - 1]);
    }
  }

  /** No running sum of the sequence after the first falls below the floor. */
  ghost predicate AboveFloor(model: HMMModel, text: seq<Rune>, st: seq<State>)
    requires model.Valid() && 1 <= |st| <= |text|
  {
    |st| > 1 ==> AboveFloor(model, text, st[..|st| - 1]) && PlainScore(model, text, st) >= MIN_DOUBLE
  }

  /** The floored score of a sequence is its plain sum exactly when no running sum falls below the floor. */
  lemma {:induction false} PlainIff(model: HMMModel, text: seq<Rune>, st: seq<State>)
    requires model.Valid() && 1 <= |st| <= |text|
    ensures PathScore(model, text, st) == PlainScore(model, text, st) <==> AboveFloor(model, text, st)
    decreases |st|
  {
    if |st| > 1 {
      var x := |st| - 1;
      PlainIff(model, text, st[..x]);
      ScoreAtLeastPlain(model, text, st[..x]);
    }
  }

  /** An optimal sequence that stays above the floor has the greatest plain sum. */
  lemma PlainOptimum(model: HMMModel, text: seq<Rune>, st: seq<State>, other: seq<State>)
    requires model.Valid() && OptimalStates(model, text, st) && AboveFloor(model, text, st)
    requires |other| == |text| && EndsWord(other[|other| - 1])
    ensures PlainScore(model, text, other) <= PlainScore(model, text, st)
  {
    PlainIff(model, text, st);
    ScoreAtLeastPlain(model, text, other);
  }

  /** No weight that a sequence over this text can meet is below -bound. */
  ghost predicate Bounded(model: HMMModel, text: seq<Rune>, bound: real)
    requires model.Valid()
  {
    && (forall y: State :: model.startProb[y] >= -bound)
    && (forall y: State, z: State :: model.transProb[y][z] >= -bound)
    && (forall y: State, i | 0 <= i < |text| :: model.Emit(y, text[i]) >= -bound)
  }

  /** When the weights cannot add up to the floor, every sequence stays above it. */
  lemma {:induction false} BoundedAbove(model: HMMModel, text: seq<Rune>, st: seq<State>, bound: real)
    requires model.Valid() && 1 <= |st| <= |text| && bound >= 0.0
    requires Bounded(model, text, bound) && Times(2 * |text|, bound) <= -MIN_DOUBLE
    ensures AboveFloor(model, text, st)
    decreases |st|
  {
    if |st| > 1 {
      BoundedAbove(model, text, st[..|st| - 1], bound);
      PlainAtLeast(model, text, st, bound);
      TimesGrows(2 * |st|, 2 * |text|, bound);
    }
  }

  lemma {:induction false} PlainAtLeast(model: HMMModel, text: seq<Rune>, st: seq<State>, bound: real)
    requires model.Valid() && 1 <= |st| <= |text| && bound >= 0.0 && Bounded(model, text, bound)
    ensures PlainScore(model, text, st) >= -Times(2 * |st|, bound)
    decreases |st|
  {
    var x := |st| - 1;
    assert model.Emit(st[x], text[x]) >= -bound;
    assert Times(2 * |st|, bound) == Times(2 * x, bound) + bound + bound;
    if x > 0 {
      PlainAtLeast(model, text, st[..x], bound);
      assert model.transProb[st[x - 1]][st[x]] >= -bound;
    }
  }

  /** In texts of fewer than 2^31 runes and with no weight below minus ten to the ninetieth that is so. */
  lemma AboveInPractice(model: HMMModel, text: seq<Rune>, st: seq<State>)
    requires model.Valid() && 1 <= |st| <= |text| < 0x8000_0000 && Bounded(model, text, TenTo(90) as real)
    ensures PathScore(model, text, st)
         == model.startProb[st[0]] + Transitions(model.transProb, st) + Emissions(model.emitProb, text, st)
  {
    FloorIsFar(2 * |text|);
    TenToPositive(90);
    BoundedAbove(model, text, st, TenTo(90) as real);
    PlainIff(model, text, st);
    PlainScoreMeaning(model, text, st);
  }

  // ----- the decoder

  method Viterbi(model: HMMModel, runes: seq<RuneStr>, begin: nat, end: nat) returns (status: seq<State>)
    requires model.Valid() && begin < end <= |runes|
    ensures OptimalStates(model, RunesOf(runes[begin..end]), status)
    ensures FirstOfTies(model, RunesOf(runes[begin..end]), status)
  {
    ghost var text := RunesOf(runes[begin..end]);
    var X := end - begin;
    var path := new int[X * 4];
    var weight := new real[X * 4];
    for y := 0 to STATUS_SUM
      invariant TableDone(model, text, weight[..], path[..], 0, y)
    {
      ghost var w, p := weight[..], path[..];
      IndexIsFlat(X, 0, y);
      weight[0 + y * X] := model.Start(y, runes[begin].rune);
      path[0 + y * X] := -1;
      CellKept(model, text, w, p, weight[..], path[..], 0, y);
      TableGrows(model, text, weight[..], path[..], 0, y);
    }
    ColumnFinished(model, text, weight[..], path[..], 0);
    for x := 1 to X
      invariant TableDone(model, text, weight[..], path[..], x, 0)
    {
      for y := 0 to STATUS_SUM
        invariant TableDone(model, text, weight[..], path[..], x, y)
      {
        FillCell(model, runes, begin, end, weight, path, x, y);
        TableGrows(model, text, weight[..], path[..], x, y);
      }
      ColumnFinished(model, text, weight[..], path[..], x);
    }
    status := ReadBack(model, text, X, weight, path);
  }

  /** The body of the two outer loops: the best predecessor of state y at rune x. */
  method FillCell(model: HMMModel, runes: seq<RuneStr>, begin: nat, end: nat,
                  weight: array<real>, path: array<int>, x: nat, y: State)
    requires begin <= end <= |runes| && 0 < x < end - begin
    requires TableDone(model, RunesOf(runes[begin..end]), weight[..], path[..], x, y)
    modifies weight, path
    ensures TableDone(model, RunesOf(runes[begin..end]), weight[..], path[..], x, y)
    ensures CellDone(model, RunesOf(runes[begin..end]), weight[..], path[..], x, y)
  {
    ghost var text := RunesOf(runes[begin..end]);
    var X := end - begin;
    IndexIsFlat(X, x, y);
    var now := x + y * X;
    ghost var w, p := weight[..], path[..];
    weight[now] := MIN_DOUBLE;
    path[now] := E;
    var emitProb := model.Emit(y, runes[begin + x].rune);
    for preY := 0 to STATUS_SUM
      invariant weight[..] == w[now := weight[now]] && path[..] == p[now := path[now]]
      invariant BestCell(model, text, weight[..], path[..], x, y, preY)
    {
      TryPredecessor(model, text, weight, path, X, x, y, preY, emitProb);
    }
    CellKept(model, text, w, p, weight[..], path[..], x, y);
  }

  /** A predecessor that beats the best so far takes its place. */
  lemma Gain(model: HMMModel, text: seq<Rune>, w: seq<real>, path: seq<int>, x: nat, y: State, pre: State, tmp: real)
    requires model.Valid() && 0 < x < |text| && |w| == |path| == 4 * |text|
    requires BestCell(model, text, w, path, x, y, pre)
    requires tmp == w[Index(|text|, x - 1, pre)] + model.Move(pre, y, text[x]) && tmp > w[Index(|text|, x, y)]
    ensures var now := Index(|text|, x, y); BestCell(model, text, w[now := tmp], path[now := pre], x, y, pre + 1)
  {
    assert Index(|text|, x - 1, pre) != Index(|text|, x, y);
  }

  lemma NoGain(model: HMMModel, text: seq<Rune>, w: seq<real>, path: seq<int>, x: nat, y: State, pre: State)
    requires model.Valid() && 0 < x < |text| && |w| == |path| == 4 * |text|
    requires BestCell(model, text, w, path, x, y, pre)
    requires w[Index(|text|, x - 1, pre)] + model.Move(pre, y, text[x]) <= w[Index(|text|, x, y)]
    ensures BestCell(model, text, w, path, x, y, pre + 1)
  {
  }

  /** The innermost body of `Viterbi`: a strictly better predecessor replaces the one so far. */
  method TryPredecessor(model: HMMModel, ghost text: seq<Rune>, weight: array<real>, path: array<int>,
                        X: nat, x: nat, y: State, preY: State, emitProb: real)
    requires model.Valid() && X == |text| && 0 < x < X && weight.Length == path.Length == 4 * X
    requires emitProb == model.Emit(y, text[x])
    requires BestCell(model, text, weight[..], path[..], x, y, preY)
    modifies weight, path
    ensures var now := Index(X, x, y);
            && weight[..] == old(weight[..])[now := weight[now]] && path[..] == old(path[..])[now := path[now]]
            && BestCell(model, text, weight[..], path[..], x, y, preY + 1)
  {
    IndexIsFlat(X, x, y);
    IndexIsFlat(X, x - 1, preY);
    var now := x + y * X;
    var before := x - 1 + preY * X;
    var tmp := weight[before] + model.transProb[preY][y] + emitProb;
    ghost var w, p := weight[..], path[..];
    if tmp > weight[now] {
      Gain(model, text, w, p, x, y, preY, tmp);
      weight[now] := tmp;
      path[now] := preY;
      assert weight[..] == w[now := tmp] && path[..] == p[now := preY];
    } else {
      NoGain(model, text, w, p, x, y, preY);
      assert weight[..] == w[now := weight[now]] && path[..] == p[now := path[now]];
    }
  }

  /** The last part of `Viterbi`: pick the better final state and follow the back-pointers. */
  method ReadBack(model: HMMModel, ghost text: seq<Rune>, X: nat, weight: array<real>, path: array<int>)
    returns (status: seq<State>)
    requires X == |text| > 0
    requires TableDone(model, text, weight[..], path[..], X, 0)
    ensures OptimalStates(model, text, status) && FirstOfTies(model, text, status)
  {
    IndexIsFlat(X, X - 1, E);
    IndexIsFlat(X, X - 1, S);
    var endE := weight[X - 1 + E * X];
    var endS := weight[X - 1 + S * X];
    var stat: int := 0;
    if endE >= endS {
      stat := E;
    } else {
      stat := S;
    }
    status := FollowBack(model, text, X, weight[..], path, stat);
    WalkIsOptimal(model, text, weight[..], path[..], status);
    TiesAreBroken(model, text, weight[..], path[..], status);
  }

  /** The loop of `Viterbi` that follows the back-pointers from the last state. */
  method FollowBack(model: HMMModel, ghost text: seq<Rune>, X: nat, ghost w: seq<real>, path: array<int>, last: State)
    returns (status: seq<State>)
    requires X == |text| > 0 && TableDone(model, text, w, path[..], X, 0)
    ensures WalkedBack(text, path[..], status) && |status| == X && status[X - 1] == last
  {
    ghost var p := path[..];
    var stat: int := last;
    var states := new State[X];
    for x := X downto 0
      invariant x > 0 ==> 0 <= stat < STATUS_SUM
      invariant if x == X then stat == last else states[X - 1] == last
      invariant 0 < x < X ==> stat == p[Index(X, x, states[x])]
      invariant forall k | x < k < X :: states[k - 1] == p[Index(X, k, states[k])]
    {
      BackPointer(model, text, w, p, x, stat);
      IndexIsFlat(X, x, stat);
      states[x] := stat;
      stat := path[x + stat * X];
    }
    status := states[..];
  }

  /** The back-pointer of a finished cell is a state, except in the first column. */
  lemma BackPointer(model: HMMModel, text: seq<Rune>, w: seq<real>, path: seq<int>, x: nat, y: State)
    requires TableDone(model, text, w, path, |text|, 0) && x < |text|
    ensures x > 0 ==> 0 <= path[Index(|text|, x, y)] < STATUS_SUM
  {
    assert CellDone(model, text, w, path, x, y);
  }

  // ----- words from states

  /** In the order of the states the odd ones end words. */
  lemma OddEndsWord(y: State)
    ensures y % 2 != 0 <==> EndsWord(y)
  {
  }

  /** Whether the state of rune j, counted from begin, ends a word. */
  predicate EndsAt(st: seq<State>, begin: nat, j: nat)
    requires begin <= j < begin + |st|
  {
    EndsWord(st[j - begin])
  }

  /** Each part ends at the first state E or S from where it starts. */
  ghost predicate SplitByStates(parts: seq<WordRange>, st: seq<State>, begin: nat, end: nat)
  {
    && end <= begin + |st|
    && Tiles(parts, begin, end)
    && forall k | 0 <= k < |parts| ::
         && begin <= parts[k].left <= parts[k].right < end
         && EndsAt(st, begin, parts[k].right)
         && forall j | parts[k].left <= j < parts[k].right :: !EndsAt(st, begin, j)
  }

  lemma AddPart(parts: seq<WordRange>, wr: WordRange, st: seq<State>, begin: nat)
    requires begin <= wr.left <= wr.right < begin + |st| && SplitByStates(parts, st, begin, wr.left)
    requires EndsAt(st, begin, wr.right)
    requires forall j | wr.left <= j < wr.right :: !EndsAt(st, begin, j)
    ensures SplitByStates(parts + [wr], st, begin, wr.right + 1)
  {
    TilesAppend(parts, [wr], begin, wr.left, wr.right + 1);
  }

  /** The first i states have been cut into parts up to left, and no word has ended since. */
  ghost predicate SplitUpTo(parts: seq<WordRange>, st: seq<State>, begin: nat, left: nat, i: nat)
  {
    && i <= |st| && begin <= left <= begin + i
    && SplitByStates(parts, st, begin, left)
    && (forall j | left <= j < begin + i :: !EndsAt(st, begin, j))
    && (i > 0 && EndsWord(st[i - 1]) ==> left == begin + i)
  }

  /** One more state either ends a word, which is added, or leaves it open. */
  lemma SplitGoesOn(parts: seq<WordRange>, st: seq<State>, begin: nat, left: nat, i: nat)
    requires SplitUpTo(parts, st, begin, left, i) && i < |st|
    ensures if EndsWord(st[i]) then SplitUpTo(parts + [WordRange(left, begin + i)], st, begin, begin + i + 1, i + 1)
            else SplitUpTo(parts, st, begin, left, i + 1)
  {
    assert EndsAt(st, begin, begin + i) <==> EndsWord(st[i]);
    if EndsWord(st[i]) {
      AddPart(parts, WordRange(left, begin + i), st, begin);
    }
  }

  /** The parts of the runes lo..hi-1 are the words of a best state sequence. */
  ghost predicate ViterbiPieces(model: HMMModel, runes: seq<RuneStr>, lo: nat, hi: nat, parts: seq<WordRange>)
  {
    && model.Valid() && lo <= hi <= |runes|
    && (exists st :: OptimalStates(model, RunesOf(runes[lo..hi]), st) && SplitByStates(parts, st, lo, hi))
  }

  method InternalCut(model: HMMModel, runes: seq<RuneStr>, begin: nat, end: nat, res: seq<WordRange>)
    returns (res': seq<WordRange>)
    requires model.Valid() && begin < end <= |runes|
    ensures res <= res' && ViterbiPieces(model, runes, begin, end, Added(res, res'))
  {
    var status := Viterbi(model, runes, begin, end);
    res' := CutAtEnds(status, begin, res);
  }

  /** The loop of `InternalCut`: a word ends wherever a state ends one. */
  method CutAtEnds(status: seq<State>, begin: nat, res: seq<WordRange>) returns (res': seq<WordRange>)
    requires status != [] && EndsWord(status[|status| - 1])
    ensures res <= res' && SplitByStates(Added(res, res'), status, begin, begin + |status|)
  {
    res' := res;
    ghost var parts: seq<WordRange> := [];
    var left := begin;
    for i := 0 to |status|
      invariant begin <= left && res' == res + parts
      invariant SplitUpTo(parts, status, begin, left, i)
    {
      OddEndsWord(status[i]);
      SplitGoesOn(parts, status, begin, left, i);
      if status[i] % 2 != 0 {
        var right := begin + i + 1;
        var wr := WordRange(left, right - 1);
        res' := res' + [wr];
        parts := parts + [wr];
        left := right;
      }
    }
    AddedOf(res, parts);
  }

  // ----- ASCII tokens

  predicate IsLetter(x: Rune) { 'a' as int <= x <= 'z' as int || 'A' as int <= x <= 'Z' as int }

  predicate IsDigit(x: Rune) { '0' as int <= x <= '9' as int }

  predicate IsAlnum(x: Rune) { IsLetter(x) || IsDigit(x) }

  predicate IsNumeric(x: Rune) { IsDigit(x) || x == '.' as int }

  /** The classes by code: ASCII letters, ASCII digits, and digits with the full stop. */
  lemma ClassesByCode(x: Rune)
    ensures IsLetter(x) <==> 65 <= x <= 90 || 97 <= x <= 122
    ensures IsAlnum(x) <==> IsLetter(x) || 48 <= x <= 57
    ensures IsNumeric(x) <==> 48 <= x <= 57 || x == 46
    ensures IsAscii(x) <==> x <= 127
    ensures NotAscii(x) <==> !IsAscii(x)
  {
  }

  /** r is where the longest run of runes satisfying p from i on stops. */
  ghost predicate LongestRun(runes: seq<RuneStr>, p: Rune -> bool, i: nat, end: nat, r: nat)
  {
    && end <= |runes|
    && i <= r <= end
    && (forall k | i <= k < r :: p(runes[k].rune))
    && (r < end ==> !p(runes[r].rune))
  }

  method SequentialLetterRule(runes: seq<RuneStr>, begin: nat, end: nat) returns (r: nat)
    requires begin < end <= |runes|
    ensures !IsLetter(runes[begin].rune) ==> r == begin
    ensures IsLetter(runes[begin].rune) ==> LongestRun(runes, IsAlnum, begin, end, r) && r > begin
  {
    r := begin;
    var x := runes[r].rune;
    if IsLetter(x) {
      r := r + 1;
    } else {
      return r;
    }
    while r != end
      invariant begin < r <= end
      invariant forall k | begin <= k < r :: IsAlnum(runes[k].rune)
      decreases end - r
    {
      x := runes[r].rune;
      if IsLetter(x) || IsDigit(x) {
        r := r + 1;
      } else {
        break;
      }
    }
  }

  method NumbersRule(runes: seq<RuneStr>, begin: nat, end: nat) returns (r: nat)
    requires begin < end <= |runes|
    ensures !IsDigit(runes[begin].rune) ==> r == begin
    ensures IsDigit(runes[begin].rune) ==> LongestRun(runes, IsNumeric, begin, end, r) && r > begin
  {
    r := begin;
    var x := runes[r].rune;
    if IsDigit(x) {
      r := r + 1;
    } else {
      return r;
    }
    while r != end
      invariant begin < r <= end
      invariant forall k | begin <= k < r :: IsNumeric(runes[k].rune)
      decreases end - r
    {
      x := runes[r].rune;
      if IsNumeric(x) {
        r := r + 1;
      } else {
        break;
      }
    }
  }

  predicate IsAscii(x: Rune) { x < 0x80 }

  predicate NotAscii(x: Rune) { x >= 0x80 }

  /** An ASCII token: the longest letter-led word, the longest digit-led number, or one other rune. */
  ghost predicate IsToken(runes: seq<RuneStr>, lo: nat, hi: nat, end: nat)
  {
    lo < end <= |runes| &&
    var x := runes[lo].rune;
    && IsAscii(x)
    && if IsLetter(x) then LongestRun(runes, IsAlnum, lo, end, hi)
       else if IsDigit(x) then LongestRun(runes, IsNumeric, lo, end, hi)
       else hi == lo + 1
  }

  /** The one-pass `do` block of `Cut`: letters, else numbers, else a single rune. */
  method TokenEnd(runes: seq<RuneStr>, left: nat, end: nat) returns (right: nat)
    requires left < end <= |runes| && IsAscii(runes[left].rune)
    ensures left < right <= end && IsToken(runes, left, right, end)
  {
    right := SequentialLetterRule(runes, left, end);
    if right != left {
      return;
    }
    right := NumbersRule(runes, left, end);
    if right != left {
      return;
    }
    right := right + 1;
  }

  /** One step of the segmenter: a token, or the Viterbi words of a longest run of other runes. */
  ghost predicate Chunk(model: HMMModel, runes: seq<RuneStr>, lo: nat, hi: nat, end: nat, parts: seq<WordRange>)
  {
    && model.Valid() && lo < hi <= end <= |runes|
    && if IsAscii(runes[lo].rune) then IsToken(runes, lo, hi, end) && parts == [WordRange(lo, hi - 1)]
       else LongestRun(runes, NotAscii, lo, end, hi) && ViterbiPieces(model, runes, lo, hi, parts)
  }

  /** The parts of the runes lo..hi-1, chunk by chunk, when the text goes on to end. */
  ghost predicate HmmPieces(model: HMMModel, runes: seq<RuneStr>, lo: nat, hi: nat, end: nat, parts: seq<WordRange>)
    requires model.Valid() && lo <= hi <= end <= |runes|
    decreases hi - lo, 1
  {
    if lo == hi then parts == []
    else exists mid: nat, k: nat :: ChunkFrom(model, runes, lo, hi, end, parts, mid, k)
  }

  /** The last chunk starts at mid, and its words at parts[k]. */
  ghost predicate ChunkFrom(model: HMMModel, runes: seq<RuneStr>, lo: nat, hi: nat, end: nat, parts: seq<WordRange>,
                            mid: nat, k: nat)
    requires model.Valid() && lo <= hi <= end <= |runes|
    decreases hi - lo, 0
  {
    && lo <= mid < hi && k <= |parts|
    && HmmPieces(model, runes, lo, mid, end, parts[..k])
    && Chunk(model, runes, mid, hi, end, parts[k..])
  }

  lemma AddChunk(model: HMMModel, runes: seq<RuneStr>, lo: nat, mid: nat, hi: nat, end: nat,
                 a: seq<WordRange>, b: seq<WordRange>)
    requires model.Valid() && lo <= mid < hi <= end <= |runes|
    requires HmmPieces(model, runes, lo, mid, end, a) && Chunk(model, runes, mid, hi, end, b)
    ensures HmmPieces(model, runes, lo, hi, end, a + b)
  {
    assert (a + b)[..|a|] == a && (a + b)[|a|..] == b;
    assert ChunkFrom(model, runes, lo, hi, end, a + b, mid, |a|);
  }

  lemma AddRun(model: HMMModel, runes: seq<RuneStr>, lo: nat, mid: nat, hi: nat, end: nat,
               a: seq<WordRange>, b: seq<WordRange>)
    requires model.Valid() && lo <= mid < hi <= end <= |runes|
    requires HmmPieces(model, runes, lo, mid, end, a) && ViterbiPieces(model, runes, mid, hi, b)
    requires LongestRun(runes, NotAscii, mid, end, hi)
    ensures HmmPieces(model, runes, lo, hi, end, a + b)
  {
    AddChunk(model, runes, lo, mid, hi, end, a, b);
  }

  lemma AddToken(model: HMMModel, runes: seq<RuneStr>, lo: nat, mid: nat, hi: nat, end: nat,
                          a: seq<WordRange>)
    requires model.Valid() && lo <= mid < hi <= end <= |runes|
    requires HmmPieces(model, runes, lo, mid, end, a) && IsToken(runes, mid, hi, end)
    ensures HmmPieces(model, runes, lo, hi, end, a + [WordRange(mid, hi - 1)])
  {
    AddChunk(model, runes, lo, mid, hi, end, a, [WordRange(mid, hi - 1)]);
  }

  method Cut(model: HMMModel, runes: seq<RuneStr>, begin: nat, end: nat, res: seq<WordRange>)
    returns (res': seq<WordRange>)
    requires model.Valid() && begin <= end <= |runes|
    ensures res <= res' && HmmPieces(model, runes, begin, end, end, Added(res, res'))
  {
    res' := res;
    ghost var parts: seq<WordRange> := [];
    var left, right := begin, begin;
    while right != end
      invariant begin <= left <= right <= end
      invariant res' == res + parts
      invariant HmmPieces(model, runes, begin, left, end, parts)
      invariant forall k | left <= k < right :: NotAscii(runes[k].rune)
      decreases end - right
    {
      if runes[right].rune < 0x80 {
        if left != right {
          ghost var was := res';
          res' := InternalCut(model, runes, left, right, res');
          ghost var more := Added(was, res');
          AddRun(model, runes, begin, left, right, end, parts, more);
          parts := Grow(res, parts, more);
        }
        left := right;
        right := TokenEnd(runes, left, end);
        var wr := WordRange(left, right - 1);
        AddToken(model, runes, begin, left, right, end, parts);
        res' := res' + [wr];
        parts := Grow(res, parts, [wr]);
        left := right;
      } else {
        right := right + 1;
      }
    }
    if left != right {
      ghost var was := res';
      res' := InternalCut(model, runes, left, right, res');
      ghost var more := Added(was, res');
      AddRun(model, runes, begin, left, right, end, parts, more);
      parts := Grow(res, parts, more);
    }
    AddedOf(res, parts);
  }

  ghost function Grow(res: seq<WordRange>, parts: seq<WordRange>, more: seq<WordRange>): (r: seq<WordRange>)
    ensures r == parts + more && res + r == res + parts + more
  {
    parts + more
  }

  lemma LastChunk(model: HMMModel, runes: seq<RuneStr>, lo: nat, hi: nat, end: nat,
                          parts: seq<WordRange>)
    returns (mid: nat, a: seq<WordRange>, b: seq<WordRange>)
    requires model.Valid() && lo < hi <= end <= |runes| && HmmPieces(model, runes, lo, hi, end, parts)
    ensures lo <= mid < hi && parts == a + b
    ensures HmmPieces(model, runes, lo, mid, end, a) && Chunk(model, runes, mid, hi, end, b)
  {
    var k: nat;
    mid, k :| ChunkFrom(model, runes, lo, hi, end, parts, mid, k);
    a, b := parts[..k], parts[k..];
  }

  /** The words cover the range exactly once, in order. */
  lemma {:induction false} PiecesTile(model: HMMModel, runes: seq<RuneStr>, lo: nat, hi: nat, end: nat,
                          parts: seq<WordRange>)
    requires model.Valid() && lo <= hi <= end <= |runes| && HmmPieces(model, runes, lo, hi, end, parts)
    ensures Tiles(parts, lo, hi)
    decreases hi - lo
  {
    if lo < hi {
      var mid, a, b := LastChunk(model, runes, lo, hi, end, parts);
      PiecesTile(model, runes, lo, mid, end, a);
      TilesAppend(a, b, lo, mid, hi);
    }
  }

  /** A word inside lo..hi-1 that is all ASCII or has none. */
  ghost predicate Unmixed(runes: seq<RuneStr>, lo: nat, hi: nat, w: WordRange)
  {
    && lo <= w.left <= w.right < hi <= |runes|
    && ((forall k | w.left <= k <= w.right :: IsAscii(runes[k].rune))
        || (forall k | w.left <= k <= w.right :: NotAscii(runes[k].rune)))
  }

  /** No word mixes ASCII with other runes. */
  lemma {:induction false} PiecesDoNotMix(model: HMMModel, runes: seq<RuneStr>, lo: nat, hi: nat, end: nat,
                                          parts: seq<WordRange>, n: nat)
    requires model.Valid() && lo <= hi <= end <= |runes| && HmmPieces(model, runes, lo, hi, end, parts)
    requires n < |parts|
    ensures Unmixed(runes, lo, hi, parts[n])
    decreases hi - lo
  {
    if lo < hi {
      var mid, a, b := LastChunk(model, runes, lo, hi, end, parts);
      if n < |a| {
        PiecesDoNotMix(model, runes, lo, mid, end, a, n);
      } else {
        assert parts[n] == b[n - |a|];
      }
    }
  }
}
