/**
 Packing of function groups into a fixed number of files: the groups are taken
 from the largest to the smallest, and each one goes to the currently smallest file.
 */
module Packing {
  import opened Sequences

  /** `where` puts each of n items on one of m files. */
  ghost predicate Assignment(where: seq<nat>, n: nat, m: nat) {
    |where| == n && forall i :: 0 <= i < n ==> where[i] < m
  }

  /** The total weight that `where` puts on file k. */
  function Load(weights: seq<nat>, where: seq<nat>, k: nat): nat
    requires |weights| == |where|
  {
    if weights == [] then 0
    else
      var n := |weights| - 1;
      Load(weights[..n], where[..n], k) + (if where[n] == k then weights[n] else 0)
  }

  /** No file receives more than `cap`. */
  ghost predicate WithinCap(sizes: seq<nat>, where: seq<nat>, m: nat, cap: nat)
    requires |sizes| == |where|
  {
    forall k :: 0 <= k < m ==> Load(sizes, where, k) <= cap
  }

  function Loads(weights: seq<nat>, where: seq<nat>, m: nat): (loads: seq<nat>)
    requires |weights| == |where|
    ensures |loads| == m
    ensures forall k :: 0 <= k < m ==> loads[k] == Load(weights, where, k)
  {
    seq(m, k requires 0 <= k < m => Load(weights, where, k))
  }

  ghost predicate Descending(s: seq<nat>) {
    forall i, j :: 0 <= i <= j < |s| ==> s[i] >= s[j]
  }

  /** The first position of a least element. */
  ghost predicate FirstMin(s: seq<nat>, at: nat) {
    && at < |s|
    && (forall k :: 0 <= k < |s| ==> s[at] <= s[k])
    && (forall k :: 0 <= k < at ==> s[at] < s[k])
  }

  function ArgMin(s: seq<nat>): (at: nat)
    requires s != []
    ensures FirstMin(s, at)
  {
    var n := |s| - 1;
    if n == 0 then 0
    else
      var at := ArgMin(s[..n]);
      assert forall k :: 0 <= k < n ==> s[k] == s[..n][k];
      if s[n] < s[at] then n else at
  }

  /** The file chosen for every item, when items are placed in order. */
  function Greedy(sizes: seq<nat>, m: nat): (where: seq<nat>)
    requires m > 0
    ensures Assignment(where, |sizes|, m)
  {
    if sizes == [] then []
    else
      var n := |sizes| - 1;
      var where := Greedy(sizes[..n], m);
      where + [ArgMin(Loads(sizes[..n], where, m))]
  }

  /** One step of the packing loop, seen as a step of `Greedy`. */
  lemma PackStep(sizes: seq<nat>, m: nat, i: nat, where: seq<nat>, at: nat)
    requires i < |sizes| && m > 0
    requires where == Greedy(sizes[..i], m)
    requires FirstMin(Loads(sizes[..i], where, m), at)
    ensures Greedy(sizes[..i + 1], m) == where + [at]
    ensures Loads(sizes[..i + 1], where + [at], m) ==
            Loads(sizes[..i], where, m)[at := Loads(sizes[..i], where, m)[at] + sizes[i]]
  {
    assert sizes[..i + 1][..i] == sizes[..i];
    assert (where + [at])[..i] == where;
    SameFirstMin(Loads(sizes[..i], where, m), at, ArgMin(Loads(sizes[..i], where, m)));
  }

  /** Computes the least file size, then searches for its first position. */
  method FindSmallest(fileSizes: seq<nat>) returns (fileId: nat)
    requires fileSizes != []
    ensures FirstMin(fileSizes, fileId)
  {
    var least := fileSizes[0];
    for i := 1 to |fileSizes|
      invariant least in fileSizes[..i]
      invariant forall k :: 0 <= k < i ==> least <= fileSizes[k]
    {
      if fileSizes[i] < least {
        least := fileSizes[i];
      }
    }
    fileId := 0;
    while fileSizes[fileId] != least
      invariant fileId < |fileSizes|
      invariant least in fileSizes[fileId..]
      invariant forall k :: 0 <= k < fileId ==> fileSizes[k] != least
      decreases |fileSizes| - fileId
    {
      fileId := fileId + 1;
    }
  }

  lemma SameFirstMin(s: seq<nat>, a: nat, b: nat)
    requires FirstMin(s, a) && FirstMin(s, b)
    ensures a == b
  {
    assert s[a] <= s[b] && s[b] <= s[a];
  }

  // ---- conservation ----

  /** Nothing is lost: the files together hold exactly the items. */
  lemma {:induction false} LoadsConserve(weights: seq<nat>, where: seq<nat>, m: nat)
    requires Assignment(where, |weights|, m)
    ensures Sum(Loads(weights, where, m)) == Sum(weights)
  {
    if weights == [] {
      SumZero(Loads(weights, where, m));
    } else {
      var n := |weights| - 1;
      LoadsConserve(weights[..n], where[..n], m);
      var before := Loads(weights[..n], where[..n], m);
      SumAdd(before, where[n], weights[n]);
      assert Loads(weights, where, m) == before[where[n] := before[where[n]] + weights[n]];
    }
  }

  lemma {:induction false} SumAtLeast(s: seq<nat>, low: nat)
    requires forall k :: 0 <= k < |s| ==> low <= s[k]
    ensures low * |s| <= Sum(s)
  {
    if s != [] {
      var n := |s| - 1;
      SumAtLeast(s[..n], low);
      assert low * |s| == low * n + low;
    }
  }

  lemma {:induction false} SumAtMost(s: seq<nat>, high: nat)
    requires forall k :: 0 <= k < |s| ==> s[k] <= high
    ensures Sum(s) <= high * |s|
  {
    if s != [] {
      var n := |s| - 1;
      SumAtMost(s[..n], high);
      assert high * |s| == high * n + high;
    }
  }

  // ---- spread of the loads ----

  /** Whatever the order, two files never differ by more than the largest item. */
  lemma {:induction false} SpreadBound(sizes: seq<nat>, m: nat, largest: nat)
    requires m > 0
    requires forall i :: 0 <= i < |sizes| ==> sizes[i] <= largest
    ensures forall j, k :: 0 <= j < m && 0 <= k < m ==>
              Load(sizes, Greedy(sizes, m), j) <= Load(sizes, Greedy(sizes, m), k) + largest
  {
    if sizes != [] {
      var n := |sizes| - 1;
      SpreadBound(sizes[..n], m, largest);
      var where := Greedy(sizes[..n], m);
      assert Greedy(sizes, m)[..n] == where;
      var before := Loads(sizes[..n], where, m);
      var at := ArgMin(before);
      forall j, k | 0 <= j < m && 0 <= k < m
        ensures Load(sizes, Greedy(sizes, m), j) <= Load(sizes, Greedy(sizes, m), k) + largest
      {
        assert before[at] <= before[k];
        assert before[j] <= before[k] + largest;
      }
    }
  }

  // ---- the longest-first bound ----

  /** Items that do not fit together with `last` within `cap` weigh two, the others one. */
  function Weights(sizes: seq<nat>, last: nat, cap: nat): (w: seq<nat>)
    ensures |w| == |sizes|
    ensures forall i :: 0 <= i < |w| ==> w[i] == if sizes[i] + last > cap then 2 else 1
  {
    seq(|sizes|, i requires 0 <= i < |sizes| => if sizes[i] + last > cap then 2 else 1)
  }

  /** When every item is over a third of the cap, a file within the cap weighs at most two. */
  lemma {:induction false} WeightWithinCap(sizes: seq<nat>, where: seq<nat>, k: nat, last: nat, cap: nat)
    requires |where| == |sizes|
    requires 3 * last > cap
    requires forall i :: 0 <= i < |sizes| ==> sizes[i] >= last
    ensures var w := Load(Weights(sizes, last, cap), where, k);
            var load := Load(sizes, where, k);
            && (w >= 1 ==> load >= last)
            && (w >= 2 ==> load >= 2 * last || load + last > cap)
            && (w >= 3 ==> load > cap)
  {
    if sizes != [] {
      var n := |sizes| - 1;
      WeightWithinCap(sizes[..n], where[..n], k, last, cap);
      assert Weights(sizes, last, cap)[..n] == Weights(sizes[..n], last, cap);
    }
  }

  /** A file that cannot take `last` within the cap weighs at least two. */
  lemma {:induction false} WeightBeyondCap(sizes: seq<nat>, where: seq<nat>, k: nat, last: nat, cap: nat)
    requires |where| == |sizes|
    requires last <= cap
    ensures Load(Weights(sizes, last, cap), where, k) < 2 ==> Load(sizes, where, k) + last <= cap
    ensures Load(Weights(sizes, last, cap), where, k) == 0 ==> Load(sizes, where, k) == 0
  {
    if sizes != [] {
      var n := |sizes| - 1;
      WeightBeyondCap(sizes[..n], where[..n], k, last, cap);
      assert Weights(sizes, last, cap)[..n] == Weights(sizes[..n], last, cap);
    }
  }

  /** If some assignment keeps all items within `cap`, and the least item is over a third
      of it, then every placement of the others leaves room for that item on some file. */
  lemma RoomForLast(sizes: seq<nat>, best: seq<nat>, m: nat, cap: nat, where: seq<nat>) returns (room: nat)
    requires sizes != [] && m > 0
    requires Descending(sizes)
    requires Assignment(best, |sizes|, m)
    requires WithinCap(sizes, best, m, cap)
    requires 3 * sizes[|sizes| - 1] > cap
    requires Assignment(where, |sizes| - 1, m)
    ensures room < m
    ensures Load(sizes[..|sizes| - 1], where, room) + sizes[|sizes| - 1] <= cap
  {
    var n := |sizes| - 1;
    var last := sizes[n];
    assert Load(sizes, best, best[n]) >= last;
    var w := Weights(sizes, last, cap);
    var bestLoads := Loads(w, best, m);
    forall k | 0 <= k < m ensures bestLoads[k] <= 2 {
      WeightWithinCap(sizes, best, k, last, cap);
    }
    SumAtMost(bestLoads, 2);
    LoadsConserve(w, best, m);
    assert w[..n] == Weights(sizes[..n], last, cap);
    var loads := Loads(w[..n], where, m);
    LoadsConserve(w[..n], where, m);
    if forall k :: 0 <= k < m ==> loads[k] >= 2 {
      SumAtLeast(loads, 2);
      assert false;
    }
    room :| 0 <= room < m && loads[room] < 2;
    WeightBeyondCap(sizes[..n], where, room, last, cap);
  }

  /** `load` is at most 4/3 - 1/(3m) times `cap`. */
  ghost predicate WithinBound(load: nat, m: nat, cap: nat) {
    3 * m * load <= (4 * m - 1) * cap
  }

  /** One step of the bound: the item placed last ends within 4/3 - 1/(3m) of the cap. */
  lemma LastPlacedBound(sizes: seq<nat>, best: seq<nat>, m: nat, cap: nat, least: nat)
    requires sizes != [] && m > 0
    requires Descending(sizes)
    requires Assignment(best, |sizes|, m)
    requires WithinCap(sizes, best, m, cap)
    requires var n := |sizes| - 1; FirstMin(Loads(sizes[..n], Greedy(sizes[..n], m), m), least)
    ensures var n := |sizes| - 1;
            WithinBound(Load(sizes[..n], Greedy(sizes[..n], m), least) + sizes[n], m, cap)
  {
    var n := |sizes| - 1;
    var last := sizes[n];
    var where := Greedy(sizes[..n], m);
    var lo := Load(sizes[..n], where, least);
    if 3 * last > cap {
      var room := RoomForLast(sizes, best, m, cap, where);
      assert lo <= Loads(sizes[..n], where, m)[room];
      FitBound(lo + last, m, cap);
    } else {
      SmallLastBound(sizes, best, m, cap, where, lo);
    }
  }

  /** An item of at most a third of the cap, put on a file no larger than the average. */
  lemma SmallLastBound(sizes: seq<nat>, best: seq<nat>, m: nat, cap: nat, where: seq<nat>, lo: nat)
    requires sizes != [] && m > 0
    requires Assignment(best, |sizes|, m) && WithinCap(sizes, best, m, cap)
    requires Assignment(where, |sizes| - 1, m)
    requires var loads := Loads(sizes[..|sizes| - 1], where, m); forall k :: 0 <= k < m ==> lo <= loads[k]
    requires 3 * sizes[|sizes| - 1] <= cap
    ensures WithinBound(lo + sizes[|sizes| - 1], m, cap)
  {
    var n := |sizes| - 1;
    var last := sizes[n];
    SumAtLeast(Loads(sizes[..n], where, m), lo);
    LoadsConserve(sizes[..n], where, m);
    SumAtMost(Loads(sizes, best, m), cap);
    LoadsConserve(sizes, best, m);
    AverageBound(lo, last, m, cap);
  }

  lemma FitBound(load: nat, m: nat, cap: nat)
    requires m > 0 && load <= cap
    ensures WithinBound(load, m, cap)
  {
    MulMonotone(3 * m, load, cap);
    MulMonotone(cap, 3 * m, 4 * m - 1);
  }

  lemma AverageBound(lo: nat, last: nat, m: nat, cap: nat)
    requires m > 0
    requires lo * m + last <= cap * m
    requires 3 * last <= cap
    ensures WithinBound(lo + last, m, cap)
  {
    MulMonotone(m - 1, 3 * last, cap);
    assert 3 * m * (lo + last) == 3 * (lo * m + last) + (m - 1) * (3 * last);
    assert (4 * m - 1) * cap == 3 * (cap * m) + (m - 1) * cap;
  }

  /** Taking items away only lightens the files. */
  lemma PrefixWithinCap(sizes: seq<nat>, best: seq<nat>, m: nat, cap: nat)
    requires sizes != []
    requires Assignment(best, |sizes|, m)
    requires WithinCap(sizes, best, m, cap)
    ensures WithinCap(sizes[..|sizes| - 1], best[..|sizes| - 1], m, cap)
  {
    var fewer, where := sizes[..|sizes| - 1], best[..|sizes| - 1];
    forall k: nat | k < m ensures Load(fewer, where, k) <= cap {
      assert Load(sizes, best, k) <= cap;
    }
  }

  /** Graham's bound: on sizes sorted in descending order, the largest file is at most
      4/3 - 1/(3m) of the largest file of any other split into m files. */
  lemma {:induction false} LongestFirstBound(sizes: seq<nat>, best: seq<nat>, m: nat, cap: nat)
    requires m > 0
    requires Descending(sizes)
    requires Assignment(best, |sizes|, m)
    requires WithinCap(sizes, best, m, cap)
    ensures forall k :: 0 <= k < m ==> WithinBound(Load(sizes, Greedy(sizes, m), k), m, cap)
  {
    if sizes == [] {
      MulMonotone(cap, 0, 4 * m - 1);
      assert WithinBound(0, m, cap);
    } else {
      var n := |sizes| - 1;
      PrefixWithinCap(sizes, best, m, cap);
      LongestFirstBound(sizes[..n], best[..n], m, cap);
      GreedyStep(sizes, m);
      LastPlacedBound(sizes, best, m, cap, ArgMin(Loads(sizes[..n], Greedy(sizes[..n], m), m)));
    }
  }

  lemma GreedyStep(sizes: seq<nat>, m: nat)
    requires sizes != [] && m > 0
    ensures var n := |sizes| - 1;
            var where := Greedy(sizes[..n], m);
            var at := ArgMin(Loads(sizes[..n], where, m));
            forall k :: 0 <= k < m ==>
              Load(sizes, Greedy(sizes, m), k) == Load(sizes[..n], where, k) + (if k == at then sizes[n] else 0)
  {
    var n := |sizes| - 1;
    assert Greedy(sizes, m)[..n] == Greedy(sizes[..n], m);
  }

  /** The first i items, split over two files, give the loads a and b. */
  ghost predicate TwoFiles(sizes: seq<nat>, where: seq<nat>, i: nat, a: nat, b: nat) {
    && i <= |sizes| == |where|
    && Load(sizes[..i], where[..i], 0) == a
    && Load(sizes[..i], where[..i], 1) == b
  }

  /** The bound cannot be improved: with two files it is reached, 7 = (4/3 - 1/6) * 6. */
  lemma BoundIsReached(sizes: seq<nat>, best: seq<nat>)
    requires sizes == [3, 3, 2, 2, 2] && best == [0, 0, 1, 1, 1]
    ensures TwoFiles(sizes, best, 5, 6, 6)
    ensures TwoFiles(sizes, Greedy(sizes, 2), 5, 7, 5)
    ensures 3 * 2 * 7 == (4 * 2 - 1) * 6
  {
    TwoFilesStep(sizes, best, 0, 0, 0);
    TwoFilesStep(sizes, best, 1, 3, 0);
    TwoFilesStep(sizes, best, 2, 6, 0);
    TwoFilesStep(sizes, best, 3, 6, 2);
    TwoFilesStep(sizes, best, 4, 6, 4);
    var where := Greedy(sizes, 2);
    forall i: nat | i < 5 ensures where[i] == ArgMin(Loads(sizes[..i], where[..i], 2)) {
      GreedyAt(sizes, 2, i);
    }
    GreedyOfFive(sizes, where);
  }

  lemma GreedyOfFive(sizes: seq<nat>, where: seq<nat>)
    requires sizes == [3, 3, 2, 2, 2] && |where| == 5
    requires forall i: nat :: i < 5 ==> where[i] == ArgMin(Loads(sizes[..i], where[..i], 2))
    ensures TwoFiles(sizes, where, 5, 7, 5)
  {
    SmallestOfTwo(sizes, where, 0, 0, 0);
    SmallestOfTwo(sizes, where, 1, 3, 0);
    SmallestOfTwo(sizes, where, 2, 3, 3);
    SmallestOfTwo(sizes, where, 3, 5, 3);
    SmallestOfTwo(sizes, where, 4, 5, 5);
  }

  lemma TwoFilesStep(sizes: seq<nat>, where: seq<nat>, i: nat, a: nat, b: nat)
    requires i < |sizes| && TwoFiles(sizes, where, i, a, b) && where[i] < 2
    ensures if where[i] == 0 then TwoFiles(sizes, where, i + 1, a + sizes[i], b)
            else TwoFiles(sizes, where, i + 1, a, b + sizes[i])
  {
    assert sizes[..i + 1][..i] == sizes[..i] && where[..i + 1][..i] == where[..i];
  }

  lemma SmallestOfTwo(sizes: seq<nat>, where: seq<nat>, i: nat, a: nat, b: nat)
    requires i < |sizes| && TwoFiles(sizes, where, i, a, b)
    requires where[i] == ArgMin(Loads(sizes[..i], where[..i], 2))
    ensures if a <= b then TwoFiles(sizes, where, i + 1, a + sizes[i], b)
            else TwoFiles(sizes, where, i + 1, a, b + sizes[i])
  {
    var loads := Loads(sizes[..i], where[..i], 2);
    assert loads[0] == a && loads[1] == b;
    TwoFilesStep(sizes, where, i, a, b);
  }

  /** Each item goes to the first smallest file among those before it. */
  lemma {:induction false} GreedyAt(sizes: seq<nat>, m: nat, i: nat)
    requires i < |sizes| && m > 0
    ensures Greedy(sizes, m)[i] == ArgMin(Loads(sizes[..i], Greedy(sizes, m)[..i], m))
  {
    var n := |sizes| - 1;
    assert Greedy(sizes, m)[..n] == Greedy(sizes[..n], m);
    if i < n {
      GreedyAt(sizes[..n], m, i);
      TakeTwice(sizes, i, n);
      TakeTwice(Greedy(sizes, m), i, n);
    }
  }

  lemma TakeTwice(s: seq<nat>, i: nat, n: nat)
    requires i <= n <= |s|
    ensures s[..n][..i] == s[..i] && (i < n ==> s[..n][i] == s[i])
  {}
}
