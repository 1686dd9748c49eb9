/**
 What a split guarantees: no function is lost or repeated, linked functions stay
 together, and the largest file is close to the best that any split could reach.
 */
module SplitTheorems {
  import opened Sequences
  import opened Packing
  import opened StableSort
  import opened SplitSource

  // ---- contents ----

  lemma {:induction false} ContentsInsert(sorted: seq<seq<nat>>, group: seq<nat>, size: seq<nat> -> nat)
    ensures Contents(Insert(sorted, group, size)) == Contents(sorted) + multiset(group)
  {
    var k := |sorted| - 1;
    if sorted == [] || size(sorted[k]) >= size(group) {
      assert (sorted + [group])[..k + 1] == sorted;
    } else {
      ContentsInsert(sorted[..k], group, size);
      var rest := Insert(sorted[..k], group, size);
      assert (rest + [sorted[k]])[..|rest|] == rest;
    }
  }

  lemma {:induction false} ContentsSort(groups: seq<seq<nat>>, size: seq<nat> -> nat)
    ensures Contents(Sort(groups, size)) == Contents(groups)
  {
    if groups != [] {
      var k := |groups| - 1;
      ContentsSort(groups[..k], size);
      ContentsInsert(Sort(groups[..k], size), groups[k], size);
    }
  }

  lemma {:induction false} ContentsEmpty(files: seq<seq<nat>>)
    requires forall k :: 0 <= k < |files| ==> files[k] == []
    ensures Contents(files) == multiset{}
  {
    if files != [] {
      ContentsEmpty(files[..|files| - 1]);
    }
  }

  lemma {:induction false} ContentsFiles(groups: seq<seq<nat>>, where: seq<nat>, m: nat)
    requires Assignment(where, |groups|, m)
    ensures Contents(AllFiles(groups, where, m)) == Contents(groups)
  {
    if groups == [] {
      ContentsEmpty(AllFiles(groups, where, m));
    } else {
      var n := |groups| - 1;
      ContentsFiles(groups[..n], where[..n], m);
      AllFilesStep(groups, where[..n], m, n, where[n]);
      assert groups[..n + 1] == groups && where[..n] + [where[n]] == where;
      ContentsAt(AllFiles(groups[..n], where[..n], m), where[n], groups[n]);
    }
  }

  /** Every function is in exactly one file, exactly once. */
  lemma EveryFunctionOnce(deps: seq<seq<nat>>, lengths: seq<nat>, m: nat)
    requires m > 0
    ensures EachOnce(SplitFiles(deps, lengths, m), |lengths|)
  {
    var groups := SortedGroups(deps, lengths);
    GroupsPartition(deps, |lengths|);
    ContentsSort(Groups(deps, |lengths|), SizeOf(lengths));
    ContentsFiles(groups, Greedy(Map(groups, SizeOf(lengths)), m), m);
  }

  // ---- linked functions ----

  lemma {:induction false} InFile(groups: seq<seq<nat>>, where: seq<nat>, k: nat, x: nat)
    requires |groups| == |where|
    ensures x in FileContents(groups, where, k) <==>
            exists j :: 0 <= j < |groups| && where[j] == k && x in groups[j]
  {
    if groups != [] {
      var n := |groups| - 1;
      InFile(groups[..n], where[..n], k, x);
      if x in FileContents(groups[..n], where[..n], k) {
        var j :| 0 <= j < n && where[..n][j] == k && x in groups[..n][j];
        assert where[j] == k && x in groups[j];
      }
      if j :| 0 <= j < |groups| && where[j] == k && x in groups[j] && j < n {
        assert where[..n][j] == k && x in groups[..n][j];
      }
    }
  }

  lemma {:induction false} InContents(groups: seq<seq<nat>>, x: nat)
    ensures Contents(groups)[x] > 0 <==> exists k :: 0 <= k < |groups| && x in groups[k]
  {
    if groups != [] {
      var n := |groups| - 1;
      InContents(groups[..n], x);
      if k :| 0 <= k < n && x in groups[..n][k] {
        assert x in groups[k];
      }
      if k :| 0 <= k < |groups| && x in groups[k] && k < n {
        assert x in groups[..n][k];
      }
    }
  }

  /** A group that holds x holds everything linked with x. */
  lemma GroupHoldsLinked(deps: seq<seq<nat>>, n: nat, k: nat, x: nat, y: nat)
    requires k < |Groups(deps, n)| && x in Groups(deps, n)[k] && y < n
    requires Linked(deps, x, y)
    ensures y in Groups(deps, n)[k]
  {
    var groups := Groups(deps, n);
    GroupsPartition(deps, n);
    assert Contents(groups)[y] == 1;
    InContents(groups, y);
    var l :| 0 <= l < |groups| && y in groups[l];
    assert LinkedIff(deps, groups[k], groups[l], k == l);
  }

  /** Linked functions end up in the same file. */
  lemma LinkedInSameFile(deps: seq<seq<nat>>, lengths: seq<nat>, m: nat, k: nat, x: nat, y: nat)
    requires k < m && x < |lengths| && y < |lengths| && Linked(deps, x, y)
    requires x in SplitFiles(deps, lengths, m)[k]
    ensures y in SplitFiles(deps, lengths, m)[k]
  {
    var groups, sorted := Groups(deps, |lengths|), SortedGroups(deps, lengths);
    var where := Greedy(Map(sorted, SizeOf(lengths)), m);
    InFile(sorted, where, k, x);
    var j :| 0 <= j < |sorted| && where[j] == k && x in sorted[j];
    SortPermutes(groups, SizeOf(lengths));
    assert sorted[j] in multiset(groups);
    var g :| 0 <= g < |groups| && groups[g] == sorted[j];
    GroupHoldsLinked(deps, |lengths|, g, x, y);
    InFile(sorted, where, k, y);
  }

  // ---- sizes ----

  lemma {:induction false} TotalConcat(lengths: seq<nat>, a: seq<nat>, b: seq<nat>)
    ensures Total(lengths, a + b) == Total(lengths, a) + Total(lengths, b)
  {
    if b == [] {
      assert a + b == a;
    } else {
      TotalConcat(lengths, a, b[..|b| - 1]);
      assert (a + b)[..|a + b| - 1] == a + b[..|b| - 1];
    }
  }

  /** The size of a file is the load that the packing computed for it. */
  lemma {:induction false} FileSizes(lengths: seq<nat>, groups: seq<seq<nat>>, where: seq<nat>, k: nat)
    requires |groups| == |where|
    ensures Total(lengths, FileContents(groups, where, k)) == Load(Map(groups, SizeOf(lengths)), where, k)
  {
    if groups != [] {
      var n := |groups| - 1;
      FileSizes(lengths, groups[..n], where[..n], k);
      TotalConcat(lengths, FileContents(groups[..n], where[..n], k), groups[n]);
      assert Map(groups, SizeOf(lengths))[..n] == Map(groups[..n], SizeOf(lengths));
      assert FileContents(groups[..n], where[..n], k) + [] == FileContents(groups[..n], where[..n], k);
    }
  }

  // ---- comparison with any other split ----

  /** The total weight of all groups. */
  function GroupTotal(w: seq<nat>, groups: seq<seq<nat>>): nat {
    if groups == [] then 0
    else GroupTotal(w, groups[..|groups| - 1]) + Total(w, groups[|groups| - 1])
  }

  lemma {:induction false} GroupTotalInsert(w: seq<nat>, sorted: seq<seq<nat>>, group: seq<nat>, size: seq<nat> -> nat)
    ensures GroupTotal(w, Insert(sorted, group, size)) == GroupTotal(w, sorted) + Total(w, group)
  {
    var k := |sorted| - 1;
    if sorted == [] || size(sorted[k]) >= size(group) {
      assert (sorted + [group])[..k + 1] == sorted;
    } else {
      GroupTotalInsert(w, sorted[..k], group, size);
      var rest := Insert(sorted[..k], group, size);
      assert (rest + [sorted[k]])[..|rest|] == rest;
    }
  }

  lemma {:induction false} GroupTotalSort(w: seq<nat>, groups: seq<seq<nat>>, size: seq<nat> -> nat)
    ensures GroupTotal(w, Sort(groups, size)) == GroupTotal(w, groups)
  {
    if groups != [] {
      var k := |groups| - 1;
      GroupTotalSort(w, groups[..k], size);
      GroupTotalInsert(w, Sort(groups[..k], size), groups[k], size);
    }
  }

  lemma {:induction false} GroupTotalAt(w: seq<nat>, groups: seq<seq<nat>>, k: nat, x: nat)
    requires k < |groups| && x < |w|
    ensures GroupTotal(w, groups[k := groups[k] + [x]]) == GroupTotal(w, groups) + w[x]
  {
    var n := |groups| - 1;
    var next := groups[k := groups[k] + [x]];
    if k == n {
      assert next[..n] == groups[..n];
      assert (groups[k] + [x])[..|groups[k]|] == groups[k];
    } else {
      GroupTotalAt(w, groups[..n], k, x);
      assert next[..n] == groups[..n][k := groups[k] + [x]];
    }
  }

  /** The groups carry the weight of all functions. */
  lemma {:induction false} GroupTotalAll(w: seq<nat>, deps: seq<seq<nat>>, i: nat)
    requires i <= |w|
    ensures GroupTotal(w, Groups(deps, i)) == Sum(w[..i])
  {
    if i > 0 {
      GroupTotalAll(w, deps, i - 1);
      GroupTotalPlace(w, deps, Groups(deps, i - 1), i - 1);
      SumOneMore(w, i - 1);
    }
  }

  lemma SumOneMore(w: seq<nat>, i: nat)
    requires i < |w|
    ensures Sum(w[..i + 1]) == Sum(w[..i]) + w[i]
  {
    assert w[..i + 1][..i] == w[..i];
  }

  lemma GroupTotalPlace(w: seq<nat>, deps: seq<seq<nat>>, groups: seq<seq<nat>>, x: nat)
    requires x < |w|
    ensures GroupTotal(w, Place(deps, groups, x)) == GroupTotal(w, groups) + w[x]
  {
    var home := Home(deps, groups, x);
    if home < |groups| {
      GroupTotalAt(w, groups, home, x);
    } else {
      assert (groups + [[x]])[..|groups|] == groups;
      assert Total(w, [x]) == w[x] by {
        assert [x][..0] == [];
      }
    }
  }

  /** The lengths of the functions on file k, zero for the others. */
  function OnFile(lengths: seq<nat>, where: seq<nat>, k: nat): (w: seq<nat>)
    requires |where| == |lengths|
    ensures |w| == |lengths|
    ensures forall i :: 0 <= i < |w| ==> w[i] == if where[i] == k then lengths[i] else 0
  {
    seq(|lengths|, i requires 0 <= i < |lengths| => if where[i] == k then lengths[i] else 0)
  }

  lemma {:induction false} SumOnFile(lengths: seq<nat>, where: seq<nat>, k: nat)
    requires |where| == |lengths|
    ensures Sum(OnFile(lengths, where, k)) == Load(lengths, where, k)
  {
    if lengths != [] {
      var n := |lengths| - 1;
      SumOnFile(lengths[..n], where[..n], k);
      assert OnFile(lengths, where, k)[..n] == OnFile(lengths[..n], where[..n], k);
    }
  }

  /** `where` puts all functions of the group on one file. */
  ghost predicate KeepsTogether(group: seq<nat>, where: seq<nat>) {
    && group != [] && group[0] < |where|
    && forall j :: 0 <= j < |group| ==> group[j] < |where| && where[group[j]] == where[group[0]]
  }

  lemma {:induction false} TotalOnFile(lengths: seq<nat>, where: seq<nat>, k: nat, home: nat, ids: seq<nat>)
    requires |where| == |lengths|
    requires forall j :: 0 <= j < |ids| ==> ids[j] < |where| && where[ids[j]] == home
    ensures Total(OnFile(lengths, where, k), ids) == if home == k then Total(lengths, ids) else 0
  {
    if ids != [] {
      TotalOnFile(lengths, where, k, home, ids[..|ids| - 1]);
    }
  }

  /** Which file `where` gives to a group, by its first function. */
  function HeadFile(where: seq<nat>): seq<nat> -> nat {
    (ids: seq<nat>) => if ids != [] && ids[0] < |where| then where[ids[0]] else 0
  }

  lemma {:induction false} RegroupedLoad(lengths: seq<nat>, where: seq<nat>, k: nat, groups: seq<seq<nat>>)
    requires |where| == |lengths|
    requires forall g :: 0 <= g < |groups| ==> KeepsTogether(groups[g], where)
    ensures Load(Map(groups, SizeOf(lengths)), Map(groups, HeadFile(where)), k) ==
            GroupTotal(OnFile(lengths, where, k), groups)
  {
    if groups != [] {
      var n := |groups| - 1;
      RegroupedLoad(lengths, where, k, groups[..n]);
      assert Map(groups, SizeOf(lengths))[..n] == Map(groups[..n], SizeOf(lengths));
      assert Map(groups, HeadFile(where))[..n] == Map(groups[..n], HeadFile(where));
      assert KeepsTogether(groups[n], where);
      TotalOnFile(lengths, where, k, where[groups[n][0]], groups[n]);
    }
  }

  /** `where` never separates linked functions. */
  ghost predicate RespectsLinks(deps: seq<seq<nat>>, where: seq<nat>) {
    forall x: nat, y: nat :: x < |where| && y < |where| && Linked(deps, x, y) ==> where[x] == where[y]
  }

  lemma GroupKeptTogether(deps: seq<seq<nat>>, where: seq<nat>, k: nat)
    requires RespectsLinks(deps, where) && k < |Groups(deps, |where|)|
    ensures KeepsTogether(Groups(deps, |where|)[k], where)
  {
    var groups := Groups(deps, |where|);
    GroupsPartition(deps, |where|);
    assert LinkedIff(deps, groups[k], groups[k], true);
    forall j | 0 <= j < |groups[k]| ensures groups[k][j] < |where| {
      assert groups[k][j] in groups[k];
      InContents(groups, groups[k][j]);
    }
    forall j | 0 <= j < |groups[k]| ensures where[groups[k][j]] == where[groups[k][0]] {
      assert groups[k][j] in groups[k] && groups[k][0] in groups[k];
      assert Linked(deps, groups[k][j], groups[k][0]);
    }
  }

  lemma GroupsKeptTogether(deps: seq<seq<nat>>, lengths: seq<nat>, where: seq<nat>)
    requires |where| == |lengths| && RespectsLinks(deps, where)
    ensures forall g :: 0 <= g < |SortedGroups(deps, lengths)| ==> KeepsTogether(SortedGroups(deps, lengths)[g], where)
  {
    var groups, sorted := Groups(deps, |lengths|), SortedGroups(deps, lengths);
    SortPermutes(groups, SizeOf(lengths));
    forall g | 0 <= g < |sorted| ensures KeepsTogether(sorted[g], where) {
      assert sorted[g] in multiset(groups);
      var k :| 0 <= k < |groups| && groups[k] == sorted[g];
      GroupKeptTogether(deps, where, k);
    }
  }

  /** The other split, seen on the sorted groups, has the same loads. */
  lemma OtherSplitLoad(deps: seq<seq<nat>>, lengths: seq<nat>, other: seq<nat>, k: nat)
    requires |other| == |lengths| && RespectsLinks(deps, other)
    ensures var groups := SortedGroups(deps, lengths);
            Load(Map(groups, SizeOf(lengths)), Map(groups, HeadFile(other)), k) == Load(lengths, other, k)
  {
    var w := OnFile(lengths, other, k);
    GroupsKeptTogether(deps, lengths, other);
    RegroupedLoad(lengths, other, k, SortedGroups(deps, lengths));
    GroupTotalSort(w, Groups(deps, |lengths|), SizeOf(lengths));
    GroupTotalAll(w, deps, |lengths|);
    assert w[..|lengths|] == w;
    SumOnFile(lengths, other, k);
  }

  /** No file k exceeds 4/3 - 1/(3m) of the largest file of any split that keeps linked functions together. */
  lemma SplitNearBest(deps: seq<seq<nat>>, lengths: seq<nat>, m: nat, other: seq<nat>, cap: nat, k: nat)
    requires k < m
    requires Assignment(other, |lengths|, m) && RespectsLinks(deps, other)
    requires WithinCap(lengths, other, m, cap)
    ensures WithinBound(Total(lengths, SplitFiles(deps, lengths, m)[k]), m, cap)
  {
    var groups := SortedGroups(deps, lengths);
    var sizes, best := Map(groups, SizeOf(lengths)), Map(groups, HeadFile(other));
    GroupsKeptTogether(deps, lengths, other);
    forall j | 0 <= j < |groups| ensures best[j] < m {
      assert KeepsTogether(groups[j], other);
    }
    forall file: nat | file < m ensures Load(sizes, best, file) <= cap {
      OtherSplitLoad(deps, lengths, other, file);
      assert Load(lengths, other, file) <= cap;
    }
    SortDescends(Groups(deps, |lengths|), SizeOf(lengths));
    LongestFirstBound(sizes, best, m, cap);
    FileSizes(lengths, groups, Greedy(sizes, m), k);
  }
}
