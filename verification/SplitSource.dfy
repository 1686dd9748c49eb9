/**
 Splitting a source file into several (SplitSource.php): functions that share a
 dependency name are grouped by union-find, and the groups are packed longest first.
 A group or a file is given by the numbers of its functions; its text is their
 concatenation in that order.
 */
module SplitSource {
  import opened Packing
  import opened StableSort
  import opened UnionFind

  // ---- linked functions ----

  /** Functions x and y are both listed under one dependency name. */
  ghost predicate Shares(deps: seq<seq<nat>>, x: nat, y: nat) {
    exists g :: 0 <= g < |deps| && x in deps[g] && y in deps[g]
  }

  ghost predicate LinkAt(deps: seq<seq<nat>>, chain: seq<nat>, k: nat)
    requires k + 1 < |chain|
  {
    Shares(deps, chain[k], chain[k + 1])
  }

  ghost predicate IsChain(deps: seq<seq<nat>>, chain: seq<nat>) {
    && chain != []
    && forall k: nat :: k < |chain| - 1 ==> LinkAt(deps, chain, k)
  }

  ghost predicate ChainBetween(deps: seq<seq<nat>>, chain: seq<nat>, x: nat, y: nat) {
    IsChain(deps, chain) && chain[0] == x && chain[|chain| - 1] == y
  }

  /** The reflexive and transitive closure of sharing a dependency name. */
  ghost predicate Linked(deps: seq<seq<nat>>, x: nat, y: nat) {
    exists chain :: ChainBetween(deps, chain, x, y)
  }

  lemma LinkedReflexive(deps: seq<seq<nat>>, x: nat)
    ensures Linked(deps, x, x)
  {
    assert ChainBetween(deps, [x], x, x);
  }

  lemma LinkedShares(deps: seq<seq<nat>>, x: nat, y: nat)
    requires Shares(deps, x, y)
    ensures Linked(deps, x, y)
  {
    assert LinkAt(deps, [x, y], 0);
    assert ChainBetween(deps, [x, y], x, y);
  }

  lemma LinkedTransitive(deps: seq<seq<nat>>, x: nat, y: nat, z: nat)
    requires Linked(deps, x, y) && Linked(deps, y, z)
    ensures Linked(deps, x, z)
  {
    var p :| ChainBetween(deps, p, x, y);
    var q :| ChainBetween(deps, q, y, z);
    var chain := p + q[1..];
    forall k: nat | k < |chain| - 1 ensures LinkAt(deps, chain, k) {
      if k < |p| - 1 {
        assert LinkAt(deps, p, k);
      } else {
        assert LinkAt(deps, q, k - |p| + 1);
      }
    }
    assert ChainBetween(deps, chain, x, z);
  }

  lemma LinkedSymmetric(deps: seq<seq<nat>>, x: nat, y: nat)
    requires Linked(deps, x, y)
    ensures Linked(deps, y, x)
  {
    var p :| ChainBetween(deps, p, x, y);
    var chain := seq(|p|, k requires 0 <= k < |p| => p[|p| - 1 - k]);
    forall k: nat | k < |chain| - 1 ensures LinkAt(deps, chain, k) {
      assert LinkAt(deps, p, |p| - 2 - k);
    }
    assert ChainBetween(deps, chain, y, x);
  }

  // ---- connecting the functions ----

  ghost predicate ValidDeps(deps: seq<seq<nat>>, n: nat) {
    forall g :: 0 <= g < |deps| ==> deps[g] != [] && forall k :: 0 <= k < |deps[g]| ==> deps[g][k] < n
  }

  /** Equal roots mean linked functions. */
  ghost predicate Sound(deps: seq<seq<nat>>, f: Forest) {
    forall x: nat, y: nat :: x < |f.root| && y < |f.root| && f.root[x] == f.root[y] ==> Linked(deps, x, y)
  }

  /** The first `count` functions of a dependency name have the root of the first one. */
  ghost predicate Joined(group: seq<nat>, count: nat, f: Forest) {
    && count <= |group|
    && (forall k :: 0 <= k < |group| ==> group[k] < |f.root|)
    && forall k :: 0 <= k < count ==> f.root[group[k]] == f.root[group[0]]
  }

  lemma {:induction false} ChainSameRoot(deps: seq<seq<nat>>, f: Forest, chain: seq<nat>)
    requires forall g :: 0 <= g < |deps| ==> Joined(deps[g], |deps[g]|, f)
    requires IsChain(deps, chain) && chain[0] < |f.root|
    ensures chain[|chain| - 1] < |f.root| && f.root[chain[|chain| - 1]] == f.root[chain[0]]
  {
    if |chain| > 1 {
      var n := |chain| - 1;
      var shorter := chain[..n];
      forall k: nat | k < |shorter| - 1 ensures LinkAt(deps, shorter, k) {
        assert LinkAt(deps, chain, k);
      }
      ChainSameRoot(deps, f, shorter);
      assert LinkAt(deps, chain, n - 1);
      var g :| 0 <= g < |deps| && chain[n - 1] in deps[g] && chain[n] in deps[g];
      assert Joined(deps[g], |deps[g]|, f);
    }
  }

  lemma UnionKeepsSound(deps: seq<seq<nat>>, f: Forest, h: Forest, x: nat, y: nat)
    requires |h.root| == |f.root| && x < |f.root| && y < |f.root|
    requires Sound(deps, f) && Shares(deps, x, y)
    requires forall i, j :: 0 <= i < |f.root| && 0 <= j < |f.root| && h.root[i] == h.root[j] ==>
               || f.root[i] == f.root[j]
               || (f.root[i] == f.root[x] && f.root[j] == f.root[y])
               || (f.root[i] == f.root[y] && f.root[j] == f.root[x])
    ensures Sound(deps, h)
  {
    LinkedShares(deps, x, y);
    LinkedSymmetric(deps, x, y);
    forall i: nat, j: nat | i < |f.root| && j < |f.root| && h.root[i] == h.root[j]
      ensures Linked(deps, i, j)
    {
      if f.root[i] == f.root[j] {
      } else if f.root[i] == f.root[x] && f.root[j] == f.root[y] {
        LinkedTransitive(deps, i, x, y);
        LinkedTransitive(deps, i, y, j);
      } else {
        LinkedTransitive(deps, i, y, x);
        LinkedTransitive(deps, i, x, j);
      }
    }
  }

  /** After all unions two functions have the same root exactly when they are linked. */
  method ConnectAll(n: nat, deps: seq<seq<nat>>) returns (parents: array<nat>, ghost f: Forest)
    requires ValidDeps(deps, n)
    ensures fresh(parents) && parents.Length == n
    ensures Represents(parents[..], f)
    ensures RootsAreLinks(f, deps)
  {
    parents := new nat[n](i => i);
    f := Singletons(n);
    assert parents[..] == seq(n, i => i);
    forall x: nat ensures Linked(deps, x, x) {
      LinkedReflexive(deps, x);
    }
    for g := 0 to |deps|
      invariant Represents(parents[..], f) && Sound(deps, f)
      invariant forall h :: 0 <= h < g ==> Joined(deps[h], |deps[h]|, f)
    {
      for k := 0 to |deps[g]|
        invariant Represents(parents[..], f) && Sound(deps, f)
        invariant forall h :: 0 <= h < g ==> Joined(deps[h], |deps[h]|, f)
        invariant Joined(deps[g], k, f)
      {
        ghost var before := f;
        f := Union(parents, deps[g][0], deps[g][k], f);
        UnionKeepsSound(deps, before, f, deps[g][0], deps[g][k]);
      }
    }
    forall x: nat, y: nat | x < n && y < n && Linked(deps, x, y)
      ensures f.root[x] == f.root[y]
    {
      var chain :| ChainBetween(deps, chain, x, y);
      ChainSameRoot(deps, f, chain);
    }
  }

  // ---- grouping ----

  /** Group k is the one whose functions are linked with function x. */
  ghost predicate IsHome(deps: seq<seq<nat>>, groups: seq<seq<nat>>, x: nat, k: nat) {
    k < |groups| && groups[k] != [] && Linked(deps, groups[k][0], x)
  }

  /** The position of the group linked with function x, or one past the last group. */
  ghost function Home(deps: seq<seq<nat>>, groups: seq<seq<nat>>, x: nat): (home: nat)
    ensures home <= |groups|
    ensures home < |groups| ==> IsHome(deps, groups, x, home)
    ensures home == |groups| ==> forall k: nat :: !IsHome(deps, groups, x, k)
  {
    if k: nat :| IsHome(deps, groups, x, k) then k else |groups|
  }

  ghost function Place(deps: seq<seq<nat>>, groups: seq<seq<nat>>, x: nat): seq<seq<nat>> {
    var home := Home(deps, groups, x);
    if home < |groups| then groups[home := groups[home] + [x]] else groups + [[x]]
  }

  /** The groups of linked functions among the first i, in order of their first function. */
  ghost function Groups(deps: seq<seq<nat>>, i: nat): seq<seq<nat>> {
    if i == 0 then [] else Place(deps, Groups(deps, i - 1), i - 1)
  }

  /** How often each function occurs in a sequence of groups or files. */
  function Contents(groups: seq<seq<nat>>): multiset<nat> {
    if groups == [] then multiset{}
    else Contents(groups[..|groups| - 1]) + multiset(groups[|groups| - 1])
  }

  /** Each of the functions below n occurs exactly once, and nothing else does. */
  ghost predicate EachOnce(groups: seq<seq<nat>>, n: nat) {
    forall x: nat :: Contents(groups)[x] == if x < n then 1 else 0
  }

  lemma OneMore(groups: seq<seq<nat>>, next: seq<seq<nat>>, n: nat)
    requires EachOnce(groups, n)
    requires Contents(next) == Contents(groups) + multiset{n}
    ensures EachOnce(next, n + 1)
  {}

  lemma {:induction false} ContentsAt(groups: seq<seq<nat>>, k: nat, more: seq<nat>)
    requires k < |groups|
    ensures Contents(groups[k := groups[k] + more]) == Contents(groups) + multiset(more)
  {
    var n := |groups| - 1;
    var next := groups[k := groups[k] + more];
    if k == n {
      assert next[..n] == groups[..n];
    } else {
      ContentsAt(groups[..n], k, more);
      assert next[..n] == groups[..n][k := groups[k] + more];
    }
  }

  /** No group is empty, and two functions are in one group exactly when they are linked. */
  ghost predicate Separated(deps: seq<seq<nat>>, groups: seq<seq<nat>>) {
    && (forall k :: 0 <= k < |groups| ==> groups[k] != [])
    && forall k, l :: 0 <= k < |groups| && 0 <= l < |groups| ==> LinkedIff(deps, groups[k], groups[l], k == l)
  }

  ghost predicate LinkedIff(deps: seq<seq<nat>>, g: seq<nat>, h: seq<nat>, linked: bool) {
    forall a, b :: a in g && b in h ==> (Linked(deps, a, b) <==> linked)
  }

  /** Function x is linked with the functions of group `home` and with no others. */
  ghost predicate LinkedOnlyWith(deps: seq<seq<nat>>, groups: seq<seq<nat>>, x: nat, home: nat) {
    forall k :: 0 <= k < |groups| ==>
      LinkedIff(deps, groups[k], [x], k == home) && LinkedIff(deps, [x], groups[k], k == home)
  }

  lemma HomeIsOnlyLink(deps: seq<seq<nat>>, groups: seq<seq<nat>>, x: nat, home: nat)
    requires Separated(deps, groups)
    requires IsHome(deps, groups, x, home)
             || (home == |groups| && forall k: nat :: !IsHome(deps, groups, x, k))
    ensures LinkedOnlyWith(deps, groups, x, home)
  {
    forall k, a | 0 <= k < |groups| && a in groups[k]
      ensures Linked(deps, a, x) <==> k == home
      ensures Linked(deps, x, a) <==> k == home
    {
      var own := groups[k][0];
      LinkedBothWays(deps, a, x);
      LinkedBothWays(deps, own, x);
      assert LinkedIff(deps, groups[k], groups[k], true);
      assert Linked(deps, own, a) && Linked(deps, a, own);
      LinkedThrough(deps, own, a, x);
      LinkedThrough(deps, a, own, x);
      assert Linked(deps, a, x) <==> Linked(deps, own, x);
      OnlyHomeIsLinked(deps, groups, x, home, k);
    }
  }

  lemma LinkedThrough(deps: seq<seq<nat>>, x: nat, y: nat, z: nat)
    ensures Linked(deps, x, y) && Linked(deps, y, z) ==> Linked(deps, x, z)
  {
    if Linked(deps, x, y) && Linked(deps, y, z) {
      LinkedTransitive(deps, x, y, z);
    }
  }

  lemma OnlyHomeIsLinked(deps: seq<seq<nat>>, groups: seq<seq<nat>>, x: nat, home: nat, k: nat)
    requires Separated(deps, groups) && k < |groups|
    requires IsHome(deps, groups, x, home)
             || (home == |groups| && forall k: nat :: !IsHome(deps, groups, x, k))
    ensures Linked(deps, groups[k][0], x) <==> k == home
  {
    assert IsHome(deps, groups, x, k) <==> Linked(deps, groups[k][0], x);
    if home < |groups| {
      assert LinkedIff(deps, groups[k], groups[home], k == home);
      assert Linked(deps, groups[k][0], groups[home][0]) <==> k == home;
      LinkedBothWays(deps, groups[home][0], x);
      LinkedThrough(deps, groups[k][0], x, groups[home][0]);
    }
  }

  lemma PlaceSeparates(deps: seq<seq<nat>>, groups: seq<seq<nat>>, x: nat)
    requires Separated(deps, groups)
    ensures Separated(deps, Place(deps, groups, x))
    ensures Contents(Place(deps, groups, x)) == Contents(groups) + multiset{x}
  {
    var next := Place(deps, groups, x);
    var home := Home(deps, groups, x);
    if home < |groups| {
      ContentsAt(groups, home, [x]);
    } else {
      assert next[..|groups|] == groups;
    }
    HomeIsOnlyLink(deps, groups, x, home);
    LinkedReflexive(deps, x);
    forall k, l | 0 <= k < |next| && 0 <= l < |next| ensures LinkedIff(deps, next[k], next[l], k == l) {
      PlacedLink(deps, groups, next, x, home, k, l);
    }
  }

  lemma PlacedLink(deps: seq<seq<nat>>, groups: seq<seq<nat>>, next: seq<seq<nat>>, x: nat, home: nat, k: nat, l: nat)
    requires Separated(deps, groups) && LinkedOnlyWith(deps, groups, x, home) && Linked(deps, x, x)
    requires k < |next| && l < |next|
    requires forall j :: 0 <= j < |next| ==>
               next[j] == (if j < |groups| then groups[j] else []) + (if j == home then [x] else [])
    ensures LinkedIff(deps, next[k], next[l], k == l)
  {
    forall a, b | a in next[k] && b in next[l] ensures Linked(deps, a, b) <==> k == l {
      if k < |groups| && a in groups[k] {
        if l < |groups| && b in groups[l] {
          assert LinkedIff(deps, groups[k], groups[l], k == l);
        } else {
          assert LinkedIff(deps, groups[k], [x], k == home);
          assert b in [x];
        }
      } else if l < |groups| && b in groups[l] {
        assert LinkedIff(deps, [x], groups[l], l == home);
        assert a in [x];
      }
    }
  }

  lemma LinkedBothWays(deps: seq<seq<nat>>, x: nat, y: nat)
    ensures Linked(deps, x, y) <==> Linked(deps, y, x)
  {
    if Linked(deps, x, y) {
      LinkedSymmetric(deps, x, y);
    } else if Linked(deps, y, x) {
      LinkedSymmetric(deps, y, x);
    }
  }

  lemma GroupsStep(deps: seq<seq<nat>>, n: nat, groups: seq<seq<nat>>)
    requires groups == Groups(deps, n) && Separated(deps, groups) && EachOnce(groups, n)
    ensures Separated(deps, Groups(deps, n + 1)) && EachOnce(Groups(deps, n + 1), n + 1)
  {
    PlaceSeparates(deps, groups, n);
    OneMore(groups, Place(deps, groups, n), n);
  }

  /** Every function is in exactly one group, and groups are the classes of linked functions. */
  lemma {:induction false} GroupsPartition(deps: seq<seq<nat>>, n: nat)
    ensures Separated(deps, Groups(deps, n))
    ensures EachOnce(Groups(deps, n), n)
  {
    if n == 0 {
      assert Groups(deps, 0) == [];
    } else {
      GroupsPartition(deps, n - 1);
      GroupsStep(deps, n - 1, Groups(deps, n - 1));
    }
  }

  // ---- the files ----

  /** The text size of a list of functions, given the length of every function. */
  function Total(lengths: seq<nat>, ids: seq<nat>): nat {
    if ids == [] then 0
    else
      var last := ids[|ids| - 1];
      Total(lengths, ids[..|ids| - 1]) + if last < |lengths| then lengths[last] else 0
  }

  function SizeOf(lengths: seq<nat>): seq<nat> -> nat {
    (ids: seq<nat>) => Total(lengths, ids)
  }

  /** What file k receives when group j goes to file where[j]. */
  function FileContents(groups: seq<seq<nat>>, where: seq<nat>, k: nat): seq<nat>
    requires |groups| == |where|
  {
    if groups == [] then []
    else
      var n := |groups| - 1;
      FileContents(groups[..n], where[..n], k) + if where[n] == k then groups[n] else []
  }

  function AllFiles(groups: seq<seq<nat>>, where: seq<nat>, m: nat): (files: seq<seq<nat>>)
    requires |groups| == |where|
    ensures |files| == m
    ensures forall k :: 0 <= k < m ==> files[k] == FileContents(groups, where, k)
  {
    seq(m, k requires 0 <= k < m => FileContents(groups, where, k))
  }

  ghost function SortedGroups(deps: seq<seq<nat>>, lengths: seq<nat>): seq<seq<nat>> {
    Sort(Groups(deps, |lengths|), SizeOf(lengths))
  }

  /** The split that the source produces. It depends on no coin flip. */
  ghost function SplitFiles(deps: seq<seq<nat>>, lengths: seq<nat>, m: nat): (files: seq<seq<nat>>)
    requires m > 0
    ensures |files| == m
  {
    var groups := SortedGroups(deps, lengths);
    AllFiles(groups, Greedy(Map(groups, SizeOf(lengths)), m), m)
  }

  function Lengths(functions: seq<string>): (lengths: seq<nat>)
    ensures |lengths| == |functions|
    ensures forall i :: 0 <= i < |functions| ==> lengths[i] == |functions[i]|
  {
    seq(|functions|, i requires 0 <= i < |functions| => |functions[i]|)
  }

  datatype SplitResult = TooSmall | Split(files: seq<seq<nat>>)

  predicate SameRoot(f: Forest, x: nat, y: nat) {
    x < |f.root| && y < |f.root| && f.root[x] == f.root[y]
  }

  /** Two functions have the same root exactly if they are linked. */
  ghost predicate RootsAreLinks(f: Forest, deps: seq<seq<nat>>) {
    forall x: nat, y: nat :: x < |f.root| && y < |f.root| ==> (SameRoot(f, x, y) <==> Linked(deps, x, y))
  }

  /** The function numbers of every set, the sets' sizes, and the order of their creation. */
  ghost predicate Grouped(f: Forest, lengths: seq<nat>, groups: seq<seq<nat>>,
                          order: seq<nat>, sets: map<nat, seq<nat>>, setSizes: map<nat, nat>)
  {
    && |order| == |groups|
    && (forall k :: 0 <= k < |order| ==> GroupAt(f, lengths, groups[k], order[k], sets, setSizes))
    && (forall parent :: parent in sets ==> parent in order)
    && sets.Keys == setSizes.Keys
  }

  ghost predicate GroupAt(f: Forest, lengths: seq<nat>, group: seq<nat>, parent: nat,
                          sets: map<nat, seq<nat>>, setSizes: map<nat, nat>)
  {
    && group != [] && group[0] < |f.root| && f.root[group[0]] == parent
    && parent in sets && sets[parent] == group
    && parent in setSizes && setSizes[parent] == Total(lengths, group)
  }

  /** The set of the root of x, if it exists already, is the group that x belongs to. */
  lemma RootFindsHome(deps: seq<seq<nat>>, f: Forest, lengths: seq<nat>, groups: seq<seq<nat>>, x: nat,
                      order: seq<nat>, sets: map<nat, seq<nat>>, setSizes: map<nat, nat>)
    requires x < |f.root|
    requires RootsAreLinks(f, deps)
    requires Separated(deps, groups)
    requires Grouped(f, lengths, groups, order, sets, setSizes)
    ensures forall k :: 0 <= k < |order| ==> (order[k] == f.root[x] <==> k == Home(deps, groups, x))
  {
    var home := Home(deps, groups, x);
    HomeIsOnlyLink(deps, groups, x, home);
    forall k | 0 <= k < |order| ensures order[k] == f.root[x] <==> k == home {
      assert GroupAt(f, lengths, groups[k], order[k], sets, setSizes);
      assert LinkedIff(deps, groups[k], [x], k == home);
      assert groups[k][0] in groups[k] && x in [x];
      assert SameRoot(f, groups[k][0], x) <==> Linked(deps, groups[k][0], x);
    }
  }

  /** Adding function x to the set of its root adds it to the group at `home`. */
  lemma GroupedStep(f: Forest, lengths: seq<nat>, groups: seq<seq<nat>>, x: nat, home: nat,
                    order: seq<nat>, sets: map<nat, seq<nat>>, setSizes: map<nat, nat>)
    requires |f.root| == |lengths| && x < |lengths| && home <= |groups|
    requires Grouped(f, lengths, groups, order, sets, setSizes)
    requires forall k :: 0 <= k < |order| ==> (order[k] == f.root[x] <==> k == home)
    requires home < |groups| ==> groups[home] != []
    ensures var parent := f.root[x];
            var next := if home < |groups| then groups[home := groups[home] + [x]] else groups + [[x]];
            && (parent in sets <==> home < |groups|)
            && (parent in sets ==>
                  Grouped(f, lengths, next, order, sets[parent := sets[parent] + [x]],
                          setSizes[parent := setSizes[parent] + lengths[x]]))
            && (parent !in sets ==>
                  Grouped(f, lengths, next, order + [parent], sets[parent := [x]], setSizes[parent := lengths[x]]))
  {
    var parent := f.root[x];
    if home < |groups| {
      assert GroupAt(f, lengths, groups[home], order[home], sets, setSizes);
      GroupGrows(f, lengths, groups, x, home, order, sets, setSizes);
    } else {
      assert parent !in order;
      GroupBegins(f, lengths, groups, x, order, sets, setSizes);
    }
  }

  lemma GroupGrows(f: Forest, lengths: seq<nat>, groups: seq<seq<nat>>, x: nat, home: nat,
                   order: seq<nat>, sets: map<nat, seq<nat>>, setSizes: map<nat, nat>)
    requires |f.root| == |lengths| && x < |lengths| && home < |groups|
    requires Grouped(f, lengths, groups, order, sets, setSizes)
    requires forall k :: 0 <= k < |order| ==> (order[k] == f.root[x] <==> k == home)
    ensures var parent := f.root[x];
      parent in sets && Grouped(f, lengths, groups[home := groups[home] + [x]], order,
                                sets[parent := sets[parent] + [x]], setSizes[parent := setSizes[parent] + lengths[x]])
  {
    var parent := f.root[x];
    assert GroupAt(f, lengths, groups[home], order[home], sets, setSizes);
    var next := groups[home := groups[home] + [x]];
    assert next[home][..|groups[home]|] == groups[home];
    forall k | 0 <= k < |order|
      ensures GroupAt(f, lengths, next[k], order[k], sets[parent := sets[parent] + [x]],
                      setSizes[parent := setSizes[parent] + lengths[x]])
    {
      assert GroupAt(f, lengths, groups[k], order[k], sets, setSizes);
    }
  }

  lemma GroupBegins(f: Forest, lengths: seq<nat>, groups: seq<seq<nat>>, x: nat,
                    order: seq<nat>, sets: map<nat, seq<nat>>, setSizes: map<nat, nat>)
    requires |f.root| == |lengths| && x < |lengths|
    requires Grouped(f, lengths, groups, order, sets, setSizes) && f.root[x] !in order
    ensures var parent := f.root[x];
      Grouped(f, lengths, groups + [[x]], order + [parent], sets[parent := [x]], setSizes[parent := lengths[x]])
  {
    var parent := f.root[x];
    assert Total(lengths, [x]) == lengths[x] by {
      assert [x][..0] == [];
    }
    forall k | 0 <= k < |order|
      ensures GroupAt(f, lengths, groups[k], order[k], sets[parent := [x]], setSizes[parent := lengths[x]])
    {
      assert GroupAt(f, lengths, groups[k], order[k], sets, setSizes);
    }
  }

  /** Collects the sets by root, in order of their first function. */
  method GroupFunctions(deps: seq<seq<nat>>, functions: seq<string>, parents: array<nat>, ghost f: Forest)
    returns (order: seq<nat>, sets: map<nat, seq<nat>>, setSizes: map<nat, nat>)
    requires parents.Length == |functions| && Represents(parents[..], f)
    requires RootsAreLinks(f, deps)
    modifies parents
    ensures Grouped(f, Lengths(functions), Groups(deps, |functions|), order, sets, setSizes)
  {
    order, sets, setSizes := [], map[], map[];
    for i := 0 to |functions|
      invariant Represents(parents[..], f)
      invariant Grouped(f, Lengths(functions), Groups(deps, i), order, sets, setSizes)
    {
      var parent := Find(parents, i, f);
      order, sets, setSizes := AddFunction(deps, functions, f, i, parent, order, sets, setSizes);
    }
  }

  method AddFunction(ghost deps: seq<seq<nat>>, functions: seq<string>, ghost f: Forest, i: nat, parent: nat,
                     order: seq<nat>, sets: map<nat, seq<nat>>, setSizes: map<nat, nat>)
    returns (order': seq<nat>, sets': map<nat, seq<nat>>, setSizes': map<nat, nat>)
    requires |f.root| == |functions| && i < |functions| && parent == f.root[i] && RootsAreLinks(f, deps)
    requires Grouped(f, Lengths(functions), Groups(deps, i), order, sets, setSizes)
    ensures Grouped(f, Lengths(functions), Groups(deps, i + 1), order', sets', setSizes')
  {
    GroupedNext(deps, f, Lengths(functions), i, order, sets, setSizes);
    order', sets', setSizes' := AddToSet(order, sets, setSizes, parent, i, |functions[i]|);
  }

  /** What adding a function to the set of its root makes of the sets. */
  function Added(order: seq<nat>, sets: map<nat, seq<nat>>, setSizes: map<nat, nat>, parent: nat, x: nat, length: nat)
    : (seq<nat>, map<nat, seq<nat>>, map<nat, nat>)
    requires sets.Keys == setSizes.Keys
  {
    if parent in sets then
      (order, sets[parent := sets[parent] + [x]], setSizes[parent := setSizes[parent] + length])
    else
      (order + [parent], sets[parent := [x]], setSizes[parent := length])
  }

  method AddToSet(order: seq<nat>, sets: map<nat, seq<nat>>, setSizes: map<nat, nat>, parent: nat, x: nat, length: nat)
    returns (order': seq<nat>, sets': map<nat, seq<nat>>, setSizes': map<nat, nat>)
    requires sets.Keys == setSizes.Keys
    ensures (order', sets', setSizes') == Added(order, sets, setSizes, parent, x, length)
  {
    order', sets', setSizes' := order, sets, setSizes;
    if parent !in sets' {
      order' := order' + [parent];
      sets' := sets'[parent := []];
      setSizes' := setSizes'[parent := 0];
    }
    sets' := sets'[parent := sets'[parent] + [x]];
    setSizes' := setSizes'[parent := setSizes'[parent] + length];
    assert [] + [x] == [x];
    assert sets' == Added(order, sets, setSizes, parent, x, length).1;
    assert setSizes' == Added(order, sets, setSizes, parent, x, length).2;
  }

  lemma GroupedNext(deps: seq<seq<nat>>, f: Forest, lengths: seq<nat>, x: nat,
                    order: seq<nat>, sets: map<nat, seq<nat>>, setSizes: map<nat, nat>)
    requires |f.root| == |lengths| && x < |lengths|
    requires RootsAreLinks(f, deps)
    requires Grouped(f, lengths, Groups(deps, x), order, sets, setSizes)
    ensures var (order', sets', setSizes') := Added(order, sets, setSizes, f.root[x], x, lengths[x]);
            Grouped(f, lengths, Groups(deps, x + 1), order', sets', setSizes')
  {
    var groups := Groups(deps, x);
    GroupsPartition(deps, x);
    RootFindsHome(deps, f, lengths, groups, x, order, sets, setSizes);
    GroupedStep(f, lengths, groups, x, Home(deps, groups, x), order, sets, setSizes);
    assert Groups(deps, x + 1) == Place(deps, groups, x);
  }

  /** Gives each set, in the given order, to the file that is the smallest so far. */
  method PackFiles(order: seq<nat>, sets: map<nat, seq<nat>>, setSizes: map<nat, nat>, chunks: nat,
                   ghost groups: seq<seq<nat>>, ghost sizes: seq<nat>)
    returns (files: seq<seq<nat>>)
    requires chunks > 0
    requires Listed(order, sets, setSizes, groups, sizes)
    ensures files == AllFiles(groups, Greedy(sizes, chunks), chunks)
  {
    files := seq(chunks, _ => []);
    var fileSizes := seq(chunks, _ => 0);
    ghost var where: seq<nat> := [];
    for i := 0 to |order|
      invariant where == Greedy(sizes[..i], chunks)
      invariant fileSizes == Loads(sizes[..i], where, chunks)
      invariant files == AllFiles(groups[..i], where, chunks)
    {
      assert ListedAt(order, sets, setSizes, groups, sizes, i);
      var fileId := FindSmallest(fileSizes);
      PackStep(sizes, chunks, i, where, fileId);
      AllFilesStep(groups, where, chunks, i, fileId);
      where := where + [fileId];
      files := files[fileId := files[fileId] + sets[order[i]]];
      fileSizes := fileSizes[fileId := fileSizes[fileId] + setSizes[order[i]]];
    }
    assert sizes[..|order|] == sizes && groups[..|order|] == groups;
  }

  predicate ListedAt(order: seq<nat>, sets: map<nat, seq<nat>>, setSizes: map<nat, nat>,
                     groups: seq<seq<nat>>, sizes: seq<nat>, k: nat)
    requires k < |order| == |groups| == |sizes|
  {
    && order[k] in sets && sets[order[k]] == groups[k]
    && order[k] in setSizes && setSizes[order[k]] == sizes[k]
  }

  /** The sets and their sizes, in the given order. */
  ghost predicate Listed(order: seq<nat>, sets: map<nat, seq<nat>>, setSizes: map<nat, nat>,
                         groups: seq<seq<nat>>, sizes: seq<nat>)
  {
    |order| == |groups| == |sizes|
    && forall k: nat :: k < |order| ==> ListedAt(order, sets, setSizes, groups, sizes, k)
  }

  function SetSize(setSizes: map<nat, nat>): nat -> nat {
    (parent: nat) => if parent in setSizes then setSizes[parent] else 0
  }

  function SetAt(sets: map<nat, seq<nat>>): nat -> seq<nat> {
    (parent: nat) => if parent in sets then sets[parent] else []
  }

  lemma AllFilesStep(groups: seq<seq<nat>>, where: seq<nat>, m: nat, i: nat, at: nat)
    requires i < |groups| && |where| == i && at < m
    ensures AllFiles(groups[..i + 1], where + [at], m) ==
            AllFiles(groups[..i], where, m)[at := AllFiles(groups[..i], where, m)[at] + groups[i]]
  {
    assert groups[..i + 1][..i] == groups[..i] && (where + [at])[..i] == where;
    var more := groups[..i + 1];
    forall k: nat | k < m
      ensures FileContents(more, where + [at], k) ==
              FileContents(groups[..i], where, k) + if at == k then groups[i] else []
    {}
    assert forall k: nat :: k < m && k != at ==>
        FileContents(more, where + [at], k) == FileContents(groups[..i], where, k);
  }

  /** Splits the functions into `chunks` files. The unions flip coins, the outcome does not. */
  method SplitFile(functions: seq<string>, deps: seq<seq<nat>>, chunks: nat) returns (result: SplitResult)
    requires chunks > 0
    requires ValidDeps(deps, |functions|)
    ensures result == if |functions| < chunks then TooSmall else Split(SplitFiles(deps, Lengths(functions), chunks))
  {
    if |functions| < chunks {
      return TooSmall;
    }
    var parents, f := ConnectAll(|functions|, deps);
    var order, sets, setSizes := GroupFunctions(deps, functions, parents, f);
    var sorted := Sort(order, SetSize(setSizes));
    SortedKeys(f, Lengths(functions), Groups(deps, |functions|), order, sets, setSizes);
    var files := PackFiles(sorted, sets, setSizes, chunks,
                           Map(sorted, SetAt(sets)), Map(sorted, SetSize(setSizes)));
    result := Split(files);
  }

  /** Sorting the roots by set size sorts the groups by text size. */
  lemma SortedKeys(f: Forest, lengths: seq<nat>, groups: seq<seq<nat>>,
                   order: seq<nat>, sets: map<nat, seq<nat>>, setSizes: map<nat, nat>)
    requires Grouped(f, lengths, groups, order, sets, setSizes)
    ensures var sorted := Sort(order, SetSize(setSizes));
            && (forall k :: 0 <= k < |sorted| ==> sorted[k] in sets && sorted[k] in setSizes)
            && Map(sorted, SetAt(sets)) == Sort(groups, SizeOf(lengths))
            && Map(sorted, SetSize(setSizes)) == Map(Sort(groups, SizeOf(lengths)), SizeOf(lengths))
  {
    var sorted := Sort(order, SetSize(setSizes));
    forall k | 0 <= k < |order|
      ensures SetAt(sets)(order[k]) == groups[k]
      ensures SizeOf(lengths)(SetAt(sets)(order[k])) == SetSize(setSizes)(order[k])
    {
      assert GroupAt(f, lengths, groups[k], order[k], sets, setSizes);
    }
    assert Map(order, SetAt(sets)) == groups;
    SortCommutes(order, SetSize(setSizes), SetAt(sets), SizeOf(lengths));
    SortPermutes(order, SetSize(setSizes));
    forall k | 0 <= k < |sorted|
      ensures sorted[k] in sets && sorted[k] in setSizes
      ensures SetSize(setSizes)(sorted[k]) == SizeOf(lengths)(SetAt(sets)(sorted[k]))
    {
      assert sorted[k] in multiset(order);
      var j :| 0 <= j < |order| && order[j] == sorted[k];
      assert GroupAt(f, lengths, groups[j], order[j], sets, setSizes);
    }
  }
}
