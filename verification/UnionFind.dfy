/**
 The disjoint-set forest of the source splitter: recursive find with full path
 compression, and union that links the two roots in a random direction.
 */
module UnionFind {

  /** What a parent array stands for: the root of every element, and a measure that
      strictly falls along every parent link. */
  datatype Forest = Forest(root: seq<nat>, depth: seq<nat>)

  ghost predicate Represents(parents: seq<nat>, f: Forest) {
    && |f.root| == |f.depth| == |parents|
    && forall x: nat :: x < |parents| ==> WellLinked(parents, f, x)
  }

  /** The link of x stays inside its set, falls towards the root, and ends there. */
  ghost predicate WellLinked(parents: seq<nat>, f: Forest, x: nat)
    requires |f.root| == |f.depth| == |parents| && x < |parents|
  {
    var up, root := parents[x], f.root[x];
    && up < |parents| && root < |parents|
    && f.root[up] == root && f.root[root] == root && parents[root] == root
    && (up == x <==> root == x)
    && (up != x ==> f.depth[up] < f.depth[x])
  }

  /** Every element on its own. */
  function Singletons(n: nat): (f: Forest)
    ensures Represents(seq(n, i => i), f)
    ensures forall x, y :: 0 <= x < n && 0 <= y < n ==> (f.root[x] == f.root[y] <==> x == y)
  {
    Forest(seq(n, i => i), seq(n, i => 0))
  }

  /** The forest after root a has been hung below root b. */
  function Link(f: Forest, a: nat, b: nat): (g: Forest)
    requires |f.root| == |f.depth| && b < |f.root|
    ensures |g.root| == |g.depth| == |f.root|
    ensures forall x :: 0 <= x < |f.root| ==> g.root[x] == if f.root[x] == a then b else f.root[x]
  {
    Forest(
      seq(|f.root|, x requires 0 <= x < |f.root| => if f.root[x] == a then b else f.root[x]),
      seq(|f.root|, x requires 0 <= x < |f.root| => f.depth[x] + if f.root[x] == a then f.depth[b] + 1 else 0))
  }

  lemma LinkRepresents(parents: seq<nat>, f: Forest, a: nat, b: nat)
    requires Represents(parents, f)
    requires a < |parents| && b < |parents| && a != b
    requires f.root[a] == a && f.root[b] == b
    ensures Represents(parents[a := b], Link(f, a, b))
  {
    var g := Link(f, a, b);
    assert WellLinked(parents, f, a) && WellLinked(parents, f, b);
    var linked := parents[a := b];
    forall x: nat | x < |parents| ensures WellLinked(linked, g, x) {
      assert WellLinked(parents, f, x);
      assert WellLinked(parents, f, parents[x]);
    }
  }

  /** Shortening one link to the root changes no root. */
  lemma CompressRepresents(parents: seq<nat>, f: Forest, x: nat)
    requires Represents(parents, f) && x < |parents|
    requires WellLinked(parents, f, x) && f.root[x] != x ==> f.depth[f.root[x]] < f.depth[x]
    ensures Represents(parents[x := f.root[x]], f)
  {
    var root := f.root[x];
    assert WellLinked(parents, f, x);
    var shortened := parents[x := root];
    forall z: nat | z < |parents| ensures WellLinked(shortened, f, z) {
      assert WellLinked(parents, f, z);
    }
  }

  method Find(parents: array<nat>, x: nat, ghost f: Forest) returns (root: nat)
    requires Represents(parents[..], f)
    requires x < parents.Length
    modifies parents
    ensures Represents(parents[..], f)
    ensures root < parents.Length && x < |f.root|
    ensures root == f.root[x] && parents[x] == root
    ensures f.depth[root] <= f.depth[x]
    decreases f.depth[x]
  {
    assert WellLinked(parents[..], f, x);
    if parents[x] != x {
      root := Find(parents, parents[x], f);
      ghost var before := parents[..];
      CompressRepresents(before, f, x);
      parents[x] := root;
      assert parents[..] == before[x := root];
    } else {
      root := x;
    }
  }

  /** Joins the sets of x and y. Which root survives is decided by a coin flip. */
  method Union(parents: array<nat>, x: nat, y: nat, ghost f: Forest) returns (ghost g: Forest)
    requires Represents(parents[..], f)
    requires x < parents.Length && y < parents.Length
    modifies parents
    ensures Represents(parents[..], g)
    ensures g.root[x] == g.root[y]
    ensures forall i, j :: 0 <= i < parents.Length && 0 <= j < parents.Length ==>
              (g.root[i] == g.root[j] <==>
               || f.root[i] == f.root[j]
               || (f.root[i] == f.root[x] && f.root[j] == f.root[y])
               || (f.root[i] == f.root[y] && f.root[j] == f.root[x]))
  {
    var a := Find(parents, x, f);
    var b := Find(parents, y, f);
    assert WellLinked(parents[..], f, x) && WellLinked(parents[..], f, y);
    g := f;
    if a != b {
      var heads := *;
      if heads {
        LinkRepresents(parents[..], f, a, b);
        g := Link(f, a, b);
        ghost var before := parents[..];
        parents[a] := b;
        assert parents[..] == before[a := b];
      } else {
        LinkRepresents(parents[..], f, b, a);
        g := Link(f, b, a);
        ghost var before := parents[..];
        parents[b] := a;
        assert parents[..] == before[b := a];
      }
    }
  }
}
