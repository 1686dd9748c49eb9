/**
 Sorting by descending size that keeps the order of equal sizes, which is what PHP's
 arsort does with the sizes of the function groups.
 */
module StableSort {

  function Insert<T>(sorted: seq<T>, x: T, size: T -> nat): seq<T> {
    if sorted == [] || size(sorted[|sorted| - 1]) >= size(x) then sorted + [x]
    else Insert(sorted[..|sorted| - 1], x, size) + [sorted[|sorted| - 1]]
  }

  function Sort<T>(items: seq<T>, size: T -> nat): seq<T> {
    if items == [] then []
    else Insert(Sort(items[..|items| - 1], size), items[|items| - 1], size)
  }

  ghost predicate DescendingBy<T>(items: seq<T>, size: T -> nat) {
    forall i, j :: 0 <= i <= j < |items| ==> size(items[i]) >= size(items[j])
  }

  /** The items of one size, in order. */
  function OfSize<T>(items: seq<T>, size: T -> nat, n: nat): seq<T> {
    if items == [] then []
    else OfSize(items[..|items| - 1], size, n) +
         (if size(items[|items| - 1]) == n then [items[|items| - 1]] else [])
  }

  lemma {:induction false} InsertAdds<T>(sorted: seq<T>, x: T, size: T -> nat)
    ensures multiset(Insert(sorted, x, size)) == multiset(sorted) + multiset{x}
  {
    var k := |sorted| - 1;
    if sorted != [] && size(sorted[k]) < size(x) {
      InsertAdds(sorted[..k], x, size);
      assert sorted[..k] + [sorted[k]] == sorted;
    }
  }

  lemma {:induction false} InsertDescending<T>(sorted: seq<T>, x: T, size: T -> nat)
    requires DescendingBy(sorted, size)
    ensures DescendingBy(Insert(sorted, x, size), size)
  {
    var k := |sorted| - 1;
    if sorted != [] && size(sorted[k]) < size(x) {
      InsertDescending(sorted[..k], x, size);
      InsertAdds(sorted[..k], x, size);
      InsertBound(sorted, x, size, Insert(sorted[..k], x, size));
    }
  }

  lemma InsertBound<T>(sorted: seq<T>, x: T, size: T -> nat, rest: seq<T>)
    requires sorted != [] && DescendingBy(sorted, size) && DescendingBy(rest, size)
    requires size(sorted[|sorted| - 1]) < size(x)
    requires multiset(rest) == multiset(sorted[..|sorted| - 1]) + multiset{x}
    ensures DescendingBy(rest + [sorted[|sorted| - 1]], size)
  {
    var last := sorted[|sorted| - 1];
    forall i | 0 <= i < |rest| ensures size(rest[i]) >= size(last) {
      assert rest[i] in multiset(rest);
      if rest[i] in sorted[..|sorted| - 1] {
        var j :| 0 <= j < |sorted| - 1 && sorted[j] == rest[i];
      }
    }
  }

  lemma {:induction false} InsertStable<T>(sorted: seq<T>, x: T, size: T -> nat, n: nat)
    ensures OfSize(Insert(sorted, x, size), size, n) == OfSize(sorted, size, n) + if size(x) == n then [x] else []
  {
    var k := |sorted| - 1;
    if sorted == [] || size(sorted[k]) >= size(x) {
      assert (sorted + [x])[..k + 1] == sorted;
    } else {
      InsertStable(sorted[..k], x, size, n);
      var rest := Insert(sorted[..k], x, size);
      assert (rest + [sorted[k]])[..|rest|] == rest;
    }
  }

  lemma {:induction false} SortPermutes<T>(items: seq<T>, size: T -> nat)
    ensures multiset(Sort(items, size)) == multiset(items)
  {
    if items != [] {
      var k := |items| - 1;
      SortPermutes(items[..k], size);
      InsertAdds(Sort(items[..k], size), items[k], size);
      assert items[..k] + [items[k]] == items;
    }
  }

  lemma {:induction false} SortDescends<T>(items: seq<T>, size: T -> nat)
    ensures DescendingBy(Sort(items, size), size)
  {
    if items != [] {
      var k := |items| - 1;
      SortDescends(items[..k], size);
      InsertDescending(Sort(items[..k], size), items[k], size);
    }
  }

  /** Items of equal size keep their order. */
  lemma {:induction false} SortStable<T>(items: seq<T>, size: T -> nat, n: nat)
    ensures OfSize(Sort(items, size), size, n) == OfSize(items, size, n)
  {
    if items != [] {
      var k := |items| - 1;
      SortStable(items[..k], size, n);
      InsertStable(Sort(items[..k], size), items[k], size, n);
    }
  }

  /** Sorting keys is sorting what they stand for, when the sizes agree. */
  lemma {:induction false} SortCommutes<T, U>(items: seq<T>, size: T -> nat, f: T -> U, image: U -> nat)
    requires forall k :: 0 <= k < |items| ==> image(f(items[k])) == size(items[k])
    ensures Map(Sort(items, size), f) == Sort(Map(items, f), image)
  {
    if items != [] {
      var k := |items| - 1;
      SortCommutes(items[..k], size, f, image);
      assert Map(items, f)[..k] == Map(items[..k], f);
      SortPermutes(items[..k], size);
      forall j | 0 <= j < |Sort(items[..k], size)|
        ensures image(f(Sort(items[..k], size)[j])) == size(Sort(items[..k], size)[j])
      {
        assert Sort(items[..k], size)[j] in multiset(items[..k]);
      }
      InsertCommutes(Sort(items[..k], size), items[k], size, f, image);
    }
  }

  function Map<T, U>(items: seq<T>, f: T -> U): (r: seq<U>)
    ensures |r| == |items| && forall k :: 0 <= k < |items| ==> r[k] == f(items[k])
  {
    seq(|items|, k requires 0 <= k < |items| => f(items[k]))
  }

  lemma {:induction false} InsertCommutes<T, U>(sorted: seq<T>, x: T, size: T -> nat, f: T -> U, image: U -> nat)
    requires forall k :: 0 <= k < |sorted| ==> image(f(sorted[k])) == size(sorted[k])
    requires image(f(x)) == size(x)
    ensures Map(Insert(sorted, x, size), f) == Insert(Map(sorted, f), f(x), image)
  {
    var k := |sorted| - 1;
    if sorted == [] || size(sorted[k]) >= size(x) {
      assert Map(sorted + [x], f) == Map(sorted, f) + [f(x)];
    } else {
      InsertCommutes(sorted[..k], x, size, f, image);
      assert Map(sorted, f)[..k] == Map(sorted[..k], f);
      assert Map(Insert(sorted[..k], x, size) + [sorted[k]], f) == Map(Insert(sorted[..k], x, size), f) + [f(sorted[k])];
    }
  }
}
