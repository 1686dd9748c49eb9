/**
 The filter for repeated message identifiers (AuthData.cpp, check_message_id_duplicates;
 bench_misc.cpp, the checkers IdDuplicateChecker...): a sliding window in an array that
 is twice as long as the memory that the protocol asks for, against the ordered sets
 that it replaced.
 */
module DuplicateChecker {
  import opened Sequences
  datatype Status = Ok | VeryOld | Duplicate

  /** Strictly increasing identifiers: the contents of the array, or of a std::set. */
  predicate Sorted(s: seq<nat>) {
    |s| >= 2 ==> s[0] < s[1] && Sorted(s[1..])
  }

  lemma {:induction false} SortedPair(s: seq<nat>, i: nat, j: nat)
    requires Sorted(s) && i < j < |s|
    ensures s[i] < s[j]
  {
    if i > 0 {
      SortedPair(s[1..], i - 1, j - 1);
    } else if j > 1 {
      SortedPair(s[1..], 0, j - 1);
    }
  }

  lemma {:induction false} SortedParts(a: seq<nat>, b: seq<nat>)
    requires Sorted(a + b)
    ensures Sorted(a) && Sorted(b)
  {
    if a == [] {
      assert [] + b == b;
    } else {
      assert (a + b)[1..] == a[1..] + b;
      SortedParts(a[1..], b);
      assert |a| >= 2 ==> (a + b)[1] == a[1];
    }
  }

  /** Puts an identifier before the first one that is not smaller. */
  function Insert(s: seq<nat>, id: nat): (r: seq<nat>)
    ensures |r| == |s| + 1
  {
    if s == [] || s[0] >= id then [id] + s else [s[0]] + Insert(s[1..], id)
  }

  // ---- the checkers, one message at a time ----

  /** A full array keeps the upper half of its window. */
  function Slid(n: nat, s: seq<nat>): seq<nat> {
    if |s| == 2 * n then s[n..] else s
  }

  /** The array checker when there is room. */
  function Judge(n: nat, ids: seq<nat>, id: nat): (Status, seq<nat>) {
    if ids == [] || id > ids[|ids| - 1] then (Ok, ids + [id])
    else if |ids| >= n && id < ids[0] then (VeryOld, ids)
    else if id in ids then (Duplicate, ids)
    else (Ok, Insert(ids, id))
  }

  /** The array checker: the window slides down only when the array is full. */
  function ArrayCheck(n: nat, s: seq<nat>, id: nat): (Status, seq<nat>)
    requires n > 0
  {
    Judge(n, Slid(n, s), id)
  }

  /** IdDuplicateCheckerOld: first the tests, then the insertion. */
  function OldCheck(n: nat, s: seq<nat>, id: nat): (Status, seq<nat>)
    requires n > 0
  {
    if |s| == n && id < s[0] then (VeryOld, s)
    else if id in s then (Duplicate, s)
    else
      var t := Insert(s, id);
      (Ok, if |t| > n then t[1..] else t)
  }

  /** IdDuplicateCheckerNew: insert first, and look whether what falls out is the new one. */
  function NewCheck(n: nat, s: seq<nat>, id: nat): (Status, seq<nat>)
    requires n > 0
  {
    if id in s then (Duplicate, s)
    else
      var t := Insert(s, id);
      if |t| == n + 1 then (if t[0] == id then VeryOld else Ok, t[1..]) else (Ok, t)
  }

  /** Inserting above a lower part leaves that part alone. */
  lemma {:induction false} InsertAbove(lower: seq<nat>, top: seq<nat>, id: nat)
    requires forall x :: x in lower ==> x < id
    ensures Insert(lower + top, id) == lower + Insert(top, id)
  {
    if lower == [] {
      assert [] + top == top;
    } else {
      assert lower[0] in lower && forall x :: x in lower[1..] ==> x in lower;
      assert (lower + top)[1..] == lower[1..] + top;
      InsertAbove(lower[1..], top, id);
    }
  }

  /** Inserting below an upper part leaves that part alone. */
  lemma {:induction false} InsertBelow(lower: seq<nat>, top: seq<nat>, id: nat)
    requires top == [] || id < top[0]
    ensures Insert(lower + top, id) == Insert(lower, id) + top
  {
    if lower == [] {
      assert [] + top == top;
    } else {
      assert (lower + top)[1..] == lower[1..] + top;
      InsertBelow(lower[1..], top, id);
    }
  }

  lemma InsertAt(s: seq<nat>, id: nat, p: nat)
    requires p <= |s| && (forall i :: 0 <= i < p ==> s[i] < id) && (p < |s| ==> s[p] >= id)
    ensures Insert(s, id) == s[..p] + [id] + s[p..]
  {
    InsertAbove(s[..p], s[p..], id);
    assert s == s[..p] + s[p..];
  }

  lemma {:induction false} InsertAdds(s: seq<nat>, id: nat, x: nat)
    ensures x in Insert(s, id) <==> x == id || x in s
  {
    if s != [] {
      assert s == [s[0]] + s[1..];
      InsertAdds(s[1..], id, x);
    }
  }

  lemma {:induction false} InsertSorted(s: seq<nat>, id: nat)
    requires Sorted(s) && id !in s
    ensures Sorted(Insert(s, id))
  {
    if s != [] {
      assert s[0] in s && forall x :: x in s[1..] ==> x in s;
      if s[0] < id {
        InsertSorted(s[1..], id);
        assert Insert(s, id)[1..] == Insert(s[1..], id);
      } else {
        assert Insert(s, id)[1..] == s;
      }
    }
  }

  lemma AppendIsInsert(s: seq<nat>, id: nat)
    requires forall x :: x in s ==> x < id
    ensures Insert(s, id) == s + [id]
  {
    InsertAbove(s, [], id);
    assert s + [] == s;
  }

  // ---- the window and the set side by side ----

  function Cut(n: nat, s: seq<nat>): (k: nat)
    ensures k <= |s|
  {
    if |s| <= n then 0 else |s| - n
  }

  /** The last n identifiers, or all of them. */
  function Top(n: nat, s: seq<nat>): seq<nat> {
    s[Cut(n, s)..]
  }

  predicate Window(n: nat, s: seq<nat>) {
    Sorted(s) && |s| <= 2 * n
  }

  /** The window after a check stays in step with the set, accepts whatever the set accepts,
      and accepts more only where the set says very old. */
  predicate Agree(n: nat, window: (Status, seq<nat>), ordered: (Status, seq<nat>)) {
    && Window(n, window.1) && Top(n, window.1) == ordered.1
    && (ordered.0 == Ok ==> window.0 == Ok)
    && (window.0 == Ok ==> ordered.0 == Ok || ordered.0 == VeryOld)
    && (window.0 == VeryOld ==> ordered.0 == VeryOld)
  }

  /** A window cut where the set begins. */
  predicate Parts(n: nat, lower: seq<nat>, top: seq<nat>) {
    n > 0 && Sorted(lower + top) && |lower + top| < 2 * n && |top| <= n && (lower != [] ==> |top| == n)
  }

  lemma CutAt(n: nat, lower: seq<nat>, top: seq<nat>)
    requires |top| <= n && (lower != [] ==> |top| == n)
    ensures Top(n, lower + top) == top
  {
    assert (lower + top)[|lower|..] == top;
  }

  lemma LowerIsBelow(lower: seq<nat>, top: seq<nat>)
    requires Sorted(lower + top) && top != []
    ensures forall x :: x in lower ==> x < top[0]
  {
    var ids := lower + top;
    forall i | 0 <= i < |lower| ensures lower[i] < top[0] {
      SortedPair(ids, i, |lower|);
    }
  }

  /** What falls out of a full set is the new identifier itself if it is below all others. */
  lemma NewBelow(n: nat, top: seq<nat>, id: nat)
    requires n > 0 && |top| == n && id < top[0] && Sorted(top)
    ensures NewCheck(n, top, id) == (VeryOld, top)
  {
    assert id !in top by {
      if j :| 0 <= j < |top| && top[j] == id {
        if j > 0 {
          SortedPair(top, 0, j);
        }
      }
    }
    assert Insert(top, id)[1..] == top;
  }

  lemma ArrayKnows(n: nat, ids: seq<nat>, id: nat)
    requires n > 0 && Sorted(ids) && |ids| < 2 * n && id in ids
    ensures ArrayCheck(n, ids, id) == (Duplicate, ids)
  {
    var j :| 0 <= j < |ids| && ids[j] == id;
    if j < |ids| - 1 {
      SortedPair(ids, j, |ids| - 1);
    }
    if j > 0 {
      SortedPair(ids, 0, j);
    }
  }

  /** The array takes every new identifier, unless it is below a window of at least n. */
  lemma ArrayTakes(n: nat, ids: seq<nat>, id: nat)
    requires n > 0 && Sorted(ids) && |ids| < 2 * n && id !in ids
    ensures ArrayCheck(n, ids, id)
            == if |ids| >= n && id < ids[0] then (VeryOld, ids) else (Ok, Insert(ids, id))
  {
    if ids == [] || id > ids[|ids| - 1] {
      forall i | 0 <= i < |ids| ensures ids[i] < id {
        if i < |ids| - 1 {
          SortedPair(ids, i, |ids| - 1);
        }
      }
      AppendIsInsert(ids, id);
      if |ids| > 1 {
        SortedPair(ids, 0, |ids| - 1);
      }
    }
  }

  lemma MemberAgrees(n: nat, lower: seq<nat>, top: seq<nat>, id: nat)
    requires Parts(n, lower, top) && id in lower + top
    ensures Agree(n, ArrayCheck(n, lower + top, id), NewCheck(n, top, id))
  {
    ArrayKnows(n, lower + top, id);
    CutAt(n, lower, top);
    SortedParts(lower, top);
    if id !in top {
      LowerIsBelow(lower, top);
      NewBelow(n, top, id);
    }
  }

  lemma BelowAgrees(n: nat, lower: seq<nat>, top: seq<nat>, id: nat)
    requires Parts(n, lower, top) && id !in lower + top && |top| == n && id < top[0]
    ensures Agree(n, ArrayCheck(n, lower + top, id), NewCheck(n, top, id))
  {
    ArrayTakes(n, lower + top, id);
    CutAt(n, lower, top);
    SortedParts(lower, top);
    NewBelow(n, top, id);
    InsertSorted(lower + top, id);
    InsertBelow(lower, top, id);
    CutAt(n, Insert(lower, id), top);
  }

  /** The lowest identifier of a full set falls out, and stays in the array below the others. */
  lemma AboveFull(n: nat, lower: seq<nat>, top: seq<nat>, id: nat)
    requires n > 0 && |top| == n && id > top[0] && id !in top && Sorted(top)
    ensures var t := Insert(top, id);
      NewCheck(n, top, id) == (Ok, t[1..]) && Top(n, lower + t) == t[1..]
  {
    var t := Insert(top, id);
    assert t[0] == top[0];
    Associate(lower, [t[0]], t[1..]);
    HeadAndTail(t);
    CutAt(n, lower + [t[0]], t[1..]);
  }

  lemma AboveAgrees(n: nat, lower: seq<nat>, top: seq<nat>, id: nat)
    requires Parts(n, lower, top) && id !in lower + top && (|top| == n ==> id > top[0])
    ensures Agree(n, ArrayCheck(n, lower + top, id), NewCheck(n, top, id))
  {
    ArrayTakes(n, lower + top, id);
    InsertSorted(lower + top, id);
    if |top| == n {
      LowerIsBelow(lower, top);
      SortedParts(lower, top);
      InsertAbove(lower, top, id);
      AboveFull(n, lower, top, id);
    } else {
      InsertAbove(lower, top, id);
      CutAt(n, lower, Insert(top, id));
    }
  }

  /** A full array drops its older half and the set does not notice. */
  lemma Slides(n: nat, s: seq<nat>, id: nat)
    requires n > 0 && Window(n, s) && |s| == 2 * n
    ensures Sorted(s[n..]) && Top(n, s[n..]) == Top(n, s)
    ensures ArrayCheck(n, s, id) == ArrayCheck(n, s[n..], id)
  {
    UpperHalfSorted(n, s);
  }

  lemma CutAgrees(n: nat, lower: seq<nat>, top: seq<nat>, id: nat)
    requires Parts(n, lower, top)
    ensures Agree(n, ArrayCheck(n, lower + top, id), NewCheck(n, top, id))
  {
    if id in lower + top {
      MemberAgrees(n, lower, top, id);
    } else if |top| == n && id < top[0] {
      BelowAgrees(n, lower, top, id);
    } else {
      assert top != [] ==> top[0] in top;
      AboveAgrees(n, lower, top, id);
    }
  }

  lemma CheckAgrees(n: nat, s: seq<nat>, id: nat)
    requires n > 0 && Window(n, s)
    ensures Agree(n, ArrayCheck(n, s, id), NewCheck(n, Top(n, s), id))
  {
    var ids := if |s| == 2 * n then s[n..] else s;
    if |s| == 2 * n {
      Slides(n, s, id);
    }
    assert ids == ids[..Cut(n, ids)] + Top(n, ids);
    CutAgrees(n, ids[..Cut(n, ids)], Top(n, ids), id);
  }

  /** Both ways of writing the set checker are the same checker. */
  lemma OldIsNew(n: nat, s: seq<nat>, id: nat)
    requires n > 0 && Sorted(s) && |s| <= n
    ensures OldCheck(n, s, id) == NewCheck(n, s, id)
  {
    if |s| == n && id < s[0] {
      NewBelow(n, s, id);
    } else if s != [] {
      assert s[0] in s;
    }
  }

  // ---- whole runs ----

  function ArrayState(n: nat, ids: seq<nat>): seq<nat>
    requires n > 0
  {
    if ids == [] then [] else ArrayCheck(n, ArrayState(n, ids[..|ids| - 1]), ids[|ids| - 1]).1
  }

  function SetState(n: nat, ids: seq<nat>): seq<nat>
    requires n > 0
  {
    if ids == [] then [] else NewCheck(n, SetState(n, ids[..|ids| - 1]), ids[|ids| - 1]).1
  }

  /** What the checkers say to message i of a run. */
  function ArraySays(n: nat, ids: seq<nat>, i: nat): Status
    requires n > 0 && i < |ids|
  {
    ArrayCheck(n, ArrayState(n, ids[..i]), ids[i]).0
  }

  function SetSays(n: nat, ids: seq<nat>, i: nat): Status
    requires n > 0 && i < |ids|
  {
    NewCheck(n, SetState(n, ids[..i]), ids[i]).0
  }

  /** After any run the last n identifiers of the array are the set. */
  lemma {:induction false} TopIsSet(n: nat, ids: seq<nat>)
    requires n > 0
    ensures Window(n, ArrayState(n, ids)) && Top(n, ArrayState(n, ids)) == SetState(n, ids)
  {
    if ids != [] {
      var before := ids[..|ids| - 1];
      TopIsSet(n, before);
      CheckAgrees(n, ArrayState(n, before), ids[|ids| - 1]);
    }
  }

  /** The array accepts whatever the set accepts; what it accepts beyond that the set calls
      very old, and what it calls very old the set does too. */
  lemma SaysAgree(n: nat, ids: seq<nat>, i: nat)
    requires n > 0 && i < |ids|
    ensures SetSays(n, ids, i) == Ok ==> ArraySays(n, ids, i) == Ok
    ensures ArraySays(n, ids, i) == Ok ==> SetSays(n, ids, i) == Ok || SetSays(n, ids, i) == VeryOld
    ensures ArraySays(n, ids, i) == VeryOld ==> SetSays(n, ids, i) == VeryOld
  {
    TopIsSet(n, ids[..i]);
    CheckAgrees(n, ArrayState(n, ids[..i]), ids[i]);
  }

  /** An accepted identifier is remembered, or everything remembered is newer and the window
      is at least n long. */
  predicate Remembers(n: nat, s: seq<nat>, id: nat) {
    id in s || (|s| >= n > 0 && id < s[0])
  }

  lemma SlideRemembers(n: nat, s: seq<nat>, known: nat)
    requires n > 0 && Window(n, s) && |s| == 2 * n && Remembers(n, s, known)
    ensures Remembers(n, s[n..], known)
  {
    SortedPair(s, 0, n);
    if j :| 0 <= j < |s| && s[j] == known {
      if j < n {
        SortedPair(s, j, n);
      } else {
        assert s[n..][j - n] == known;
      }
    }
  }

  lemma SlidRemembers(n: nat, ids: seq<nat>, id: nat, known: nat)
    requires n > 0 && Sorted(ids) && |ids| < 2 * n && Remembers(n, ids, known)
    ensures Remembers(n, ArrayCheck(n, ids, id).1, known)
  {
    if id in ids {
      ArrayKnows(n, ids, id);
    } else {
      ArrayTakes(n, ids, id);
      InsertAdds(ids, id, known);
    }
  }

  lemma CheckRemembers(n: nat, s: seq<nat>, id: nat, known: nat)
    requires n > 0 && Window(n, s) && Remembers(n, s, known)
    ensures Remembers(n, ArrayCheck(n, s, id).1, known)
  {
    if |s| == 2 * n {
      Slides(n, s, id);
      SlideRemembers(n, s, known);
      SlidRemembers(n, s[n..], id, known);
    } else {
      SlidRemembers(n, s, id, known);
    }
  }

  lemma CheckKnows(n: nat, s: seq<nat>, id: nat)
    requires n > 0 && Window(n, s) && Remembers(n, s, id)
    ensures ArrayCheck(n, s, id).0 != Ok
  {
    var ids := if |s| == 2 * n then s[n..] else s;
    if |s| == 2 * n {
      Slides(n, s, id);
      SlideRemembers(n, s, id);
    }
    if id in ids {
      ArrayKnows(n, ids, id);
    } else {
      ArrayTakes(n, ids, id);
    }
  }

  lemma CheckStores(n: nat, s: seq<nat>, id: nat)
    requires n > 0 && ArrayCheck(n, s, id).0 == Ok
    ensures id in ArrayCheck(n, s, id).1
  {
    var ids := if |s| == 2 * n then s[n..] else s;
    InsertAdds(ids, id, id);
  }

  lemma {:induction false} StaysRemembered(n: nat, ids: seq<nat>, i: nat)
    requires n > 0 && i < |ids| && ArraySays(n, ids, i) == Ok
    ensures Remembers(n, ArrayState(n, ids), ids[i])
  {
    var last := |ids| - 1;
    var state := ArrayState(n, ids[..last]);
    assert ArrayState(n, ids) == ArrayCheck(n, state, ids[last]).1;
    if i == last {
      CheckStores(n, state, ids[i]);
    } else {
      assert ids[..last][..i] == ids[..i];
      StaysRemembered(n, ids[..last], i);
      TopIsSet(n, ids[..last]);
      CheckRemembers(n, state, ids[last], ids[i]);
    }
  }

  /** No identifier is accepted twice, however many others come between. */
  lemma AcceptsOnce(n: nat, ids: seq<nat>, i: nat, j: nat)
    requires n > 0 && i < j < |ids| && ids[i] == ids[j] && ArraySays(n, ids, i) == Ok
    ensures ArraySays(n, ids, j) != Ok
  {
    assert ids[..j][..i] == ids[..i];
    StaysRemembered(n, ids[..j], i);
    TopIsSet(n, ids[..j]);
    CheckKnows(n, ArrayState(n, ids[..j]), ids[j]);
  }

  // ---- the array in place ----

  class MessageIdDuplicateChecker {
    const maxSize: nat
    const savedMessageIds: array<nat>
    var endPos: nat

    ghost predicate Valid()
      reads this, savedMessageIds
    {
      maxSize > 0 && savedMessageIds.Length == 2 * maxSize && endPos <= 2 * maxSize && Sorted(Ids())
    }

    ghost function Ids(): seq<nat>
      reads this, savedMessageIds
      requires endPos <= savedMessageIds.Length
    {
      savedMessageIds[..endPos]
    }

    constructor (maxSize: nat)
      requires maxSize > 0
      ensures Valid() && Ids() == [] && this.maxSize == maxSize && fresh(savedMessageIds)
    {
      this.maxSize := maxSize;
      savedMessageIds := new nat[2 * maxSize];
      endPos := 0;
    }

    method Check(id: nat) returns (status: Status)
      requires Valid()
      modifies this, savedMessageIds
      ensures Valid()
      ensures (status, Ids()) == ArrayCheck(maxSize, old(Ids()), id)
    {
      if endPos == 2 * maxSize {
        Slide();
      }
      status := CheckWithRoom(id);
    }

    method CheckWithRoom(id: nat) returns (status: Status)
      requires Valid() && endPos < 2 * maxSize
      modifies this, savedMessageIds
      ensures Valid()
      ensures (status, Ids()) == Judge(maxSize, old(Ids()), id)
    {
      ghost var ids := Ids();
      JudgeSorted(maxSize, ids, id);
      if endPos == 0 || id > savedMessageIds[endPos - 1] {
        Append(id);
        return Ok;
      }
      if endPos >= maxSize && id < savedMessageIds[0] {
        return VeryOld;
      }
      var it := LowerBound(id);
      if savedMessageIds[it] == id {
        ArrayKnows(maxSize, ids, id);
        return Duplicate;
      }
      NotFound(ids, id, it);
      ArrayTakes(maxSize, ids, id);
      InsertBefore(it, id);
      status := Ok;
    }

    method Append(id: nat)
      requires Valid() && endPos < 2 * maxSize && Sorted(Ids() + [id])
      modifies this, savedMessageIds
      ensures Valid() && Ids() == old(Ids()) + [id]
    {
      ghost var ids := Ids();
      savedMessageIds[endPos] := id;
      endPos := endPos + 1;
      assert Ids() == ids + [id];
    }

    /** A full array drops its older half. */
    method Slide()
      requires Valid() && endPos == 2 * maxSize
      modifies this, savedMessageIds
      ensures Valid() && endPos == maxSize && Ids() == old(Ids())[maxSize..]
    {
      UpperHalfSorted(maxSize, Ids());
      assert Ids() == savedMessageIds[..];
      CopyDown(savedMessageIds, maxSize);
      endPos := maxSize;
    }

    method InsertBefore(it: nat, id: nat)
      requires Valid() && it < endPos < 2 * maxSize && id !in Ids()
      requires savedMessageIds[it] >= id && forall i :: 0 <= i < it ==> savedMessageIds[i] < id
      modifies this, savedMessageIds
      ensures Valid() && Ids() == Insert(old(Ids()), id)
    {
      ghost var ids := Ids();
      InsertAt(ids, id, it);
      InsertSorted(ids, id);
      forall i | it < i <= endPos {
        savedMessageIds[i] := savedMessageIds[i - 1];
      }
      savedMessageIds[it] := id;
      endPos := endPos + 1;
      assert Ids() == ids[..it] + [id] + ids[it..];
    }

    /** The first position whose identifier is not smaller. */
    method LowerBound(id: nat) returns (it: nat)
      requires Valid() && endPos > 0 && savedMessageIds[endPos - 1] >= id
      ensures it < endPos && savedMessageIds[it] >= id
      ensures forall i :: 0 <= i < it ==> savedMessageIds[i] < id
    {
      var high := endPos - 1;
      it := 0;
      while it < high
        invariant it <= high < endPos && savedMessageIds[high] >= id
        invariant forall i :: 0 <= i < it ==> savedMessageIds[i] < id
      {
        var mid := (it + high) / 2;
        if savedMessageIds[mid] < id {
          forall i | 0 <= i <= mid ensures savedMessageIds[i] < id {
            if i < mid {
              SortedPair(Ids(), i, mid);
            }
          }
          it := mid + 1;
        } else {
          high := mid;
        }
      }
    }
  }

  /** The upper half moves to the front. */
  method CopyDown(a: array<nat>, n: nat)
    requires a.Length == 2 * n
    modifies a
    ensures a[..n] == old(a[..])[n..]
  {
    for i := 0 to n
      invariant forall k :: 0 <= k < i ==> a[k] == old(a[n + k])
      invariant forall k :: n <= k < 2 * n ==> a[k] == old(a[k])
    {
      a[i] := a[n + i];
    }
  }

  lemma UpperHalfSorted(n: nat, s: seq<nat>)
    requires Sorted(s) && |s| == 2 * n
    ensures Sorted(s[n..])
  {
    assert s == s[..n] + s[n..];
    SortedParts(s[..n], s[n..]);
  }

  lemma JudgeSorted(n: nat, s: seq<nat>, id: nat)
    requires n > 0 && Sorted(s) && |s| < 2 * n
    ensures Sorted(Judge(n, s, id).1)
  {
    CheckAgrees(n, s, id);
  }

  lemma NotFound(s: seq<nat>, id: nat, p: nat)
    requires Sorted(s) && p < |s| && s[p] > id && forall i :: 0 <= i < p ==> s[i] < id
    ensures id !in s
  {
    forall i | p < i < |s| ensures s[i] > id {
      SortedPair(s, p, i);
    }
  }
}
