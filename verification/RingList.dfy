// The circular list macros of work/openhitls/bsl/include/bsl_module_list.h, on heap nodes. The
// node a list is known by is the first of the ghost sequence that describes the ring.
module RingList {

  class ListHead {
    var next: ListHead?
    var prev: ListHead?

    constructor ()
    {
    }
  }

  // Each node points forward to the next and is pointed back at by it.
  ghost predicate Linked(s: seq<ListHead>)
    reads s
  {
    forall i {:trigger s[i]} :: 0 <= i < |s| - 1 ==> s[i].next == s[i + 1] && s[i + 1].prev == s[i]
  }

  ghost predicate NoDup<T>(s: seq<T>) {
    forall i, j :: 0 <= i < j < |s| ==> s[i] != s[j]
  }

  ghost function Closed(r: seq<ListHead>): seq<ListHead>
    requires r != []
  {
    r + [r[0]]
  }

  ghost predicate IsRing(r: seq<ListHead>)
    reads r
  {
    r != [] && NoDup(r) && Linked(Closed(r))
  }

  ghost function After(r: seq<ListHead>, i: nat): ListHead
    requires i < |r|
  {
    if i == |r| - 1 then r[0] else r[i + 1]
  }

  ghost function BeforeAt(r: seq<ListHead>, i: nat): ListHead
    requires i < |r|
  {
    if i == 0 then r[|r| - 1] else r[i - 1]
  }

  // The links of a ring are determined by its sequence.
  lemma RingLinks(r: seq<ListHead>, i: nat)
    requires IsRing(r) && i < |r|
    ensures r[i].next == After(r, i) && r[i].prev == BeforeAt(r, i)
  {
    var c := Closed(r);
    assert c[i] == r[i] && c[i + 1] == After(r, i);
    var p := if i == 0 then |r| - 1 else i - 1;
    assert c[p] == BeforeAt(r, i) && c[p + 1] == r[i];
  }

  function Insert<T>(r: seq<T>, k: nat, x: T): seq<T>
    requires k <= |r|
  {
    r[..k] + [x] + r[k..]
  }

  function Delete<T>(r: seq<T>, k: nat): seq<T>
    requires k < |r|
  {
    r[..k] + r[k + 1..]
  }

  lemma DeleteUndoesInsert<T>(r: seq<T>, k: nat, x: T)
    requires k <= |r|
    ensures Delete(Insert(r, k, x), k) == r
  {
    assert Insert(r, k, x)[..k] == r[..k] && Insert(r, k, x)[k + 1..] == r[k..];
  }

  // LIST_INIT
  method Init(head: ListHead)
    modifies head
    ensures IsRing([head])
  {
    head.prev := head;
    head.next := head.prev;
  }

  // item has been linked in after r[k], and all other links are those of r.
  lemma Spliced(r: seq<ListHead>, k: nat, item: ListHead)
    requires NoDup(r) && k < |r| && item !in r
    requires r[k].next == item && item.prev == r[k] && item.next == After(r, k) && After(r, k).prev == item
    requires forall i: nat :: i < |r| && i != k ==> r[i].next == After(r, i) && After(r, i).prev == r[i]
    ensures IsRing(Insert(r, k + 1, item))
  {
    var c := Closed(Insert(r, k + 1, item));
    forall i: nat | i < |c| - 1
      ensures c[i].next == c[i + 1] && c[i + 1].prev == c[i]
    {
      if i < k {
        assert c[i] == r[i] && c[i + 1] == After(r, i);
      } else if i > k + 1 {
        assert c[i] == r[i - 1] && c[i + 1] == After(r, i - 1);
      } else if i == k {
        assert c[i] == r[k] && c[i + 1] == item;
      } else {
        assert c[i] == item && c[i + 1] == After(r, k);
      }
    }
  }

  // The neighbours of r[k] have been linked to each other, and all other links are those of r.
  lemma Unlinked(r: seq<ListHead>, k: nat, p: nat)
    requires NoDup(r) && |r| > 1 && k < |r| && p == (if k == 0 then |r| - 1 else k - 1)
    requires r[p].next == After(r, k) && After(r, k).prev == r[p]
    requires forall i: nat :: i < |r| && i != k && i != p ==> r[i].next == After(r, i) && After(r, i).prev == r[i]
    ensures IsRing(Delete(r, k))
  {
    var d := Delete(r, k);
    var c := Closed(d);
    forall i: nat | i < |c| - 1
      ensures c[i].next == c[i + 1] && c[i + 1].prev == c[i]
    {
      var j := if i < k then i else i + 1;
      assert c[i] == d[i] == r[j];
      assert c[i + 1] == (if i + 1 < |d| then d[i + 1] else d[0]) == After(r, if j == p then k else j);
    }
  }

  lemma AllLinks(r: seq<ListHead>)
    requires IsRing(r)
    ensures forall i: nat :: i < |r| ==> r[i].next == After(r, i) && After(r, i).prev == r[i]
  {
    forall i: nat | i < |r|
      ensures r[i].next == After(r, i) && After(r, i).prev == r[i]
    {
      RingLinks(r, i);
      RingLinks(r, if i == |r| - 1 then 0 else i + 1);
    }
  }

  // Only r[p] has r[p].next after it.
  lemma OthersApart(r: seq<ListHead>, p: nat)
    requires NoDup(r) && p < |r|
    ensures forall i: nat :: i < |r| && i != p ==> r[i] != r[p] && After(r, i) != After(r, p)
  {
  }

  // LIST_ADD_AFTER
  method AddAfter(where: ListHead, item: ListHead, ghost r: seq<ListHead>, ghost k: nat)
    requires IsRing(r) && k < |r| && r[k] == where && item !in r
    modifies where`next, After(r, k)`prev, item
    ensures IsRing(Insert(r, k + 1, item))
    ensures where.next == item && item.prev == where && item.next == old(where.next) && After(r, k).prev == item
  {
    AllLinks(r);
    item.next := where.next;
    item.prev := where;
    where.next := item;
    item.next.prev := item;
    Spliced(r, k, item);
  }

  // LIST_ADD_BEFORE, which hands `(where)->prev` as text to LIST_ADD_AFTER, so that it is read
  // again in each statement. Before the first node is at the end.
  method AddBefore(where: ListHead, item: ListHead, ghost r: seq<ListHead>, ghost k: nat)
    requires IsRing(r) && k < |r| && r[k] == where && item !in r
    modifies where`prev, BeforeAt(r, k)`next, item
    ensures IsRing(if k == 0 then r + [item] else Insert(r, k, item))
    ensures where.prev == item && item.next == where && item.prev == old(where.prev) && BeforeAt(r, k).next == item
  {
    AllLinks(r);
    RingLinks(r, k);
    ghost var p: nat := if k == 0 then |r| - 1 else k - 1;
    OthersApart(r, p);
    item.next := where.prev.next;
    item.prev := where.prev;
    where.prev.next := item;
    item.next.prev := item;
    Spliced(r, p, item);
    assert k == 0 ==> Insert(r, p + 1, item) == r + [item];
  }

  // LIST_REMOVE. The item keeps its own links.
  method Remove(item: ListHead, ghost r: seq<ListHead>, ghost k: nat)
    requires IsRing(r) && k < |r| && r[k] == item
    modifies BeforeAt(r, k)`next, After(r, k)`prev
    ensures |r| > 1 ==> IsRing(Delete(r, k)) && item.next == old(item.next) && item.prev == old(item.prev)
    ensures |r| > 1 ==> BeforeAt(r, k).next == After(r, k) && After(r, k).prev == BeforeAt(r, k)
    ensures |r| == 1 ==> IsRing(r)
  {
    AllLinks(r);
    RingLinks(r, k);
    ghost var p: nat := if k == 0 then |r| - 1 else k - 1;
    OthersApart(r, p);
    OthersApart(r, k);
    item.prev.next := item.next;
    item.next.prev := item.prev;
    if |r| > 1 {
      Unlinked(r, k, p);
    }
  }

  // Removing what has just been added leaves every link of the ring as it was.
  method AddThenRemove(where: ListHead, item: ListHead, ghost r: seq<ListHead>, ghost k: nat)
    requires IsRing(r) && k < |r| && r[k] == where && item !in r
    modifies r, item
    ensures IsRing(r)
    ensures forall i :: 0 <= i < |r| ==> r[i].next == old(r[i].next) && r[i].prev == old(r[i].prev)
  {
    forall i: nat | i < |r|
      ensures r[i].next == After(r, i) && r[i].prev == BeforeAt(r, i)
    {
      RingLinks(r, i);
    }
    AddAfter(where, item, r, k);
    ghost var r' := Insert(r, k + 1, item);
    RingLinks(r', k + 1);
    Remove(item, r', k + 1);
    DeleteUndoesInsert(r, k + 1, item);
    forall i: nat | i < |r|
      ensures r[i].next == After(r, i) && r[i].prev == BeforeAt(r, i)
    {
      RingLinks(r, i);
    }
  }

  // ---------- the safe traversal ----------

  // The first node, and those before r[i] that `drop` does not pick, in their order.
  function Survivors<T>(r: seq<T>, drop: T -> bool, i: nat): (s: seq<T>)
    requires 1 <= i <= |r|
    ensures 1 <= |s| <= i && s[0] == r[0]
  {
    if i == 1 then [r[0]]
    else Survivors(r, drop, i - 1) + if drop(r[i - 1]) then [] else [r[i - 1]]
  }

  lemma {:induction false} SurvivorsAre<T>(r: seq<T>, drop: T -> bool, i: nat)
    requires 1 <= i <= |r|
    ensures forall x :: x in Survivors(r, drop, i) <==> x == r[0] || (x in r[1..i] && !drop(x))
  {
    if i > 1 {
      SurvivorsAre(r, drop, i - 1);
      assert r[1..i] == r[1..i - 1] + [r[i - 1]];
    }
  }

  lemma {:induction false} SurvivorsInside<T>(r: seq<T>, drop: T -> bool, i: nat)
    requires 1 <= i <= |r|
    ensures forall n: nat {:trigger Survivors(r, drop, i)[n]} ::
              n < |Survivors(r, drop, i)| ==> Survivors(r, drop, i)[n] in r
  {
    if i > 1 {
      SurvivorsInside(r, drop, i - 1);
    }
  }

  lemma AtEnd<T>(r: seq<T>, i: nat)
    requires NoDup(r) && 1 <= i <= |r| && (i < |r| ==> r[i] == r[0])
    ensures i == |r|
  {
  }

  // The ring when the traversal is at r[i].
  ghost function RingAt(r: seq<ListHead>, drop: ListHead -> bool, i: nat): seq<ListHead>
    requires 1 <= i <= |r|
  {
    Survivors(r, drop, i) + r[i..]
  }

  lemma RingNext(r: seq<ListHead>, drop: ListHead -> bool, i: nat) returns (k: nat)
    requires 1 <= i < |r|
    ensures 0 < k < |RingAt(r, drop, i)| && RingAt(r, drop, i)[k] == r[i]
    ensures After(RingAt(r, drop, i), k) == After(r, i)
    ensures RingAt(r, drop, i + 1) == if drop(r[i]) then Delete(RingAt(r, drop, i), k) else RingAt(r, drop, i)
  {
    k := |Survivors(r, drop, i)|;
  }

  lemma RingAtInside(r: seq<ListHead>, drop: ListHead -> bool, i: nat)
    requires 1 <= i <= |r|
    ensures forall n: nat {:trigger RingAt(r, drop, i)[n]} :: n < |RingAt(r, drop, i)| ==> RingAt(r, drop, i)[n] in r
  {
    SurvivorsInside(r, drop, i);
  }

  // The next node is still reached from r[i].
  lemma NextIsThere(r: seq<ListHead>, drop: ListHead -> bool, i: nat)
    requires 1 <= i < |r| && IsRing(RingAt(r, drop, i))
    ensures r[i].next == After(r, i)
  {
    var k := RingNext(r, drop, i);
    RingLinks(RingAt(r, drop, i), k);
  }

  // A loop body, which may remove the current item and then do anything to its links, as when it
  // frees it.
  method Visit(item: ListHead, drop: ListHead -> bool, ghost r: seq<ListHead>, ghost i: nat)
    requires 1 <= i < |r| && IsRing(RingAt(r, drop, i)) && r[i] == item
    modifies r
    ensures IsRing(RingAt(r, drop, i + 1))
  {
    ghost var k := RingNext(r, drop, i);
    ghost var ring := RingAt(r, drop, i);
    if drop(item) {
      RingAtInside(r, drop, i);
      RingLinks(ring, k);
      assert BeforeAt(ring, k) in r && After(ring, k) in r;
      Remove(item, ring, k);
      assert item !in RingAt(r, drop, i + 1);
      item.next, item.prev := *, *;
    }
  }

  // LIST_FOR_EACH_ITEM_SAFE: every node is visited once, in order, whatever `drop` picks, and the
  // others stay a ring.
  method ForEachSafe(head: ListHead, drop: ListHead -> bool, ghost r: seq<ListHead>) returns (visited: seq<ListHead>)
    requires IsRing(r) && r[0] == head
    modifies r
    ensures visited == r[1..]
    ensures IsRing(Survivors(r, drop, |r|))
  {
    visited := [];
    RingLinks(r, 0);
    assert RingAt(r, drop, 1) == r;
    var item := head.next;
    var temp := item.next;
    ghost var i := 1;
    if i < |r| {
      NextIsThere(r, drop, i);
    }
    while item != head
      invariant 1 <= i <= |r| && visited == r[1..i] && item == (if i == |r| then head else r[i])
      invariant IsRing(RingAt(r, drop, i))
      invariant i < |r| ==> temp == After(r, i)
      decreases |r| - i
    {
      assert r[1..i] + [r[i]] == r[1..i + 1];
      visited := visited + [item];
      Visit(item, drop, r, i);
      i := i + 1;
      if i < |r| {
        NextIsThere(r, drop, i);
      }
      item := temp;
      temp := item.next;
    }
    AtEnd(r, i);
    assert RingAt(r, drop, |r|) == Survivors(r, drop, |r|);
  }
}
