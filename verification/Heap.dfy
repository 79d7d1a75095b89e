/**
 container/heap and sort by their contracts: after every operation the slice
 is some arrangement in heap order with the right contents. Callers see only
 the contracts; the bodies pick the sorted arrangement, which is one of them.
 */
module Heap {
  /** Every element is at least its parent. */
  predicate IsHeap<T>(h: seq<T>, key: T -> int) {
    forall p, c :: 0 <= p < c < |h| && (c == 2 * p + 1 || c == 2 * p + 2) ==> key(h[p]) <= key(h[c])
  }

  predicate Sorted<T>(s: seq<T>, key: T -> int) {
    forall i, j :: 0 <= i < j < |s| ==> key(s[i]) <= key(s[j])
  }

  lemma {:induction false} RootIsLeast<T>(h: seq<T>, key: T -> int, i: nat)
    requires IsHeap(h, key) && i < |h|
    ensures key(h[0]) <= key(h[i])
  {
    if i > 0 { RootIsLeast(h, key, (i - 1) / 2); }
  }

  /** The head of a heap is no larger than anything in it. */
  lemma HeadIsLeast<T>(h: seq<T>, key: T -> int)
    requires IsHeap(h, key) && |h| > 0
    ensures forall x :: x in h ==> key(h[0]) <= key(x)
  {
    forall x | x in h ensures key(h[0]) <= key(x) {
      var i :| 0 <= i < |h| && h[i] == x;
      RootIsLeast(h, key, i);
    }
  }

  lemma Inserted<T>(s: seq<T>, i: nat, x: T, key: T -> int)
    requires Sorted(s, key) && i <= |s| && (forall j :: 0 <= j < i ==> key(s[j]) <= key(x))
    requires i < |s| ==> key(x) < key(s[i])
    ensures Sorted(s[..i] + [x] + s[i..], key)
  {}

  lemma InsertedElements<T>(s: seq<T>, i: nat, x: T)
    requires i <= |s|
    ensures multiset(s[..i] + [x] + s[i..]) == multiset(s) + multiset{x}
  {
    assert s == s[..i] + s[i..];
  }

  method InsertSorted<T>(s: seq<T>, x: T, key: T -> int) returns (r: seq<T>)
    requires Sorted(s, key)
    ensures Sorted(r, key) && multiset(r) == multiset(s) + multiset{x}
  {
    var i := 0;
    while i < |s| && key(s[i]) <= key(x)
      invariant 0 <= i <= |s|
      invariant forall j :: 0 <= j < i ==> key(s[j]) <= key(x)
    {
      i := i + 1;
    }
    r := s[..i] + [x] + s[i..];
    Inserted(s, i, x, key);
    InsertedElements(s, i, x);
  }

  /** sort.Sort */
  method Sort<T>(s: seq<T>, key: T -> int) returns (r: seq<T>)
    ensures Sorted(r, key) && multiset(r) == multiset(s)
  {
    r := [];
    for i := 0 to |s|
      invariant Sorted(r, key) && multiset(r) == multiset(s[..i])
    {
      assert s[..i + 1] == s[..i] + [s[i]];
      r := InsertSorted(r, s[i], key);
    }
    assert s[..|s|] == s;
  }

  /** heap.Init */
  method Init<T>(s: seq<T>, key: T -> int) returns (r: seq<T>)
    ensures IsHeap(r, key) && multiset(r) == multiset(s)
  {
    r := Sort(s, key);
  }

  /** heap.Push */
  method Push<T>(h: seq<T>, x: T, key: T -> int) returns (r: seq<T>)
    requires IsHeap(h, key)
    ensures IsHeap(r, key) && multiset(r) == multiset(h) + multiset{x}
  {
    r := Init(h + [x], key);
  }

  /** heap.Pop takes the head. */
  method Pop<T>(h: seq<T>, key: T -> int) returns (x: T, r: seq<T>)
    requires IsHeap(h, key) && |h| > 0
    ensures x == h[0] && (forall y :: y in h ==> key(x) <= key(y))
    ensures IsHeap(r, key) && multiset(h) == multiset(r) + multiset{x}
  {
    HeadIsLeast(h, key);
    x := h[0];
    assert h == [h[0]] + h[1..];
    r := Init(h[1..], key);
  }

  /** heap.Remove takes the element at an index. */
  method Remove<T>(h: seq<T>, i: nat, key: T -> int) returns (r: seq<T>)
    requires IsHeap(h, key) && i < |h|
    ensures IsHeap(r, key) && multiset(h) == multiset(r) + multiset{h[i]}
  {
    assert h == h[..i] + [h[i]] + h[i + 1..];
    r := Init(h[..i] + h[i + 1..], key);
  }
}
