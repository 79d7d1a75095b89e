/**
 txPricedList of core/tx_list.go: a heap of transactions by price that is
 allowed to hold stale entries. `all` is the pool's set of live transactions,
 which the Go code reaches through a pointer. What matters is coverage: every
 live transaction has an entry, so the cheapest live one can be found.
 */
module TxPriced {
  import opened TxListSpec
  import Heap

  function PriceKey(t: Tx): int { t.price }

  predicate Covers(items: seq<Tx>, all: set<Tx>) {
    forall t :: t in all ==> t in items
  }

  /** accountSet.containsTx */
  predicate IsLocal(locals: set<nat>, t: Tx) { t.sender in locals }

  lemma SameMembers(s: seq<Tx>, r: seq<Tx>)
    requires multiset(r) == multiset(s)
    ensures forall t :: t in r <==> t in s
  {
    forall t ensures t in r <==> t in s { assert t in r <==> t in multiset(r); }
  }

  lemma PoppedMembers(h: seq<Tx>, r: seq<Tx>, x: Tx)
    requires multiset(h) == multiset(r) + multiset{x}
    ensures |r| < |h| && (forall t :: t in h <==> t in r || t == x)
  {
    assert |multiset(h)| == |h| && |multiset(r)| == |r|;
    forall t ensures t in h <==> t in r || t == x { assert t in h <==> t in multiset(h); }
  }

  method SeqOf(s: set<Tx>) returns (r: seq<Tx>)
    ensures forall t :: t in r <==> t in s
  {
    r := [];
    var todo := s;
    while todo != {}
      invariant todo <= s && forall t :: t in r <==> t in s - todo
    {
      var t :| t in todo;
      r, todo := r + [t], todo - {t};
    }
  }

  class PricedList {
    var items: seq<Tx>
    var stales: int

    ghost predicate Valid(all: set<Tx>)
      reads this
    {
      Heap.IsHeap(items, PriceKey) && Covers(items, all)
    }

    constructor ()
      ensures Valid({}) && items == []
    {
      items, stales := [], 0;
    }

    method Put(tx: Tx, ghost all: set<Tx>)
      requires Valid(all)
      modifies this
      ensures Valid(all + {tx})
    {
      var before := items;
      items := Heap.Push(items, tx, PriceKey);
      SameMembers(before + [tx], items);
    }

    /** One more stale entry; rebuild from the live transactions once a quarter is stale. */
    method Removed(all: set<Tx>, ghost live: set<Tx>)
      requires Valid(live) && live <= all
      modifies this
      ensures Valid(live)
    {
      stales := stales + 1;
      if stales <= |items| / 4 { return; }
      var entries := SeqOf(all);
      items := Heap.Init(entries, PriceKey);
      SameMembers(entries, items);
      stales := 0;
    }

    /** Takes out exactly the remote transactions below the threshold. */
    method Cap(threshold: nat, all: set<Tx>, locals: set<nat>) returns (drop: seq<Tx>)
      requires Valid(all)
      modifies this
      ensures forall t :: t in drop <==> t in all && t.price < threshold && !IsLocal(locals, t)
      ensures Valid(all - set t | t in drop)
    {
      drop := [];
      var save := [];
      while |items| > 0
        invariant Heap.IsHeap(items, PriceKey)
        invariant forall t :: t in drop ==> t in all && t.price < threshold && !IsLocal(locals, t)
        invariant forall t :: t in save ==> t in all && IsLocal(locals, t)
        invariant forall t :: t in all ==> t in items || t in save || t in drop
        decreases |items|
      {
        var before := items;
        var tx, rest := Heap.Pop(items, PriceKey);
        items := rest;
        PoppedMembers(before, items, tx);
        if tx !in all {
          stales := stales - 1;
        } else if tx.price >= threshold {
          save := save + [tx];
          forall t | t in items ensures tx.price <= t.price { assert PriceKey(tx) <= PriceKey(t); }
          break;
        } else if IsLocal(locals, tx) {
          save := save + [tx];
        } else {
          drop := drop + [tx];
        }
      }
      PushAll(save, all - set t | t in drop);
    }

    method PushAll(save: seq<Tx>, ghost all: set<Tx>)
      requires Heap.IsHeap(items, PriceKey) && Covers(items + save, all)
      modifies this`items
      ensures Valid(all)
    {
      for i := 0 to |save|
        invariant Heap.IsHeap(items, PriceKey) && Covers(items + save[i..], all)
      {
        var before := items;
        items := Heap.Push(items, save[i], PriceKey);
        SameMembers(before + [save[i]], items);
        assert save[i..] == [save[i]] + save[i + 1..];
      }
    }

    /** Whether a remote transaction is no dearer than the cheapest live one. */
    method Underpriced(tx: Tx, all: set<Tx>, locals: set<nat>) returns (r: bool)
      requires Valid(all)
      modifies this
      ensures Valid(all)
      ensures r <==> !IsLocal(locals, tx) && all != {} && forall t :: t in all ==> tx.price <= t.price
    {
      if IsLocal(locals, tx) { return false; }
      while |items| > 0 && items[0] !in all
        invariant Valid(all)
        decreases |items|
      {
        stales := stales - 1;
        var before := items;
        var stale, rest := Heap.Pop(items, PriceKey);
        items := rest;
        PoppedMembers(before, items, stale);
      }
      if |items| == 0 { return false; }
      Heap.HeadIsLeast(items, PriceKey);
      forall t | t in all ensures items[0].price <= t.price { assert PriceKey(items[0]) <= PriceKey(t); }
      return items[0].price >= tx.price;
    }

    /**
     Takes out the `count` cheapest remote entries, or all of them if there are
     fewer. Entries, not transactions: one that was queued again after a demotion
     has two, so that fewer than `count` distinct transactions may go.
     */
    method Discard(count: nat, all: set<Tx>, locals: set<nat>) returns (drop: seq<Tx>)
      requires Valid(all)
      modifies this
      ensures |drop| <= count
      ensures forall t :: t in drop ==> t in all && !IsLocal(locals, t)
      ensures forall d, t :: d in drop && t in all && t !in drop && !IsLocal(locals, t) ==> d.price <= t.price
      ensures |drop| < count ==> forall t :: t in all && !IsLocal(locals, t) ==> t in drop
      ensures Valid(all - set t | t in drop)
    {
      drop := [];
      var save, left := [], count;
      while |items| > 0 && left > 0
        invariant Heap.IsHeap(items, PriceKey) && |drop| + left == count
        invariant forall t :: t in drop ==> t in all && !IsLocal(locals, t)
        invariant forall t :: t in save ==> t in all && IsLocal(locals, t)
        invariant forall t :: t in all ==> t in items || t in save || t in drop
        invariant forall d, t :: d in drop && t in items ==> d.price <= t.price
        decreases |items|
      {
        var before := items;
        var tx, rest := Heap.Pop(items, PriceKey);
        items := rest;
        PoppedMembers(before, items, tx);
        forall t | t in items ensures tx.price <= t.price { assert PriceKey(tx) <= PriceKey(t); }
        if tx !in all {
          stales := stales - 1;
        } else if IsLocal(locals, tx) {
          save := save + [tx];
        } else {
          drop := drop + [tx];
          left := left - 1;
        }
      }
      PushAll(save, all - set t | t in drop);
    }
  }
}
