/**
 txSortedMap and txList of core/tx_list.go: the nonce map with its heap index
 and its lazily built sort cache, and the per-account list with its cost and
 gas caps. Every operation is proved against the plain map of TxListSpec.
 */
module TxLists {
  import opened Basics
  import opened TxListSpec
  import Heap

  function NonceKey(n: nat): int { n }

  /** The index is a min-heap that holds every nonce of the map exactly once. */
  predicate Indexes(index: seq<nat>, items: Nonces) {
    Heap.IsHeap(index, NonceKey) && multiset(index) == multiset(items.Keys)
  }

  predicate CacheOk(cache: Option<seq<Tx>>, items: Nonces) {
    cache.Some? ==> Listing(cache.value, items)
  }

  lemma IndexMembers(index: seq<nat>, items: Nonces)
    requires multiset(index) == multiset(items.Keys)
    ensures |index| == |items| && forall n :: n in index <==> n in items
  {
    assert |multiset(index)| == |index|;
    forall n ensures n in index <==> n in items {
      assert n in index <==> n in multiset(index);
    }
  }

  lemma EmptyIndex(index: seq<nat>, items: Nonces)
    requires Indexes(index, items) && |index| == 0
    ensures items == map[]
  {
    IndexMembers(index, items);
  }

  lemma NoDuplicates(s: seq<nat>, keys: set<nat>, i: nat, j: nat)
    requires multiset(s) == multiset(keys) && i < j < |s|
    ensures s[i] != s[j]
  {
    assert s == s[..j] + [s[j]] + s[j + 1..];
    assert s[i] in s[..j];
    assert multiset(s)[s[i]] <= 1;
  }

  /** Looking the sorted index up in the map gives the listing. */
  lemma SortedIndexLists(idx: seq<nat>, items: Nonces, s: seq<Tx>)
    requires Heap.Sorted(idx, NonceKey) && multiset(idx) == multiset(items.Keys) && Keyed(items)
    requires |s| == |idx| && forall i :: 0 <= i < |idx| ==> idx[i] in items && s[i] == items[idx[i]]
    ensures Listing(s, items)
  {
    IndexMembers(idx, items);
    forall i, j | 0 <= i < j < |s| ensures s[i].nonce < s[j].nonce {
      NoDuplicates(idx, items.Keys, i, j);
      assert NonceKey(idx[i]) <= NonceKey(idx[j]);
    }
    forall n | n in items ensures items[n] in s {
      var i :| 0 <= i < |idx| && idx[i] == n;
      assert s[i] == items[n];
    }
  }

  function Reversed(s: seq<Tx>): (r: seq<Tx>)
    ensures |r| == |s| && forall i :: 0 <= i < |s| ==> r[i] == s[|s| - 1 - i]
  {
    if s == [] then [] else Reversed(s[1..]) + [s[0]]
  }

  method Find(index: seq<nat>, nonce: nat) returns (i: nat)
    requires nonce in index
    ensures i < |index| && index[i] == nonce
  {
    i := 0;
    while index[i] != nonce
      invariant i < |index| && forall j :: 0 <= j < i ==> index[j] != nonce
      decreases |index| - i
    {
      i := i + 1;
    }
  }

  lemma ReadyStarts(all: Nonces, lo: nat)
    requires IsLeast(all, lo)
    ensures From(all, lo) == all && Under(all, lo) == map[] && Listing([], Under(all, lo))
  {
    assert Under(all, lo) == map[];
  }

  lemma ReadyDone(all: Nonces, lo: nat, e: nat)
    requires IsLeast(all, lo) && e >= lo && e !in From(all, e) && forall x :: lo <= x < e ==> x in all
    ensures RunFrom(all, lo) == Under(all, e) && WithoutRun(all, lo) == From(all, e)
  {
    assert e !in all;
    assert RunEnd(all, lo) == e;
  }

  lemma LeastNonce(index: seq<nat>, items: Nonces)
    requires Indexes(index, items) && |index| > 0
    ensures Heap.IsHeap(index, NonceKey) && IsLeast(items, index[0])
  {
    IndexMembers(index, items);
    Heap.HeadIsLeast(index, NonceKey);
    forall n | n in items ensures index[0] <= n { assert NonceKey(index[0]) <= NonceKey(n); }
  }

  lemma IndexWithout(index: seq<nat>, index': seq<nat>, items: Nonces, n: nat)
    requires multiset(index) == multiset(items.Keys) && n in items
    requires multiset(index) == multiset(index') + multiset{n}
    ensures multiset(index') == multiset((items - {n}).Keys)
  {
    var rest := (items - {n}).Keys;
    assert items.Keys == rest + {n};
    assert multiset(index') == multiset(index') + multiset{n} - multiset{n};
    assert multiset(rest) == multiset(rest) + multiset{n} - multiset{n};
  }

  lemma IndexesWithout(index: seq<nat>, index': seq<nat>, items: Nonces, n: nat)
    requires Indexes(index, items) && n in items && Heap.IsHeap(index', NonceKey)
    requires multiset(index) == multiset(index') + multiset{n}
    ensures Indexes(index', items - {n}) && |index'| < |index|
  {
    IndexWithout(index, index', items, n);
    assert |multiset(index)| == |index| && |multiset(index')| == |index'|;
  }

  lemma ExtendListing(s: seq<Tx>, m: Nonces, t: Tx)
    requires Listing(s, m) && t.nonce !in m && forall x :: x in s ==> x.nonce < t.nonce
    ensures Listing(s + [t], m[t.nonce := t])
  {}

  lemma ForwardStep(all: Nonces, cut: nat, nonce: nat, removed: seq<Tx>)
    requires Keyed(all) && nonce in From(all, cut) && forall n :: n in From(all, cut) ==> nonce <= n
    requires Listing(removed, Under(all, cut))
    ensures From(all, nonce + 1) == From(all, cut) - {nonce}
    ensures Listing(removed + [all[nonce]], Under(all, nonce + 1))
  {
    assert forall n :: n in all && n >= cut ==> n in From(all, cut);
    ExtendListing(removed, Under(all, cut), all[nonce]);
    assert Under(all, nonce + 1) == Under(all, cut)[nonce := all[nonce]];
  }

  method TakeRun(m: Nonces, index: seq<nat>) returns (kept: Nonces, index': seq<nat>, ready: seq<Tx>)
    requires Keyed(m) && Indexes(index, m) && |index| > 0
    ensures IsLeast(m, index[0]) && kept == WithoutRun(m, index[0]) && Keyed(kept) && Indexes(index', kept)
    ensures |ready| > 0 && ready[0].nonce == index[0] && Listing(ready, RunFrom(m, index[0]))
  {
    hide Listing, Heap.IsHeap, RunFrom, WithoutRun, Under, Indexes;
    kept, index', ready := m, index, [];
    LeastNonce(index, m);
    var next := index[0];
    ReadyStarts(m, index[0]);
    while |index'| > 0 && index'[0] == next
      invariant Keyed(kept) && Indexes(index', kept)
      invariant next >= index[0] && kept == From(m, next) && Listing(ready, Under(m, next))
      invariant forall x :: index[0] <= x < next ==> x in m
      invariant if next == index[0] then index' == index && ready == [] else |ready| > 0 && ready[0].nonce == index[0]
      decreases |index'|
    {
      LeastNonce(index', kept);
      ForwardStep(m, next, next, ready);
      ready := ready + [kept[next]];
      var _, rest := Heap.Pop(index', NonceKey);
      IndexesWithout(index', rest, kept, next);
      kept, index' := kept - {next}, rest;
      next := next + 1;
    }
    if |index'| > 0 { LeastNonce(index', kept); } else { EmptyIndex(index', kept); }
    ReadyDone(m, index[0], next);
  }

  function LookUp(idx: seq<nat>, m: Nonces): (s: seq<Tx>)
    requires forall i :: 0 <= i < |idx| ==> idx[i] in m
    ensures |s| == |idx| && forall i :: 0 <= i < |idx| ==> s[i] == m[idx[i]]
  {
    seq(|idx|, i requires 0 <= i < |idx| => m[idx[i]])
  }

  lemma SmallerSet(a: set<nat>, b: set<nat>)
    requires a < b
    ensures |a| < |b|
  {
    assert b == a + (b - a);
    assert b - a != {};
  }

  lemma NothingToDrop(m: Nonces, k: nat)
    requires |m| <= k
    ensures Lowest(m, k) == m && Listing(Reversed([]), Highest(m, k))
  {
    forall n | n in m ensures |NoncesBelow(m, n)| < k {
      assert NoncesBelow(m, n) < m.Keys by { assert n in m.Keys && n !in NoncesBelow(m, n); }
      SmallerSet(NoncesBelow(m, n), m.Keys);
    }
  }

  /** Only the last of the lowest `size` has rank size - 1. */
  lemma RankIsUnique(listed: seq<Tx>, all: Nonces, k: nat, n: nat)
    requires Listing(listed, all) && Keyed(all) && k < |listed| && n in all && |NoncesBelow(all, n)| == k
    ensures n == listed[k].nonce
  {
    hide NoncesBelow;
    var i :| 0 <= i < |listed| && listed[i] == all[n];
    RankInListing(listed, all, i);
  }

  lemma LowestStep(listed: seq<Tx>, all: Nonces, size: nat)
    requires Listing(listed, all) && Keyed(all) && 0 < size <= |listed|
    ensures var t := listed[size - 1];
            && t.nonce in Lowest(all, size) && all[t.nonce] == t
            && Lowest(all, size - 1) == Lowest(all, size) - {t.nonce}
  {
    hide NoncesBelow;
    var t := listed[size - 1];
    RankInListing(listed, all, size - 1);
    assert t in listed;
    hide Listing;
    forall n | n in all && |NoncesBelow(all, n)| == size - 1 ensures n == t.nonce {
      RankIsUnique(listed, all, size - 1, n);
    }
  }

  lemma CapStep(listed: seq<Tx>, all: Nonces, size: nat, drops: seq<Tx>)
    requires Listing(listed, all) && Keyed(all) && 0 < size <= |listed| && Reversed(drops) == listed[size..]
    ensures var t := listed[size - 1];
            && t.nonce in Lowest(all, size) && all[t.nonce] == t
            && Lowest(all, size - 1) == Lowest(all, size) - {t.nonce}
            && Reversed(drops + [t]) == listed[size - 1..]
  {
    hide Listing, Keyed, Lowest;
    LowestStep(listed, all, size);
  }

  method DropHighest(m: Nonces, idx: seq<nat>, threshold: nat) returns (kept: Nonces, drops: seq<Tx>)
    requires Keyed(m) && threshold <= |idx| && forall i :: 0 <= i < |idx| ==> idx[i] in m
    requires Listing(LookUp(idx, m), m)
    ensures kept == Lowest(m, threshold) && Reversed(drops) == LookUp(idx, m)[threshold..]
  {
    hide Listing, Reversed;
    ghost var listed := LookUp(idx, m);
    kept, drops := m, [];
    ListingSize(listed, m);
    NothingToDrop(m, |idx|);
    assert listed[|idx|..] == Reversed([]) by { assert |Reversed([])| == 0; }
    var size := |idx|;
    while size > threshold
      invariant threshold <= size <= |idx|
      invariant kept == Lowest(m, size) && Reversed(drops) == listed[size..]
    {
      CapStep(listed, m, size, drops);
      drops := drops + [kept[idx[size - 1]]];
      kept := kept - {idx[size - 1]};
      size := size - 1;
    }
  }

  lemma PrefixMembers(idx: seq<nat>, all: Nonces, listed: seq<Tx>, k: nat)
    requires Keyed(all) && Listing(listed, all)
    requires k <= |idx| == |listed| && forall i :: 0 <= i < |idx| ==> idx[i] in all && listed[i] == all[idx[i]]
    ensures Lowest(all, k).Keys == set i | 0 <= i < k :: idx[i]
  {
    LowestIsPrefix(listed, all, k);
    hide NoncesBelow;
    var firsts := set i | 0 <= i < k :: idx[i];
    forall n | n in Lowest(all, k) ensures n in firsts {
      var i :| 0 <= i < k && listed[..k][i] == all[n];
      assert idx[i] == n;
    }
    forall i | 0 <= i < k ensures idx[i] in Lowest(all, k) { assert listed[..k][i] in listed[..k]; }
    assert Lowest(all, k).Keys == firsts;
  }

  lemma {:induction false} PrefixKeys(idx: seq<nat>, listed: seq<Tx>, k: nat)
    requires k <= |idx| == |listed| && Increasing(listed) && forall i :: 0 <= i < |idx| ==> idx[i] == listed[i].nonce
    ensures multiset(idx[..k]) == multiset(set i | 0 <= i < k :: idx[i])
  {
    if k > 0 {
      PrefixKeys(idx, listed, k - 1);
      assert idx[..k] == idx[..k - 1] + [idx[k - 1]];
      var before := set i | 0 <= i < k - 1 :: idx[i];
      assert idx[k - 1] !in before;
      assert (set i | 0 <= i < k :: idx[i]) == before + {idx[k - 1]};
    }
  }

  lemma PrefixIndexes(idx: seq<nat>, all: Nonces, listed: seq<Tx>, k: nat)
    requires multiset(idx) == multiset(all.Keys) && Keyed(all) && Listing(listed, all)
    requires k <= |idx| == |listed| && forall i :: 0 <= i < |idx| ==> idx[i] in all && listed[i] == all[idx[i]]
    ensures multiset(idx[..k]) == multiset(Lowest(all, k).Keys)
  {
    PrefixKeys(idx, listed, k);
    PrefixMembers(idx, all, listed, k);
  }

  method CapItems(m: Nonces, index: seq<nat>, threshold: nat) returns (kept: Nonces, drops: seq<Tx>, index': seq<nat>)
    requires Keyed(m) && Indexes(index, m) && threshold < |m|
    ensures kept == Lowest(m, threshold) && Indexes(index', kept)
    ensures Listing(Reversed(drops), Highest(m, threshold)) && |drops| == |m| - threshold
  {
    hide Listing, Heap.IsHeap, Lowest, Highest, Keyed;
    var idx := Heap.Sort(index, NonceKey);
    IndexMembers(idx, m);
    ghost var listed := LookUp(idx, m);
    SortedIndexLists(idx, m, listed);
    LowestIsPrefix(listed, m, threshold);
    PrefixIndexes(idx, m, listed, threshold);
    kept, drops := DropHighest(m, idx, threshold);
    index' := Heap.Init(idx[..threshold], NonceKey);
  }

  /** s holds every transaction of m once, in any order. */
  predicate Enumerates(s: seq<Tx>, m: Nonces) {
    && |s| == |m|
    && (forall x :: x in s ==> x.nonce in m && m[x.nonce] == x)
    && (forall n :: n in m ==> m[n] in s)
  }

  lemma EmptyEnumeration()
    ensures Enumerates([], map[])
  {}

  lemma EnumerateOneMore(s: seq<Tx>, m: Nonces, t: Tx)
    requires Enumerates(s, m) && t.nonce !in m
    ensures Enumerates(s + [t], m[t.nonce := t])
  {}

  method TakeOut(m: Nonces, filter: Tx -> bool) returns (kept: Nonces, removed: seq<Tx>)
    requires Keyed(m)
    ensures kept == WhereNot(m, filter) && Enumerates(removed, Where(m, filter))
  {
    hide Enumerates;
    kept, removed := m, [];
    ghost var taken: Nonces := map[];
    EmptyEnumeration();
    var todo := m.Keys;
    while todo != {}
      invariant todo <= kept.Keys && kept.Keys <= m.Keys
      invariant forall n :: n in kept ==> kept[n] == m[n]
      invariant forall n :: n in m ==> (n in todo || (filter(m[n]) <==> n !in kept))
      invariant taken == map n | n in m && n !in kept :: m[n]
      invariant Enumerates(removed, taken)
    {
      var n :| n in todo;
      if filter(kept[n]) {
        EnumerateOneMore(removed, taken, kept[n]);
        removed := removed + [kept[n]];
        taken := taken[n := kept[n]];
        kept := kept - {n};
      }
      todo := todo - {n};
    }
    assert kept == WhereNot(m, filter) && taken == Where(m, filter);
  }

  lemma KeysOfUpdate(items: Nonces, tx: Tx)
    ensures items[tx.nonce := tx].Keys == items.Keys + {tx.nonce}
    ensures tx.nonce in items ==> items[tx.nonce := tx].Keys == items.Keys
    ensures tx.nonce !in items ==> multiset(items[tx.nonce := tx].Keys) == multiset(items.Keys) + multiset{tx.nonce}
  {
    assert items[tx.nonce := tx].Keys == items.Keys + {tx.nonce};
  }

  lemma EmptyListing(all: Nonces)
    ensures Listing([], Under(all, 0)) && From(all, 0) == all
  {}

  lemma ForwardDone(all: Nonces, cut: nat, threshold: nat)
    requires cut <= threshold && forall n :: n in From(all, cut) ==> n >= threshold
    ensures From(all, cut) == From(all, threshold) && Under(all, cut) == Under(all, threshold)
  {
    assert forall n :: n in all && n >= cut ==> n in From(all, cut);
  }

  /** Iterating over the keys of a map, in whatever order. */
  method SeqOfSet(s: set<nat>) returns (r: seq<nat>)
    ensures multiset(r) == multiset(s)
  {
    r := [];
    var todo := s;
    while todo != {}
      invariant todo <= s && multiset(r) == multiset(s - todo)
    {
      var n :| n in todo;
      assert s - (todo - {n}) == (s - todo) + {n};
      r, todo := r + [n], todo - {n};
    }
    assert s - todo == s;
  }

  class TxSortedMap {
    var items: Nonces
    var index: seq<nat>
    var cache: Option<seq<Tx>>

    ghost predicate Valid()
      reads this
    {
      Keyed(items) && Indexes(index, items) && CacheOk(cache, items)
    }

    constructor ()
      ensures Valid() && items == map[]
    {
      items, index, cache := map[], [], None;
    }

    method Put(tx: Tx)
      requires Valid()
      modifies this
      ensures Valid() && items == old(items)[tx.nonce := tx]
    {
      hide Listing, Heap.IsHeap;
      KeysOfUpdate(items, tx);
      if tx.nonce !in items {
        index := Heap.Push(index, tx.nonce, NonceKey);
      }
      items, cache := items[tx.nonce := tx], None;
    }

    /** Removes the nonces under the threshold and returns them in order. */
    method Forward(threshold: nat) returns (removed: seq<Tx>)
      requires Valid()
      modifies this
      ensures Valid()
      ensures items == From(old(items), threshold) && Listing(removed, Under(old(items), threshold))
    {
      hide Listing, Heap.IsHeap;
      removed := [];
      ghost var all, cut: nat := items, 0;
      EmptyListing(all);
      while |index| > 0 && index[0] < threshold
        invariant Keyed(items) && Indexes(index, items) && cache == old(cache)
        invariant cut <= threshold && items == From(all, cut) && Listing(removed, Under(all, cut))
        decreases |index|
      {
        var nonce;
        ghost var before := index;
        LeastNonce(index, items);
        nonce, index := Heap.Pop(index, NonceKey);
        IndexWithout(before, index, items, nonce);
        ForwardStep(all, cut, nonce, removed);
        removed := removed + [items[nonce]];
        items, cut := items - {nonce}, nonce + 1;
      }
      if |index| > 0 { LeastNonce(index, items); } else { IndexMembers(index, items); }
      ForwardDone(all, cut, threshold);
      if cache.Some? {
        SplitPoint(cache.value, all, threshold, removed);
        cache := Some(cache.value[|removed|..]);
      }
    }

    /** Removes what satisfies the filter and returns it in the order of a map iteration. */
    method Filter(filter: Tx -> bool) returns (removed: seq<Tx>)
      requires Valid()
      modifies this
      ensures Valid()
      ensures items == WhereNot(old(items), filter) && Enumerates(removed, Where(old(items), filter))
    {
      hide Listing, Heap.IsHeap;
      ghost var all := items;
      items, removed := TakeOut(items, filter);
      if |removed| > 0 {
        var keys := SeqOfSet(items.Keys);
        index := Heap.Init(keys, NonceKey);
        cache := None;
      } else {
        assert forall n :: n in all ==> n !in Where(all, filter);
        assert items == all;
      }
    }

    /** Keeps the `threshold` lowest nonces and returns the rest from the highest down. */
    method Cap(threshold: nat) returns (drops: seq<Tx>)
      requires Valid()
      modifies this
      ensures Valid()
      ensures items == Lowest(old(items), threshold)
      ensures Listing(Reversed(drops), Highest(old(items), threshold))
    {
      hide Listing, Heap.IsHeap, Indexes;
      if |items| <= threshold {
        NothingToDrop(items, threshold);
        return [];
      }
      ghost var all := items;
      items, drops, index := CapItems(items, index, threshold);
      if cache.Some? {
        ListingSize(cache.value, all);
        LowestIsPrefix(cache.value, all, threshold);
        cache := Some(cache.value[..|cache.value| - |drops|]);
      }
    }

    method Remove(nonce: nat) returns (found: bool)
      requires Valid()
      modifies this
      ensures Valid()
      ensures found == (nonce in old(items)) && items == old(items) - {nonce}
      ensures !found ==> items == old(items)
    {
      hide Listing, Heap.IsHeap;
      if nonce !in items {
        assert items - {nonce} == items;
        return false;
      }
      IndexMembers(index, items);
      var i := Find(index, nonce);
      ghost var before := index;
      index := Heap.Remove(index, i, NonceKey);
      IndexWithout(before, index, items, nonce);
      items, cache := items - {nonce}, None;
      return true;
    }

    /** Takes out the unbroken run from the lowest nonce on, unless that nonce is beyond `start`. */
    method Ready(start: nat) returns (ready: seq<Tx>)
      requires Valid()
      modifies this
      ensures Valid()
      ensures (forall n :: n in old(items) ==> n > start) ==> ready == [] && items == old(items)
      ensures (exists n :: n in old(items) && n <= start) ==>
                && |ready| > 0 && IsLeast(old(items), ready[0].nonce)
                && items == WithoutRun(old(items), ready[0].nonce)
                && Listing(ready, RunFrom(old(items), ready[0].nonce))
    {
      hide Listing, Heap.IsHeap, RunFrom, WithoutRun;
      IndexMembers(index, items);
      if |index| > 0 { LeastNonce(index, items); }
      if |index| == 0 || index[0] > start { return []; }
      items, index, ready := TakeRun(items, index);
      cache := None;
    }

    /** The listing, built once and kept until the next change. */
    method Flatten() returns (txs: seq<Tx>)
      requires Valid()
      modifies this`cache
      ensures Valid() && Listing(txs, items)
    {
      hide Listing, Heap.IsHeap;
      if cache.None? {
        var keys := SeqOfSet(items.Keys);
        keys := Heap.Sort(keys, NonceKey);
        IndexMembers(keys, items);
        var listed := LookUp(keys, items);
        SortedIndexLists(keys, items, listed);
        cache := Some(listed);
      }
      return cache.value;
    }
  }

  // ----- txList -----

  /** The price a replacement has to reach, and it has to exceed the old price in any case. */
  predicate Outbids(tx: Tx, old_: Tx, priceBump: nat) {
    tx.price > old_.price && tx.price >= old_.price * (100 + priceBump) / 100
  }

  lemma DivBound(x: nat, y: nat)
    ensures x / 100 <= y <==> 100 * y + 100 > x
  {}

  /**
   In prices times a hundred: the old price raised by the bump is reached, up to
   less than one, and the old price is exceeded. A bump of 10 percent refuses 105
   against 100, accepts 110, and accepts 2 against 1.
   */
  lemma OutbidsByBump(tx: Tx, old_: Tx, priceBump: nat)
    ensures Outbids(tx, old_, priceBump)
            <==> tx.price > old_.price && 100 * tx.price + 100 > old_.price * (100 + priceBump)
    ensures priceBump == 10 && old_.price == 100 ==> (Outbids(tx, old_, priceBump) <==> tx.price >= 110)
    ensures priceBump == 10 && old_.price == 1 ==> (Outbids(tx, old_, priceBump) <==> tx.price >= 2)
  {
    DivBound(old_.price * (100 + priceBump), tx.price);
  }

  function Over(costLimit: nat, gasLimit: nat): Tx -> bool {
    (t: Tx) => t.cost > costLimit || t.gas > gasLimit
  }

  function Behind(nonce: nat): Tx -> bool {
    (t: Tx) => t.nonce > nonce
  }

  lemma NoneOver(m: Nonces, f: Tx -> bool)
    requires forall n :: n in m ==> !f(m[n])
    ensures Where(m, f) == map[] && WhereNot(m, f) == m && StrictKept(m, f) == m && StrictInvalid(m, f) == map[]
    ensures Enumerates([], Where(m, f))
  {}

  /** What is filtered out costs more than the one or uses more than the other limit. */
  lemma AllOver(m: Nonces, costLimit: nat, gasLimit: nat, removed: seq<Tx>)
    requires Enumerates(removed, Where(m, Over(costLimit, gasLimit)))
    ensures forall x :: x in removed ==> x.cost > costLimit || x.gas > gasLimit
  {}

  lemma NoneRemoved(m: Nonces, f: Tx -> bool)
    requires Enumerates([], Where(m, f))
    ensures forall n :: n in m ==> !f(m[n])
  {
    assert Where(m, f) == map[];
    forall n | n in m ensures !f(m[n]) { assert n !in Where(m, f); }
  }

  method LowestOf(s: seq<Tx>) returns (lowest: nat)
    requires |s| > 0
    ensures (exists x :: x in s && x.nonce == lowest) && forall x :: x in s ==> lowest <= x.nonce
  {
    lowest := s[0].nonce;
    for i := 0 to |s|
      invariant exists x :: x in s && x.nonce == lowest
      invariant forall j :: 0 <= j < i ==> lowest <= s[j].nonce
    {
      if lowest > s[i].nonce { lowest := s[i].nonce; }
    }
  }

  lemma CutAbove(m: Nonces, f: Tx -> bool, removed: seq<Tx>, lowest: nat)
    requires Keyed(m) && Enumerates(removed, Where(m, f))
    requires (exists x :: x in removed && x.nonce == lowest) && forall x :: x in removed ==> lowest <= x.nonce
    ensures WhereNot(WhereNot(m, f), Behind(lowest)) == StrictKept(m, f)
    ensures Where(WhereNot(m, f), Behind(lowest)) == StrictInvalid(m, f)
  {
    assert lowest in m && f(m[lowest]);
    assert forall x :: x in m && f(m[x]) ==> lowest <= x by {
      forall x | x in m && f(m[x]) ensures lowest <= x { assert Where(m, f)[x] in removed; }
    }
  }

  lemma KeyedCut(m: Nonces, n: nat)
    requires Keyed(m)
    ensures WhereNot(m - {n}, Behind(n)) == Under(m, n) && Where(m - {n}, Behind(n)) == From(m, n + 1)
  {}

  lemma FilteredBounds(m: Nonces, f: Tx -> bool)
    ensures forall n :: n in WhereNot(m, f) ==> n in m && WhereNot(m, f)[n] == m[n] && !f(m[n])
  {}

  class TxList {
    const strict: bool
    const txs: TxSortedMap
    var costcap: nat
    var gascap: nat

    /** The caps bound every stored transaction. */
    ghost predicate Valid()
      reads this, txs
    {
      txs.Valid() && forall n :: n in txs.items ==> txs.items[n].cost <= costcap && txs.items[n].gas <= gascap
    }

    constructor (strict: bool)
      ensures Valid() && fresh(txs) && this.strict == strict && txs.items == map[]
    {
      this.strict := strict;
      txs := new TxSortedMap();
      costcap, gascap := 0, 0;
    }

    method Add(tx: Tx, priceBump: nat) returns (inserted: bool, replaced: Option<Tx>)
      requires Valid()
      modifies this, txs
      ensures Valid()
      ensures inserted == (tx.nonce in old(txs.items) ==> Outbids(tx, old(txs.items)[tx.nonce], priceBump))
      ensures inserted <==> (tx.nonce in old(txs.items) ==>
                               var was := old(txs.items)[tx.nonce].price;
                               tx.price > was && 100 * tx.price + 100 > was * (100 + priceBump))
      ensures txs.items == if inserted then old(txs.items)[tx.nonce := tx] else old(txs.items)
      ensures replaced == if inserted && tx.nonce in old(txs.items) then Some(old(txs.items)[tx.nonce]) else None
    {
      replaced := None;
      if tx.nonce in txs.items {
        OutbidsByBump(tx, txs.items[tx.nonce], priceBump);
        var was := txs.items[tx.nonce];
        var threshold := was.price * (100 + priceBump) / 100;
        if was.price >= tx.price || threshold > tx.price {
          return false, None;
        }
        replaced := Some(was);
      }
      txs.Put(tx);
      if costcap < tx.cost { costcap := tx.cost; }
      if gascap < tx.gas { gascap := tx.gas; }
      inserted := true;
    }

    /** Removes the nonces under the threshold; the caps bound what is left. */
    method Forward(threshold: nat) returns (removed: seq<Tx>)
      requires Valid()
      modifies txs
      ensures Valid()
      ensures txs.items == From(old(txs.items), threshold) && Listing(removed, Under(old(txs.items), threshold))
    {
      hide Listing, Keyed, Indexes, CacheOk;
      removed := txs.Forward(threshold);
    }

    /** Keeps the lowest nonces; the caps bound them. */
    method Cap(threshold: nat) returns (drops: seq<Tx>)
      requires Valid()
      modifies txs
      ensures Valid()
      ensures txs.items == Lowest(old(txs.items), threshold)
      ensures Listing(Reversed(drops), Highest(old(txs.items), threshold))
    {
      hide Listing, Keyed, Indexes, CacheOk;
      drops := txs.Cap(threshold);
    }

    /** Takes out the run that is ready; the caps bound the rest. */
    method Ready(start: nat) returns (ready: seq<Tx>)
      requires Valid()
      modifies txs
      ensures Valid()
      ensures (forall n :: n in old(txs.items) ==> n > start) ==> ready == [] && txs.items == old(txs.items)
      ensures (exists n :: n in old(txs.items) && n <= start) ==>
                && |ready| > 0 && IsLeast(old(txs.items), ready[0].nonce)
                && txs.items == WithoutRun(old(txs.items), ready[0].nonce)
                && Listing(ready, RunFrom(old(txs.items), ready[0].nonce))
    {
      hide Listing, Keyed, Indexes, CacheOk;
      ready := txs.Ready(start);
    }

    method Flatten() returns (listed: seq<Tx>)
      requires Valid()
      modifies txs`cache
      ensures Valid() && Listing(listed, txs.items)
    {
      hide Listing, Keyed, Indexes, CacheOk;
      listed := txs.Flatten();
    }

    /** Same result as a full scan, although the caps may let it return at once. */
    method Filter(costLimit: nat, gasLimit: nat) returns (removed: seq<Tx>, invalids: seq<Tx>)
      requires Valid()
      modifies this, txs
      ensures Valid()
      ensures var m, f := old(txs.items), Over(costLimit, gasLimit);
              && Enumerates(removed, Where(m, f))
              && txs.items == (if strict then StrictKept(m, f) else WhereNot(m, f))
              && Enumerates(invalids, if strict then StrictInvalid(m, f) else map[])
      ensures forall x :: x in removed ==> x.cost > costLimit || x.gas > gasLimit
      ensures forall n :: n in txs.items ==> txs.items[n].cost <= costLimit && txs.items[n].gas <= gasLimit
    {
      hide Indexes, CacheOk, Where, WhereNot, StrictKept, StrictInvalid, Enumerates;
      ghost var m := txs.items;
      var f := Over(costLimit, gasLimit);
      if costcap <= costLimit && gascap <= gasLimit {
        NoneOver(m, f);
        EmptyEnumeration();
        return [], [];
      }
      costcap, gascap := costLimit, gasLimit;
      removed := txs.Filter(f);
      AllOver(m, costLimit, gasLimit, removed);
      invalids := [];
      EmptyEnumeration();
      FilteredBounds(m, f);
      if strict && |removed| > 0 {
        var lowest := LowestOf(removed);
        CutAbove(m, f, removed, lowest);
        FilteredBounds(txs.items, Behind(lowest));
        invalids := txs.Filter(Behind(lowest));
      } else if strict {
        NoneRemoved(m, f);
        NoneOver(m, f);
      }
    }

    /** By nonce; in a strict list everything behind it has to go as well. */
    method Remove(tx: Tx) returns (found: bool, invalids: seq<Tx>)
      requires Valid()
      modifies this, txs
      ensures Valid() && found == (tx.nonce in old(txs.items))
      ensures !found ==> txs.items == old(txs.items) && invalids == []
      ensures found && !strict ==> txs.items == old(txs.items) - {tx.nonce} && invalids == []
      ensures found && strict ==>
                txs.items == Under(old(txs.items), tx.nonce) && Enumerates(invalids, From(old(txs.items), tx.nonce + 1))
    {
      hide Indexes, CacheOk, Where, WhereNot, Enumerates;
      ghost var m := txs.items;
      found := txs.Remove(tx.nonce);
      invalids := [];
      if found && strict {
        KeyedCut(m, tx.nonce);
        invalids := txs.Filter(Behind(tx.nonce));
      }
    }
  }
}
