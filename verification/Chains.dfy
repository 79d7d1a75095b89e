/**
 Blocks linked by the hash of their parent, and the store of known blocks.
 Hashing is a parameter: any injective function that never yields the zero hash.
 */
module Chains {
  type Hash = nat

  type Tx = nat

  const ZERO_HASH: Hash := 0

  /**
   A block, or its header: the transaction root in a header fixes the
   transactions. `extra` stands for every other header field.
   */
  datatype Block = Block(number: nat, parentHash: Hash, difficulty: int, txs: seq<Tx>, extra: nat)

  /** Headers and total difficulties are filed under hash and number together. */
  datatype Key = Key(hash: Hash, number: nat)

  type Store = map<Key, Block>

  ghost predicate Hashing(hashOf: Block -> Hash) {
    && (forall b :: hashOf(b) != ZERO_HASH)
    && (forall a, b :: hashOf(a) == hashOf(b) ==> a == b)
  }

  function KeyOf(hashOf: Block -> Hash, b: Block): Key {
    Key(hashOf(b), b.number)
  }

  function ParentKey(b: Block): Key
    requires b.number > 0
  {
    Key(b.parentHash, b.number - 1)
  }

  // ----- Chains as sequences -----

  /** c[i] is the block at height i, and each block names its predecessor. */
  ghost predicate IsChain(hashOf: Block -> Hash, c: seq<Block>) {
    && (forall i :: 0 <= i < |c| ==> c[i].number == i)
    && (forall i :: 0 < i < |c| ==> c[i].parentHash == hashOf(c[i - 1]))
  }

  /** Chains that meet at a height share everything below it. */
  lemma {:induction false} ChainsMeet(hashOf: Block -> Hash, c: seq<Block>, d: seq<Block>, i: nat)
    requires Hashing(hashOf) && IsChain(hashOf, c) && IsChain(hashOf, d)
    requires i < |c| && i < |d| && c[i] == d[i]
    ensures c[..i + 1] == d[..i + 1]
  {
    if i > 0 {
      assert c[i].parentHash == hashOf(c[i - 1]) && d[i].parentHash == hashOf(d[i - 1]);
      ChainsMeet(hashOf, c, d, i - 1);
      assert c[..i + 1] == c[..i] + [c[i]] && d[..i + 1] == d[..i] + [d[i]];
    }
  }

  // ----- The store -----

  ghost predicate Keyed(hashOf: Block -> Hash, store: Store) {
    forall k :: k in store ==> k == KeyOf(hashOf, store[k])
  }

  ghost predicate Rooted(store: Store, b: Block) {
    b.number > 0 ==> ParentKey(b) in store
  }

  /** Every stored block but a genesis has its parent stored. */
  ghost predicate Closed(hashOf: Block -> Hash, store: Store) {
    Keyed(hashOf, store) && forall k {:trigger Rooted(store, store[k])} :: k in store ==> Rooted(store, store[k])
  }

  /** The ancestors of a block, from the genesis up to the block itself. */
  function ChainOf(hashOf: Block -> Hash, store: Store, b: Block): (c: seq<Block>)
    requires Closed(hashOf, store) && Rooted(store, b)
    ensures |c| == b.number + 1 && c[b.number] == b
    decreases b.number
  {
    if b.number == 0 then [b] else ChainOf(hashOf, store, store[ParentKey(b)]) + [b]
  }

  predicate Stored(hashOf: Block -> Hash, store: Store, b: Block) {
    KeyOf(hashOf, b) in store && store[KeyOf(hashOf, b)] == b
  }

  lemma StoredIsRooted(hashOf: Block -> Hash, store: Store, b: Block)
    requires Closed(hashOf, store) && Stored(hashOf, store, b)
    ensures Rooted(store, b)
  {
    assert Rooted(store, store[KeyOf(hashOf, b)]);
  }

  lemma {:induction false} ChainOfIsChain(hashOf: Block -> Hash, store: Store, b: Block)
    requires Closed(hashOf, store) && Rooted(store, b)
    ensures var c := ChainOf(hashOf, store, b);
            IsChain(hashOf, c) && forall i :: 0 <= i < b.number ==> Stored(hashOf, store, c[i])
    decreases b.number
  {
    if b.number > 0 { ChainOfIsChain(hashOf, store, store[ParentKey(b)]); }
  }

  /** A chain ending in a block is that block's chain of ancestors. */
  lemma ChainIsUnique(hashOf: Block -> Hash, store: Store, b: Block, c: seq<Block>)
    requires Hashing(hashOf) && Closed(hashOf, store) && Rooted(store, b)
    requires IsChain(hashOf, c) && |c| == b.number + 1 && c[b.number] == b
    ensures c == ChainOf(hashOf, store, b)
  {
    ChainOfIsChain(hashOf, store, b);
    ChainsMeet(hashOf, c, ChainOf(hashOf, store, b), b.number);
  }

  /** Ancestors do not depend on what else is stored. */
  lemma ChainInLarger(hashOf: Block -> Hash, store: Store, larger: Store, b: Block)
    requires Hashing(hashOf) && Closed(hashOf, store) && Closed(hashOf, larger) && store.Keys <= larger.Keys
    requires Rooted(store, b)
    ensures ChainOf(hashOf, larger, b) == ChainOf(hashOf, store, b)
  {
    ChainOfIsChain(hashOf, store, b);
    ChainIsUnique(hashOf, larger, b, ChainOf(hashOf, store, b));
  }

  /** Ancestors do not depend on blocks that are dropped, as long as the store stays closed. */
  lemma ChainInSmaller(hashOf: Block -> Hash, store: Store, smaller: Store, b: Block)
    requires Hashing(hashOf) && Closed(hashOf, store) && Closed(hashOf, smaller) && smaller.Keys <= store.Keys
    requires Stored(hashOf, store, b) && Stored(hashOf, smaller, b)
    ensures Rooted(store, b) && Rooted(smaller, b) && ChainOf(hashOf, smaller, b) == ChainOf(hashOf, store, b)
  {
    StoredIsRooted(hashOf, store, b);
    StoredIsRooted(hashOf, smaller, b);
    ChainInLarger(hashOf, smaller, store, b);
  }

  function SumDifficulty(c: seq<Block>): int {
    if c == [] then 0 else SumDifficulty(c[..|c| - 1]) + c[|c| - 1].difficulty
  }

  lemma AddBlock(hashOf: Block -> Hash, store: Store, b: Block)
    requires Hashing(hashOf) && Closed(hashOf, store) && Rooted(store, b)
    ensures Closed(hashOf, store[KeyOf(hashOf, b) := b])
    ensures ChainOf(hashOf, store[KeyOf(hashOf, b) := b], b) == ChainOf(hashOf, store, b)
  {
    var larger := store[KeyOf(hashOf, b) := b];
    forall k | k in larger ensures Rooted(larger, larger[k]) {
      if larger[k] != b { assert Rooted(store, store[k]); }
    }
    ChainInLarger(hashOf, store, larger, b);
  }
}

/** Where two chains part. */
module Forks {
  import opened Chains

  /** The height from which on the two chains differ. */
  ghost function Fork(c: seq<Block>, d: seq<Block>): (f: nat)
    ensures f <= |c| && f <= |d| && c[..f] == d[..f]
    ensures f < |c| && f < |d| ==> c[f] != d[f]
  {
    if c == [] || d == [] || c[0] != d[0] then 0
    else
      assert c == [c[0]] + c[1..] && d == [d[0]] + d[1..];
      1 + Fork(c[1..], d[1..])
  }

  lemma PrefixAt(c: seq<Block>, d: seq<Block>, m: nat)
    requires m <= |c| && m <= |d| && c[..m] == d[..m]
    ensures forall k :: 0 <= k < m ==> c[k] == d[k]
  {
    forall k | 0 <= k < m ensures c[k] == d[k] { assert c[..m][k] == d[..m][k]; }
  }

  /** Chains agree at a height exactly below the fork. */
  lemma BelowFork(hashOf: Block -> Hash, c: seq<Block>, d: seq<Block>, n: nat)
    requires Hashing(hashOf) && IsChain(hashOf, c) && IsChain(hashOf, d) && n < |c| && n < |d|
    ensures c[n] == d[n] <==> n < Fork(c, d)
  {
    var f := Fork(c, d);
    PrefixAt(c, d, f);
    if n >= f && c[n] == d[n] {
      ChainsMeet(hashOf, c, d, n);
      PrefixAt(c, d, n + 1);
    }
  }

  lemma ForkAt(c: seq<Block>, d: seq<Block>, f: nat)
    requires f <= |c| && f <= |d| && c[..f] == d[..f] && (f == |c| || f == |d| || c[f] != d[f])
    ensures Fork(c, d) == f
  {
    var g := Fork(c, d);
    hide Fork;
    PrefixAt(c, d, f);
    PrefixAt(c, d, g);
  }

  /** Two different positions on the chains, none below the fork, are not both at it. */
  lemma AboveFork(hashOf: Block -> Hash, c: seq<Block>, d: seq<Block>, o: nat, n: nat)
    requires Hashing(hashOf) && IsChain(hashOf, c) && IsChain(hashOf, d) && o < |c| && n < |d| && c[o] != d[n]
    requires 0 < Fork(c, d) <= o + 1 && Fork(c, d) <= n + 1
    ensures o >= n ==> o > 0 && Fork(c, d) <= o
    ensures o < n ==> Fork(c, d) <= n
  {
    hide Fork;
    BelowFork(hashOf, c, d, Fork(c, d) - 1);
  }
}
