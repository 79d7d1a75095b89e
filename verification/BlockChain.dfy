/**
 Block insertion and reorganisation of core/blockchain.go: the canonical number
 index and the transaction lookup table follow the current block.
 */
module BlockChains {
  import opened Basics
  import opened Chains
  import opened Forks
  import opened TxLookup

  datatype WriteStatus = UnknownAncestor | Canonical | Side

  ghost predicate Known(hashOf: Block -> Hash, blocks: Store, genesis: Block) {
    && Closed(hashOf, blocks) && genesis.number == 0
    && forall k :: k in blocks && k.number == 0 ==> blocks[k] == genesis
  }

  /** The transactions of a in order, leaving out those of b. */
  function TxDifference(a: seq<Tx>, b: seq<Tx>): (keep: seq<Tx>)
    ensures forall t :: t in keep <==> t in a && t !in b
  {
    if a == [] then []
    else
      assert a == [a[0]] + a[1..];
      (if a[0] in b then [] else [a[0]]) + TxDifference(a[1..], b)
  }

  /** The blocks of c at heights lo up to, not including, its last one are all known. */
  ghost predicate KnownFrom(hashOf: Block -> Hash, blocks: Store, c: seq<Block>, lo: nat) {
    forall n :: lo <= n < |c| - 1 ==> Stored(hashOf, blocks, c[n])
  }

  /** path lists c backwards, down to but not including height h. */
  ghost predicate Backwards(path: seq<Block>, c: seq<Block>, h: nat) {
    |path| == |c| - 1 - h && forall k :: 0 <= k < |path| ==> path[k] == c[|c| - 1 - k]
  }

  /** The canonical index with heights f and up taken from c. */
  function Renumbered(hashOf: Block -> Hash, canon: map<nat, Hash>, c: seq<Block>, f: nat): map<nat, Hash> {
    if |c| <= f then canon else Renumbered(hashOf, canon, c[..|c| - 1], f)[|c| - 1 := hashOf(c[|c| - 1])]
  }

  lemma {:induction false} RenumberedAt(hashOf: Block -> Hash, canon: map<nat, Hash>, c: seq<Block>, f: nat, n: nat)
    ensures var r := Renumbered(hashOf, canon, c, f);
            if f <= n < |c| then n in r && r[n] == hashOf(c[n])
            else (n in r <==> n in canon) && (n in r ==> r[n] == canon[n])
    decreases |c|
  {
    if f < |c| { RenumberedAt(hashOf, canon, c[..|c| - 1], f, n); }
  }

  /** Every height up to the head maps to the head's ancestor. */
  ghost predicate Numbered(hashOf: Block -> Hash, canon: map<nat, Hash>, c: seq<Block>) {
    forall n :: 0 <= n < |c| ==> n in canon && canon[n] == hashOf(c[n])
  }

  lemma NumberedBelow(hashOf: Block -> Hash, canon: map<nat, Hash>, c: seq<Block>)
    requires Numbered(hashOf, canon, c) && |c| > 0
    ensures Numbered(hashOf, canon, c[..|c| - 1])
  {}

  lemma NumberedTop(hashOf: Block -> Hash, canon: map<nat, Hash>, c: seq<Block>)
    requires |c| > 0 && Numbered(hashOf, canon, c[..|c| - 1])
    ensures Numbered(hashOf, canon[|c| - 1 := hashOf(c[|c| - 1])], c)
  {}

  lemma LookupsMore(hashOf: Block -> Hash, c: seq<Block>, b: Block)
    ensures LookupsOf(hashOf, c + [b]) == Enter(hashOf, LookupsOf(hashOf, c), [b])
  {
    EnterBoth(hashOf, map[], c, [b]);
  }

  lemma CanonFollows(hashOf: Block -> Hash, canon: map<nat, Hash>, co: seq<Block>, cn: seq<Block>, f: nat)
    requires Numbered(hashOf, canon, co) && f <= |co| && f <= |cn| && co[..f] == cn[..f]
    ensures Numbered(hashOf, Renumbered(hashOf, canon, cn, f), cn)
  {
    PrefixAt(co, cn, f);
    forall n: nat | n < |cn|
      ensures n in Renumbered(hashOf, canon, cn, f) && Renumbered(hashOf, canon, cn, f)[n] == hashOf(cn[n])
    {
      RenumberedAt(hashOf, canon, cn, f, n);
    }
  }

  /** Heights from f up to the end of c are taken from c, all others are as they were. */
  ghost predicate Rewritten(hashOf: Block -> Hash, was: map<nat, Hash>, now: map<nat, Hash>, c: seq<Block>, f: nat) {
    && (forall n :: f <= n < |c| ==> n in now && now[n] == hashOf(c[n]))
    && (forall n :: !(f <= n < |c|) ==> (n in now <==> n in was) && (n in now ==> now[n] == was[n]))
  }

  /** Renumbering from the fork and entering the new head once more. */
  lemma RewrittenBy(hashOf: Block -> Hash, canon: map<nat, Hash>, co: seq<Block>, cn: seq<Block>, f: nat)
    requires Numbered(hashOf, canon, co) && f <= |co| && f <= |cn| && cn != [] && co[..f] == cn[..f]
    ensures Rewritten(hashOf, canon, Renumbered(hashOf, canon, cn, f)[|cn| - 1 := hashOf(cn[|cn| - 1])], cn, f)
  {
    PrefixAt(co, cn, f);
    forall n: nat
      ensures var r := Renumbered(hashOf, canon, cn, f);
              if f <= n < |cn| then n in r && r[n] == hashOf(cn[n])
              else (n in r <==> n in canon) && (n in r ==> r[n] == canon[n])
    {
      RenumberedAt(hashOf, canon, cn, f, n);
    }
  }

  lemma ForkAtTop(co: seq<Block>, b: Block)
    ensures Fork(co, co + [b]) == |co|
  {
    hide Fork;
    assert (co + [b])[..|co|] == co[..|co|];
    ForkAt(co, co + [b], |co|);
  }

  lemma RewrittenUp(hashOf: Block -> Hash, canon: map<nat, Hash>, c: seq<Block>)
    requires c != []
    ensures Rewritten(hashOf, canon, canon[|c| - 1 := hashOf(c[|c| - 1])], c, |c| - 1)
  {}

  /** The lookup table follows too, exactly when no transaction stands on both sides of the fork. */
  lemma LookupsFollow(hashOf: Block -> Hash, co: seq<Block>, cn: seq<Block>, f: nat)
    requires f <= |co| && f <= |cn| && co[..f] == cn[..f]
    ensures Enter(hashOf, LookupsOf(hashOf, co), cn[f..]) - (TxsOf(co[f..]) - TxsOf(cn[f..])) == LookupsOf(hashOf, cn)
            <==> !Repeated(co[..f], co[f..], cn[f..])
    ensures NoRepeats(co) ==> !Repeated(co[..f], co[f..], cn[f..])
  {
    assert co == co[..f] + co[f..] && cn == co[..f] + cn[f..];
    ReorgLookups(hashOf, co[..f], co[f..], cn[f..]);
    if NoRepeats(co) { NoRepeatsSplit(co[..f], co[f..], cn[f..]); }
  }

  /** c has been walked down to height n. */
  ghost predicate Descended(hashOf: Block -> Hash, blocks: Store, c: seq<Block>, n: nat, path: seq<Block>, txs: seq<Tx>) {
    && n < |c| && Backwards(path, c, n) && KnownFrom(hashOf, blocks, c, n)
    && forall t :: t in txs <==> t in TxsOf(c[n + 1..])
  }

  lemma DescendStart(hashOf: Block -> Hash, blocks: Store, c: seq<Block>)
    requires |c| > 0
    ensures Descended(hashOf, blocks, c, |c| - 1, [], [])
  {
    assert c[|c|..] == [];
  }

  lemma DescendStep(hashOf: Block -> Hash, blocks: Store, c: seq<Block>, n: nat, path: seq<Block>, txs: seq<Tx>)
    requires Descended(hashOf, blocks, c, n, path, txs) && n > 0
    ensures Stored(hashOf, blocks, c[n - 1]) ==> Descended(hashOf, blocks, c, n - 1, path + [c[n]], txs + c[n].txs)
  {
    TxsOfOne(c[n + 1..], c[n]);
    assert c[n..] == [c[n]] + c[n + 1..];
  }

  lemma IsDescended(hashOf: Block -> Hash, blocks: Store, c: seq<Block>, n: nat, path: seq<Block>, txs: seq<Tx>)
    requires n < |c| && Backwards(path, c, n) && KnownFrom(hashOf, blocks, c, n)
    requires forall t :: t in txs <==> t in TxsOf(c[n + 1..])
    ensures Descended(hashOf, blocks, c, n, path, txs)
  {}

  ghost predicate ForkKnown(hashOf: Block -> Hash, blocks: Store, co: seq<Block>, cn: seq<Block>) {
    var f := Fork(co, cn);
    f > 0 && KnownFrom(hashOf, blocks, co, f - 1) && KnownFrom(hashOf, blocks, cn, f - 1)
  }

  /** Above the fork, both walks go one step further, or the fork is not known. */
  lemma BothStep(hashOf: Block -> Hash, blocks: Store, co: seq<Block>, cn: seq<Block>, k: nat,
                 po: seq<Block>, pn: seq<Block>, ot: seq<Tx>, nt: seq<Tx>)
    requires Hashing(hashOf) && IsChain(hashOf, co) && IsChain(hashOf, cn) && Fork(co, cn) <= k + 1
    requires Descended(hashOf, blocks, co, k, po, ot) && Descended(hashOf, blocks, cn, k, pn, nt) && co[k] != cn[k]
    ensures Fork(co, cn) <= k
    ensures k > 0 && Stored(hashOf, blocks, co[k - 1]) ==> Descended(hashOf, blocks, co, k - 1, po + [co[k]], ot + co[k].txs)
    ensures k > 0 && Stored(hashOf, blocks, cn[k - 1]) ==> Descended(hashOf, blocks, cn, k - 1, pn + [cn[k]], nt + cn[k].txs)
    ensures !(k > 0 && Stored(hashOf, blocks, co[k - 1]) && Stored(hashOf, blocks, cn[k - 1])) ==>
              !ForkKnown(hashOf, blocks, co, cn)
  {
    hide Fork, Hashing, TxsOf, Backwards;
    BelowFork(hashOf, co, cn, k);
    if k > 0 {
      DescendStep(hashOf, blocks, co, k, po, ot);
      DescendStep(hashOf, blocks, cn, k, pn, nt);
    }
  }

  lemma BothEnd(hashOf: Block -> Hash, blocks: Store, co: seq<Block>, cn: seq<Block>, k: nat,
                po: seq<Block>, pn: seq<Block>, ot: seq<Tx>, nt: seq<Tx>)
    requires Hashing(hashOf) && IsChain(hashOf, co) && IsChain(hashOf, cn) && Fork(co, cn) <= k + 1
    requires Descended(hashOf, blocks, co, k, po, ot) && Descended(hashOf, blocks, cn, k, pn, nt)
    requires hashOf(co[k]) == hashOf(cn[k])
    ensures Fork(co, cn) == k + 1 && ForkKnown(hashOf, blocks, co, cn)
    ensures forall t :: t in ot <==> t in TxsOf(co[k + 1..])
    ensures forall t :: t in nt <==> t in TxsOf(cn[k + 1..])
  {
    hide Fork, TxsOf, Backwards;
    BelowFork(hashOf, co, cn, k);
  }

  lemma DescendEnd(hashOf: Block -> Hash, blocks: Store, c: seq<Block>, n: nat, path: seq<Block>, txs: seq<Tx>)
    requires Descended(hashOf, blocks, c, n, path, txs)
    ensures Backwards(path, c, n) && KnownFrom(hashOf, blocks, c, n)
    ensures forall t :: t in txs <==> t in TxsOf(c[n + 1..])
  {}

  /** Both chains have been walked down to height k and differ above it. */
  ghost predicate Walked(hashOf: Block -> Hash, blocks: Store, co: seq<Block>, cn: seq<Block>, k: nat,
                         oldChain: seq<Block>, newChain: seq<Block>, deletedTxs: seq<Tx>)
  {
    && k < |co| && k < |cn| && Fork(co, cn) <= k + 1
    && Backwards(oldChain, co, k) && Backwards(newChain, cn, k)
    && KnownFrom(hashOf, blocks, co, k) && KnownFrom(hashOf, blocks, cn, k)
    && forall t :: t in deletedTxs <==> t in TxsOf(co[k + 1..])
  }

  lemma WalkStep(hashOf: Block -> Hash, blocks: Store, co: seq<Block>, cn: seq<Block>, k: nat,
                 oldChain: seq<Block>, newChain: seq<Block>, deletedTxs: seq<Tx>)
    requires Hashing(hashOf) && IsChain(hashOf, co) && IsChain(hashOf, cn)
    requires Walked(hashOf, blocks, co, cn, k, oldChain, newChain, deletedTxs) && co[k] != cn[k]
    ensures k > 0 && Stored(hashOf, blocks, co[k - 1]) && Stored(hashOf, blocks, cn[k - 1]) ==>
              Walked(hashOf, blocks, co, cn, k - 1, oldChain + [co[k]], newChain + [cn[k]], deletedTxs + co[k].txs)
    ensures !(k > 0 && Stored(hashOf, blocks, co[k - 1]) && Stored(hashOf, blocks, cn[k - 1])) ==>
              !ForkKnown(hashOf, blocks, co, cn)
  {
    hide Fork, Hashing;
    BelowFork(hashOf, co, cn, k);
    TxsOfOne(co[k + 1..], co[k]);
    assert co[k..] == [co[k]] + co[k + 1..];
  }

  lemma InsertStart(hashOf: Block -> Hash, canon: map<nat, Hash>, m: Lookups, cn: seq<Block>, f: nat)
    requires f <= |cn|
    ensures Renumbered(hashOf, canon, cn[..f], f) == canon && Enter(hashOf, m, cn[f..f]) == m && TxsOf(cn[f..f]) == {}
  {
    assert cn[f..f] == [];
  }

  lemma InsertStep(hashOf: Block -> Hash, canon: map<nat, Hash>, m: Lookups, cn: seq<Block>, f: nat, k: nat)
    requires f <= k < |cn|
    ensures Renumbered(hashOf, canon, cn[..k + 1], f) == Renumbered(hashOf, canon, cn[..k], f)[k := hashOf(cn[k])]
    ensures Enter(hashOf, m, cn[f..k + 1]) == Enter(hashOf, Enter(hashOf, m, cn[f..k]), [cn[k]])
    ensures TxsOf(cn[f..k + 1]) == TxsOf(cn[f..k]) + (set t | t in cn[k].txs)
  {
    assert cn[..k + 1][..k] == cn[..k] && cn[f..k + 1] == cn[f..k] + [cn[k]];
    EnterBoth(hashOf, m, cn[f..k], [cn[k]]);
    TxsOfOne(cn[f..k], cn[k]);
  }

  lemma WalkedIn(hashOf: Block -> Hash, blocks: Store, co: seq<Block>, cn: seq<Block>, k: nat,
                 oldChain: seq<Block>, newChain: seq<Block>, deletedTxs: seq<Tx>)
    requires Walked(hashOf, blocks, co, cn, k, oldChain, newChain, deletedTxs)
    ensures k < |co| && k < |cn|
  {}

  lemma WalkEnds(hashOf: Block -> Hash, blocks: Store, co: seq<Block>, cn: seq<Block>, k: nat,
                 oldChain: seq<Block>, newChain: seq<Block>, deletedTxs: seq<Tx>)
    requires Hashing(hashOf) && IsChain(hashOf, co) && IsChain(hashOf, cn)
    requires Walked(hashOf, blocks, co, cn, k, oldChain, newChain, deletedTxs) && co[k] == cn[k]
    ensures Fork(co, cn) == k + 1 && ForkKnown(hashOf, blocks, co, cn)
  {
    BelowFork(hashOf, co, cn, k);
  }

  lemma Level(hashOf: Block -> Hash, blocks: Store, co: seq<Block>, cn: seq<Block>, h: nat)
    requires IsChain(hashOf, co) && IsChain(hashOf, cn) && h < |co| && h < |cn| && (h == |co| - 1 || h == |cn| - 1)
    ensures Fork(co, cn) <= h + 1
    ensures !KnownFrom(hashOf, blocks, co, h) || !KnownFrom(hashOf, blocks, cn, h) ==> !ForkKnown(hashOf, blocks, co, cn)
    ensures h == |co| - 1 ==> KnownFrom(hashOf, blocks, co, h)
    ensures h == |cn| - 1 ==> KnownFrom(hashOf, blocks, cn, h)
  {
    hide Fork;
  }

  lemma LevelOld(hashOf: Block -> Hash, blocks: Store, co: seq<Block>, cn: seq<Block>, h: nat,
                 path: seq<Block>, txs: seq<Tx>)
    requires h < |co| && h == |cn| - 1 && Fork(co, cn) <= h + 1
    requires KnownFrom(hashOf, blocks, co, h) && KnownFrom(hashOf, blocks, cn, h) && Backwards(path, co, h)
    requires forall t :: t in txs <==> t in TxsOf(co[h + 1..])
    ensures Walked(hashOf, blocks, co, cn, h, path, [], txs)
  {}

  lemma LevelNew(hashOf: Block -> Hash, blocks: Store, co: seq<Block>, cn: seq<Block>, h: nat, path: seq<Block>)
    requires h < |cn| && h == |co| - 1 && Fork(co, cn) <= h + 1
    requires KnownFrom(hashOf, blocks, co, h) && KnownFrom(hashOf, blocks, cn, h) && Backwards(path, cn, h)
    ensures Walked(hashOf, blocks, co, cn, h, [], path, [])
  {
    assert co[h + 1..] == [];
  }

  lemma WalkGives(hashOf: Block -> Hash, blocks: Store, co: seq<Block>, cn: seq<Block>,
                  oldChain: seq<Block>, newChain: seq<Block>, deletedTxs: seq<Tx>)
    requires ForkKnown(hashOf, blocks, co, cn)
    requires Walked(hashOf, blocks, co, cn, Fork(co, cn) - 1, oldChain, newChain, deletedTxs)
    ensures var f := Fork(co, cn);
            && 0 < f <= |cn| && f <= |co| && Backwards(newChain, cn, f - 1)
            && forall t :: t in deletedTxs <==> t in TxsOf(co[f..])
  {}

  /** In a closed store with one genesis, a reorganisation cannot fail. */
  lemma ForkIsKnown(hashOf: Block -> Hash, blocks: Store, genesis: Block, a: Block, b: Block)
    requires Hashing(hashOf) && Known(hashOf, blocks, genesis) && Stored(hashOf, blocks, a) && Rooted(blocks, a)
    requires b.number > 0 && Rooted(blocks, b)
    ensures ForkKnown(hashOf, blocks, ChainOf(hashOf, blocks, a), ChainOf(hashOf, blocks, b))
  {
    var co, cn := ChainOf(hashOf, blocks, a), ChainOf(hashOf, blocks, b);
    ChainOfIsChain(hashOf, blocks, a);
    ChainOfIsChain(hashOf, blocks, b);
    assert Stored(hashOf, blocks, cn[0]) && Stored(hashOf, blocks, co[0]);
    assert co[0] == genesis == cn[0];
    BelowFork(hashOf, co, cn, 0);
  }

  /** Entering a block twice is entering it once. */
  lemma EnterTwice(hashOf: Block -> Hash, m: Lookups, b: Block)
    ensures Enter(hashOf, Enter(hashOf, m, [b]), [b]) == Enter(hashOf, m, [b])
  {
    forall t
      ensures var r, r' := Enter(hashOf, Enter(hashOf, m, [b]), [b]), Enter(hashOf, m, [b]);
              (t in r <==> t in r') && (t in r ==> r[t] == r'[t])
    {
      EnterIsLocal(hashOf, Enter(hashOf, m, [b]), m, [b], t);
      EnterIsLocal(hashOf, m, m, [b], t);
    }
  }

  /** Entering the last block of an indexed chain once more changes nothing. */
  lemma AgainSame(hashOf: Block -> Hash, c: seq<Block>)
    requires c != []
    ensures Enter(hashOf, LookupsOf(hashOf, c), [c[|c| - 1]]) == LookupsOf(hashOf, c)
  {
    var n := |c| - 1;
    assert c == c[..n] + [c[n]];
    EnterBoth(hashOf, map[], c[..n], [c[n]]);
    EnterTwice(hashOf, LookupsOf(hashOf, c[..n]), c[n]);
  }

  /**
   The table after the head moves from the end of co to the end of cn: the new
   blocks are entered, what only the old ones had is deleted, and the new head
   is entered.
   */
  ghost function Moved(hashOf: Block -> Hash, was: Lookups, co: seq<Block>, cn: seq<Block>): Lookups
    requires cn != []
  {
    var f := Fork(co, cn);
    Enter(hashOf, Enter(hashOf, was, cn[f..]) - (TxsOf(co[f..]) - TxsOf(cn[f..])), [cn[|cn| - 1]])
  }

  lemma MovedUp(hashOf: Block -> Hash, was: Lookups, co: seq<Block>, b: Block)
    ensures Moved(hashOf, was, co, co + [b]) == Enter(hashOf, was, [b])
  {
    var cn := co + [b];
    assert cn[..|co|] == co[..|co|] && cn[|co|..] == [b] && co[|co|..] == [];
    ForkAt(co, cn, |co|);
    assert Enter(hashOf, was, [b]) - (TxsOf([]) - TxsOf([b])) == Enter(hashOf, was, [b]);
    EnterTwice(hashOf, was, b);
  }

  lemma ExtendsCurrent(hashOf: Block -> Hash, blocks: Store, current: Block, b: Block)
    requires Hashing(hashOf) && Closed(hashOf, blocks) && Stored(hashOf, blocks, current) && Rooted(blocks, current)
    requires b.number > 0 && Rooted(blocks, b) && b.parentHash == hashOf(current)
    ensures ChainOf(hashOf, blocks, b) == ChainOf(hashOf, blocks, current) + [b]
  {
    assert blocks[ParentKey(b)] == current;
  }

  lemma KnowMore(hashOf: Block -> Hash, blocks: Store, genesis: Block, b: Block, current: Block)
    requires Hashing(hashOf) && Known(hashOf, blocks, genesis) && b.number > 0 && ParentKey(b) in blocks
    requires Stored(hashOf, blocks, current) && Rooted(blocks, current)
    ensures var blocks' := blocks[KeyOf(hashOf, b) := b];
            && Known(hashOf, blocks', genesis) && Stored(hashOf, blocks', current) && Rooted(blocks', current)
            && Stored(hashOf, blocks', b) && Rooted(blocks', b)
            && ChainOf(hashOf, blocks', current) == ChainOf(hashOf, blocks, current)
            && ChainOf(hashOf, blocks', b) == ChainOf(hashOf, blocks, b)
  {
    AddBlock(hashOf, blocks, b);
    ChainInLarger(hashOf, blocks, blocks[KeyOf(hashOf, b) := b], current);
  }

  /** Walk one header down to the given height. */
  method DescendTo(hashOf: Block -> Hash, store: Store, header: Block, height: nat, ghost c: seq<Block>)
    returns (r: Option<Block>)
    requires Hashing(hashOf) && Keyed(hashOf, store) && IsChain(hashOf, c)
    requires |c| > 0 && c[|c| - 1] == header
    ensures r.Some? <==> KnownFrom(hashOf, store, c, height)
    ensures r.Some? ==> r.value == c[if height < |c| then height else |c| - 1]
  {
    var a := header;
    ghost var n: nat := |c| - 1;
    while a.number > height
      invariant n < |c| && a == c[n] && KnownFrom(hashOf, store, c, n) && (height < |c| ==> height <= n)
      invariant height >= |c| ==> n == |c| - 1
      decreases n
    {
      var k := Key(a.parentHash, a.number - 1);
      if k !in store {
        assert !Stored(hashOf, store, c[n - 1]);
        return None;
      }
      a := store[k];
      n := n - 1;
    }
    r := Some(a);
  }

  /** The last common ancestor of two headers, if the headers down to it are known. */
  method FindCommonAncestor(hashOf: Block -> Hash, store: Store, first: Block, second: Block,
                            ghost ca: seq<Block>, ghost cb: seq<Block>)
    returns (r: Option<Block>)
    requires Hashing(hashOf) && Keyed(hashOf, store) && IsChain(hashOf, ca) && IsChain(hashOf, cb)
    requires |ca| > 0 && ca[|ca| - 1] == first && |cb| > 0 && cb[|cb| - 1] == second
    ensures r.Some? <==> ForkKnown(hashOf, store, ca, cb)
    ensures r.Some? ==> r.value == ca[Fork(ca, cb) - 1] == cb[Fork(ca, cb) - 1]
  {
    hide Fork;
    ghost var h: nat := if |ca| < |cb| then |ca| - 1 else |cb| - 1;
    Level(hashOf, store, ca, cb, h);
    var x := DescendTo(hashOf, store, first, second.number, ca);
    if x.None? { return None; }
    var y := DescendTo(hashOf, store, second, x.value.number, cb);
    if y.None? { return None; }
    var a, b := x.value, y.value;
    ghost var k: nat := h;
    while hashOf(a) != hashOf(b)
      invariant k <= h && a == ca[k] && b == cb[k] && Fork(ca, cb) <= k + 1
      invariant KnownFrom(hashOf, store, ca, k) && KnownFrom(hashOf, store, cb, k)
      decreases k
    {
      BelowFork(hashOf, ca, cb, k);
      if a.number == 0 || Key(a.parentHash, a.number - 1) !in store {
        assert k > 0 ==> !Stored(hashOf, store, ca[k - 1]);
        return None;
      }
      if Key(b.parentHash, b.number - 1) !in store {
        assert !Stored(hashOf, store, cb[k - 1]);
        return None;
      }
      a, b := store[Key(a.parentHash, a.number - 1)], store[Key(b.parentHash, b.number - 1)];
      k := k - 1;
    }
    BelowFork(hashOf, ca, cb, k);
    PrefixAt(ca, cb, Fork(ca, cb));
    r := Some(a);
  }

  // ----- The rule for a new head -----

  /** The new total is above the local one, or equal to it and the block no higher than the current one. */
  predicate TakesOver(externTd: int, localTd: int, block: Block, current: Block) {
    externTd > localTd || (externTd == localTd && block.number <= current.number)
  }

  /** Choosing by the current block's number is choosing by its total difficulty. */
  ghost predicate ChoosesByTotal(hashOf: Block -> Hash, tds: map<Key, int>, current: Block, b: Block)
    requires KeyOf(hashOf, current) in tds
  {
    b.number > 0 && ParentKey(b) in tds ==>
      var td := b.difficulty + tds[ParentKey(b)];
      TakesOver(td, current.number, b, current) <==> TakesOver(td, tds[KeyOf(hashOf, current)], b, current)
  }

  /** The code takes the current number for its total: right for every next block exactly if they are equal. */
  lemma RuleIsByTotal(hashOf: Block -> Hash, tds: map<Key, int>, current: Block)
    requires KeyOf(hashOf, current) in tds
    ensures (forall b {:trigger ChoosesByTotal(hashOf, tds, current, b)} :: ChoosesByTotal(hashOf, tds, current, b))
            <==> tds[KeyOf(hashOf, current)] == current.number
  {
    var total := tds[KeyOf(hashOf, current)];
    if total != current.number {
      var highest := if total > current.number then total else current.number;
      var b := Block(current.number + 1, hashOf(current), highest - total, [], 0);
      assert ParentKey(b) == KeyOf(hashOf, current);
      assert !ChoosesByTotal(hashOf, tds, current, b);
    }
  }

  /** The totals of blocks of difficulty one on a genesis of difficulty d. */
  ghost predicate UnitTotals(tds: map<Key, int>, d: nat) {
    forall k :: k in tds ==> tds[k] == k.number + d
  }

  /** With such totals, a block takes over exactly if it is at most d lower; by totals it would have to be as high. */
  lemma UnitStep(hashOf: Block -> Hash, tds: map<Key, int>, b: Block, current: Block)
    requires b.number > 0 && ParentKey(b) in tds
    ensures forall d: nat :: UnitTotals(tds, d) && b.difficulty == 1 ==>
              var td := b.difficulty + tds[ParentKey(b)];
              && UnitTotals(tds[KeyOf(hashOf, b) := td], d)
              && (TakesOver(td, current.number, b, current) <==> b.number + d >= current.number)
              && (TakesOver(td, current.number + d, b, current) <==> b.number >= current.number)
  {}

  class BlockChain {
    const hashOf: Block -> Hash
    const genesis: Block
    var blocks: Store
    var tds: map<Key, int>
    var canon: map<nat, Hash>
    var lookups: Lookups
    var currentBlock: Block

    /** A chain of nothing but its genesis block. */
    constructor (hashOf: Block -> Hash, genesis: Block)
      requires Hashing(hashOf) && genesis.number == 0 && genesis.txs == []
      ensures Valid() && TxsIndexed()
      ensures this.hashOf == hashOf && this.genesis == genesis && currentBlock == genesis
      ensures blocks == map[KeyOf(hashOf, genesis) := genesis] && tds == map[KeyOf(hashOf, genesis) := genesis.difficulty]
      ensures lookups == map[] && (genesis.difficulty >= 0 ==> UnitTotals(tds, genesis.difficulty))
    {
      this.hashOf, this.genesis, currentBlock := hashOf, genesis, genesis;
      blocks, tds := map[KeyOf(hashOf, genesis) := genesis], map[KeyOf(hashOf, genesis) := genesis.difficulty];
      canon, lookups := map[0 := hashOf(genesis)], map[];
      new;
      assert ChainOf(hashOf, blocks, genesis) == [genesis];
      assert [genesis][..0] == [] && LookupsOf(hashOf, []) == map[];
    }

    function GetBlock(hash: Hash, number: int): (r: Option<Block>)
      reads this
    {
      if number >= 0 && Key(hash, number) in blocks then Some(blocks[Key(hash, number)]) else None
    }

    lemma GetParent(c: seq<Block>, n: nat)
      requires Hashing(hashOf) && Keyed(hashOf, blocks) && IsChain(hashOf, c) && 0 < n < |c|
      ensures GetBlock(c[n].parentHash, n - 1) == if Stored(hashOf, blocks, c[n - 1]) then Some(c[n - 1]) else None
    {}

    /** Walk down to the given height, collecting blocks and their transactions. */
    method Descend(block: Block, height: nat, ghost c: seq<Block>)
      returns (r: Option<Block>, path: seq<Block>, txs: seq<Tx>)
      requires Hashing(hashOf) && Keyed(hashOf, blocks) && IsChain(hashOf, c)
      requires |c| > height && c[|c| - 1] == block
      ensures r.Some? <==> KnownFrom(hashOf, blocks, c, height)
      ensures r.Some? ==> r.value == c[height] && Backwards(path, c, height)
      ensures r.Some? ==> forall t :: t in txs <==> t in TxsOf(c[height + 1..])
    {
      hide Descended;
      var b := block;
      path, txs := [], [];
      ghost var n: nat := |c| - 1;
      assert Descended(hashOf, blocks, c, n, [], []) by { DescendStart(hashOf, blocks, c); }
      while b.number != height
        invariant height <= n < |c| && b == c[n] && Descended(hashOf, blocks, c, n, path, txs)
        decreases n
      {
        GetParent(c, n);
        DescendStep(hashOf, blocks, c, n, path, txs);
        path, txs := path + [b], txs + b.txs;
        var p := GetBlock(b.parentHash, b.number - 1);
        if p.None? {
          assert !KnownFrom(hashOf, blocks, c, height) by { assert !Stored(hashOf, blocks, c[n - 1]); }
          return None, path, txs;
        }
        b := p.value;
        n := n - 1;
      }
      DescendEnd(hashOf, blocks, c, n, path, txs);
      r := Some(b);
    }

    /**
     What the transaction pool takes back after a change of head: the old
     chain's transactions above the fork that the new chain lacks. Changes of
     height by more than 64 are skipped.
     */
    method Reinjected(oldBlock: Block, newBlock: Block, ghost co: seq<Block>, ghost cn: seq<Block>)
      returns (ok: bool, reinject: seq<Tx>)
      requires Hashing(hashOf) && Keyed(hashOf, blocks) && IsChain(hashOf, co) && IsChain(hashOf, cn)
      requires |co| > 0 && co[|co| - 1] == oldBlock && |cn| > 0 && cn[|cn| - 1] == newBlock
      ensures var deep := |co| > |cn| + 64 || |cn| > |co| + 64;
              var f := Fork(co, cn);
              && (deep ==> ok && reinject == [])
              && (!deep ==> (ok <==> ForkKnown(hashOf, blocks, co, cn)))
              && (!deep && ok ==> forall t :: t in reinject <==> t in TxsOf(co[f..]) && t !in TxsOf(cn[f..]))
    {
      hide Fork, ForkKnown, Descended, TxsOf, KnownFrom, Backwards, Hashing, Keyed, TxDifference, Stored;
      if oldBlock.number > newBlock.number + 64 || newBlock.number > oldBlock.number + 64 { return true, []; }
      ghost var k: nat := if |co| < |cn| then |co| - 1 else |cn| - 1;
      Level(hashOf, blocks, co, cn, k);
      var rem, add, discarded, included := oldBlock, newBlock, [], [];
      ghost var po, pn: seq<Block> := [], [];
      DescendStart(hashOf, blocks, co);
      DescendStart(hashOf, blocks, cn);
      if oldBlock.number > newBlock.number {
        var p;
        p, po, discarded := Descend(oldBlock, newBlock.number, co);
        if p.None? { return false, []; }
        IsDescended(hashOf, blocks, co, k, po, discarded);
        rem := p.value;
      } else {
        var p;
        p, pn, included := Descend(newBlock, oldBlock.number, cn);
        if p.None? { return false, []; }
        IsDescended(hashOf, blocks, cn, k, pn, included);
        add := p.value;
      }
      while hashOf(rem) != hashOf(add)
        invariant k < |co| && k < |cn| && rem == co[k] && add == cn[k] && Fork(co, cn) <= k + 1
        invariant Descended(hashOf, blocks, co, k, po, discarded) && Descended(hashOf, blocks, cn, k, pn, included)
        decreases k
      {
        BothStep(hashOf, blocks, co, cn, k, po, pn, discarded, included);
        if k > 0 {
          GetParent(co, k);
          GetParent(cn, k);
        }
        var r, a := GetBlock(rem.parentHash, rem.number - 1), GetBlock(add.parentHash, add.number - 1);
        if r.None? || a.None? { return false, []; }
        discarded, included := discarded + rem.txs, included + add.txs;
        po, pn := po + [rem], pn + [add];
        rem, add := r.value, a.value;
        k := k - 1;
      }
      BothEnd(hashOf, blocks, co, cn, k, po, pn, discarded, included);
      return true, TxDifference(discarded, included);
    }

    /** Walk both chains down in step until they meet. */
    method FindFork(oldBlock: Block, newBlock: Block, oldPath: seq<Block>, newPath: seq<Block>, oldTxs: seq<Tx>,
                    ghost co: seq<Block>, ghost cn: seq<Block>, ghost h: nat)
      returns (ok: bool, oldChain: seq<Block>, newChain: seq<Block>, deletedTxs: seq<Tx>)
      requires Hashing(hashOf) && Keyed(hashOf, blocks) && IsChain(hashOf, co) && IsChain(hashOf, cn)
      requires Walked(hashOf, blocks, co, cn, h, oldPath, newPath, oldTxs) && oldBlock == co[h] && newBlock == cn[h]
      ensures ok <==> ForkKnown(hashOf, blocks, co, cn)
      ensures ok ==> Walked(hashOf, blocks, co, cn, Fork(co, cn) - 1, oldChain, newChain, deletedTxs)
    {
      hide Walked, ForkKnown, Fork;
      var o, n := oldBlock, newBlock;
      oldChain, newChain, deletedTxs := oldPath, newPath, oldTxs;
      ghost var k: nat := h;
      assert h < |co| && h < |cn| by { WalkedIn(hashOf, blocks, co, cn, h, oldPath, newPath, oldTxs); }
      while hashOf(o) != hashOf(n)
        invariant k <= h && o == co[k] && n == cn[k]
        invariant Walked(hashOf, blocks, co, cn, k, oldChain, newChain, deletedTxs)
        decreases k
      {
        WalkStep(hashOf, blocks, co, cn, k, oldChain, newChain, deletedTxs);
        oldChain, newChain, deletedTxs := oldChain + [o], newChain + [n], deletedTxs + o.txs;
        if k > 0 {
          GetParent(co, k);
          GetParent(cn, k);
        }
        var po, pn := GetBlock(o.parentHash, o.number - 1), GetBlock(n.parentHash, n.number - 1);
        if po.None? || pn.None? {
          return false, oldChain, newChain, deletedTxs;
        }
        o, n := po.value, pn.value;
        k := k - 1;
      }
      WalkEnds(hashOf, blocks, co, cn, k, oldChain, newChain, deletedTxs);
      ok := true;
    }

    method WriteTxLookupEntries(block: Block)
      modifies this`lookups
      ensures lookups == Enter(hashOf, old(lookups), [block])
    {
      for i := 0 to |block.txs|
        invariant lookups == EnterFirst(hashOf, old(lookups), block, i)
      {
        lookups := lookups[block.txs[i] := Entry(hashOf(block), block.number, i)];
      }
      assert [block][..0] == [];
    }

    /** Inject a new head block. */
    method Insert(block: Block)
      modifies this`canon, this`currentBlock
      ensures canon == old(canon)[block.number := hashOf(block)] && currentBlock == block
    {
      canon := canon[block.number := hashOf(block)];
      currentBlock := block;
    }

    /** Insert the new chain in ascending order and enter its transactions. */
    method InsertAll(newChain: seq<Block>, ghost cn: seq<Block>, ghost f: nat) returns (addedTxs: seq<Tx>)
      requires IsChain(hashOf, cn) && 0 < f <= |cn| && Backwards(newChain, cn, f - 1)
      modifies this`canon, this`lookups, this`currentBlock
      ensures canon == Renumbered(hashOf, old(canon), cn, f) && lookups == Enter(hashOf, old(lookups), cn[f..])
      ensures currentBlock == if f < |cn| then cn[|cn| - 1] else old(currentBlock)
      ensures forall t :: t in addedTxs <==> t in TxsOf(cn[f..])
    {
      hide Renumbered, Enter, TxsOf;
      addedTxs := [];
      InsertStart(hashOf, canon, lookups, cn, f);
      var i := |newChain|;
      ghost var k := f;
      while i > 0
        invariant f <= k <= |cn| && i == |cn| - k
        invariant canon == Renumbered(hashOf, old(canon), cn[..k], f) && lookups == Enter(hashOf, old(lookups), cn[f..k])
        invariant currentBlock == if f < k then cn[k - 1] else old(currentBlock)
        invariant forall t :: t in addedTxs <==> t in TxsOf(cn[f..k])
      {
        i := i - 1;
        var b := newChain[i];
        assert b == cn[k];
        InsertStep(hashOf, old(canon), old(lookups), cn, f, k);
        Insert(b);
        WriteTxLookupEntries(b);
        addedTxs := addedTxs + b.txs;
        k := k + 1;
      }
      assert cn[..k] == cn && cn[f..k] == cn[f..];
    }

    method DeleteLookups(diff: seq<Tx>)
      modifies this`lookups
      ensures lookups == old(lookups) - (set t | t in diff)
    {
      for i := 0 to |diff|
        invariant lookups == old(lookups) - (set t | t in diff[..i])
      {
        assert diff[..i + 1] == diff[..i] + [diff[i]];
        lookups := lookups - {diff[i]};
      }
      assert diff[..|diff|] == diff;
    }

    /**
     Switch from the chain of oldBlock to that of newBlock. It fails, changing
     nothing, exactly when the chains have no known common block.
     */
    method Reorg(oldBlock: Block, newBlock: Block, ghost co: seq<Block>, ghost cn: seq<Block>) returns (ok: bool)
      requires Hashing(hashOf) && Keyed(hashOf, blocks) && IsChain(hashOf, co) && IsChain(hashOf, cn)
      requires |co| > 0 && co[|co| - 1] == oldBlock && |cn| > 0 && cn[|cn| - 1] == newBlock
      modifies this`canon, this`lookups, this`currentBlock
      ensures ok <==> ForkKnown(hashOf, blocks, co, cn)
      ensures !ok ==> canon == old(canon) && lookups == old(lookups) && currentBlock == old(currentBlock)
      ensures var f := Fork(co, cn);
              ok ==>
                && canon == Renumbered(hashOf, old(canon), cn, f)
                && lookups == Enter(hashOf, old(lookups), cn[f..]) - (TxsOf(co[f..]) - TxsOf(cn[f..]))
                && currentBlock == if f < |cn| then newBlock else old(currentBlock)
    {
      hide Walked, ForkKnown, Fork, KnownFrom, Backwards, TxsOf, Enter, Renumbered;
      ghost var h := if |co| < |cn| then |co| - 1 else |cn| - 1;
      Level(hashOf, blocks, co, cn, h);
      var p, path, txs;
      var newChain, deletedTxs;
      if oldBlock.number > newBlock.number {
        p, path, txs := Descend(oldBlock, newBlock.number, co);
        if p.None? { return false; }
        LevelOld(hashOf, blocks, co, cn, h, path, txs);
        ok, path, newChain, deletedTxs := FindFork(p.value, newBlock, path, [], txs, co, cn, h);
      } else {
        p, path, txs := Descend(newBlock, oldBlock.number, cn);
        if p.None? { return false; }
        LevelNew(hashOf, blocks, co, cn, h, path);
        ok, path, newChain, deletedTxs := FindFork(oldBlock, p.value, [], path, [], co, cn, h);
      }
      if !ok { return; }
      ghost var f := Fork(co, cn);
      WalkGives(hashOf, blocks, co, cn, path, newChain, deletedTxs);
      var addedTxs := InsertAll(newChain, cn, f);
      var diff := TxDifference(deletedTxs, addedTxs);
      assert (set t | t in diff) == TxsOf(co[f..]) - TxsOf(cn[f..]);
      DeleteLookups(diff);
    }

    /** The store is closed under parents and its one genesis, and the index follows the current block. */
    ghost predicate Valid()
      reads this
    {
      && Hashing(hashOf) && Known(hashOf, blocks, genesis) && tds.Keys == blocks.Keys
      && Stored(hashOf, blocks, currentBlock) && Rooted(blocks, currentBlock)
      && Numbered(hashOf, canon, ChainOf(hashOf, blocks, currentBlock))
    }

    /** The lookup table holds exactly the transactions of the current chain. */
    ghost predicate TxsIndexed()
      requires Valid()
      reads this
    {
      var c := ChainOf(hashOf, blocks, currentBlock);
      NoRepeats(c) && lookups == LookupsOf(hashOf, c)
    }

    /** Make a block whose parent is known the head; the parent may or may not be the current block. */
    method Adopt(block: Block)
      requires Valid() && block.number > 0 && ParentKey(block) in blocks
      modifies this`canon, this`lookups, this`currentBlock
      ensures currentBlock == block
      ensures Rooted(blocks, block) && Numbered(hashOf, canon, ChainOf(hashOf, blocks, block))
      ensures var co, cn := ChainOf(hashOf, blocks, old(currentBlock)), ChainOf(hashOf, blocks, block);
              Rewritten(hashOf, old(canon), canon, cn, Fork(co, cn))
      ensures lookups == Moved(hashOf, old(lookups), ChainOf(hashOf, blocks, old(currentBlock)), ChainOf(hashOf, blocks, block))
      ensures old(TxsIndexed()) ==> lookups == LookupsOf(hashOf, ChainOf(hashOf, blocks, block))
    {
      hide Hashing, ChainOf, IsChain, ForkKnown, Fork, Enter, TxsOf, NoRepeats, Renumbered, Numbered, Repeated, LookupsOf,
        Rewritten;
      ghost var co, cn := ChainOf(hashOf, blocks, currentBlock), ChainOf(hashOf, blocks, block);
      ChainOfIsChain(hashOf, blocks, currentBlock);
      ChainOfIsChain(hashOf, blocks, block);
      if block.parentHash != hashOf(currentBlock) {
        ForkIsKnown(hashOf, blocks, genesis, currentBlock, block);
        CanonFollows(hashOf, canon, co, cn, Fork(co, cn));
        LookupsFollow(hashOf, co, cn, Fork(co, cn));
        RewrittenBy(hashOf, canon, co, cn, Fork(co, cn));
        var ok := Reorg(currentBlock, block, co, cn);
        AgainSame(hashOf, cn);
        NumberedBelow(hashOf, canon, cn);
      } else {
        ExtendsCurrent(hashOf, blocks, currentBlock, block);
        LookupsMore(hashOf, co, block);
        ForkAtTop(co, block);
        RewrittenUp(hashOf, canon, cn);
        assert cn[..block.number] == co;
        MovedUp(hashOf, lookups, co, block);
      }
      WriteTxLookupEntries(block);
      NumberedTop(hashOf, canon, cn);
      Insert(block);
    }

    method WriteBlock(block: Block) returns (status: WriteStatus)
      requires Valid()
      modifies this`blocks, this`tds, this`canon, this`lookups, this`currentBlock
      ensures Valid()
      ensures status == UnknownAncestor <==> block.number == 0 || ParentKey(block) !in old(blocks)
      ensures status == UnknownAncestor ==> blocks == old(blocks) && tds == old(tds) && canon == old(canon)
      ensures status != UnknownAncestor ==>
                && blocks == old(blocks)[KeyOf(hashOf, block) := block] && ParentKey(block) in old(tds)
                && tds == old(tds)[KeyOf(hashOf, block) := block.difficulty + old(tds)[ParentKey(block)]]
      ensures status == Canonical <==>
                && block.number > 0 && ParentKey(block) in old(tds)
                && TakesOver(block.difficulty + old(tds)[ParentKey(block)], old(currentBlock).number, block,
                             old(currentBlock))
      ensures forall d: nat :: old(UnitTotals(tds, d)) && block.difficulty == 1 ==>
                && UnitTotals(tds, d)
                && (status != UnknownAncestor ==>
                      (status == Canonical <==> block.number + d >= old(currentBlock).number))
      ensures currentBlock == if status == Canonical then block else old(currentBlock)
      ensures status == Canonical ==>
                lookups == Moved(hashOf, old(lookups), old(ChainOf(hashOf, blocks, currentBlock)),
                                 ChainOf(hashOf, blocks, block))
      ensures status == Canonical ==>
                var co, cn := old(ChainOf(hashOf, blocks, currentBlock)), ChainOf(hashOf, blocks, block);
                Rewritten(hashOf, old(canon), canon, cn, Fork(co, cn))
      ensures status != Canonical ==> lookups == old(lookups) && canon == old(canon)
      ensures old(TxsIndexed()) && NoRepeats(ChainOf(hashOf, blocks, currentBlock)) ==> TxsIndexed()
    {
      hide Hashing, ChainOf, Closed, IsChain, Fork, NoRepeats, Moved, Rewritten;
      if block.number > 0 && ParentKey(block) in tds { UnitStep(hashOf, tds, block, currentBlock); }
      hide UnitTotals;
      if block.number == 0 || ParentKey(block) !in tds {
        return UnknownAncestor;
      }
      var localTd := currentBlock.number;
      var externTd := block.difficulty + tds[ParentKey(block)];
      status := if TakesOver(externTd, localTd, block, currentBlock) then Canonical else Side;
      KnowMore(hashOf, blocks, genesis, block, currentBlock);
      if status == Canonical { Adopt(block); }
      tds := tds[KeyOf(hashOf, block) := externTd];
      blocks := blocks[KeyOf(hashOf, block) := block];
    }
  }

  // ----- A run that loses an entry -----

  lemma ChainIs(hashOf: Block -> Hash, blocks: Store, b: Block, c: seq<Block>)
    requires Hashing(hashOf) && Closed(hashOf, blocks) && Stored(hashOf, blocks, b)
    requires IsChain(hashOf, c) && |c| == b.number + 1 && c[b.number] == b
    ensures Rooted(blocks, b) && ChainOf(hashOf, blocks, b) == c
  {
    StoredIsRooted(hashOf, blocks, b);
    ChainIsUnique(hashOf, blocks, b, c);
  }

  /** The deletion hits a transaction that an earlier block of the new chain holds as well. */
  lemma EntryDeleted(hashOf: Block -> Hash, was: Lookups, g: Block, a: Block, b: Block, c: Block, t: Tx)
    requires b != c && t in a.txs && t in b.txs && c.txs == []
    ensures t !in Moved(hashOf, was, [g, a, b], [g, a, c]) && t in TxsOf([g, a, c])
  {
    var co, cn := [g, a, b], [g, a, c];
    assert co[..2] == cn[..2] && co[2..] == [b] && cn[2..] == [c];
    ForkAt(co, cn, 2);
    assert t in TxsOf([b]) && t !in TxsOf([c]) by { assert b in [b]; }
    var m := Enter(hashOf, was, [c]) - (TxsOf([b]) - TxsOf([c]));
    EnterIsLocal(hashOf, m, m, [c], t);
    assert a in cn;
  }

  lemma KnownIsClosed(hashOf: Block -> Hash, blocks: Store, genesis: Block)
    requires Known(hashOf, blocks, genesis)
    ensures Closed(hashOf, blocks)
  {}

  /** One block on top of the head, where all difficulties are one above the genesis. */
  method Extend(chain: BlockChain, b: Block, ghost d: nat)
    requires chain.Valid() && UnitTotals(chain.tds, d) && b.difficulty == 1
    requires b.number == chain.currentBlock.number + 1 && b.parentHash == chain.hashOf(chain.currentBlock)
    modifies chain
    ensures chain.Valid() && chain.currentBlock == b && UnitTotals(chain.tds, d)
    ensures chain.blocks == old(chain.blocks)[KeyOf(chain.hashOf, b) := b]
  {
    hide Hashing, ChainOf, Known, NoRepeats, Moved, Numbered, LookupsOf, Rooted, UnitTotals;
    var status := chain.WriteBlock(b);
  }

  /**
   Height 1 and height 2 both hold transaction 7, then another block without it
   takes over at height 2: 7 is still on the chain but has no entry. Executing
   the second block would fail on the nonce, so only blocks that were stored
   without being executed can repeat a transaction.
   */
  method RepeatLosesEntry(hashOf: Block -> Hash) returns (chain: BlockChain)
    requires Hashing(hashOf)
    ensures chain.Valid() && chain.hashOf == hashOf && 7 !in chain.lookups
    ensures 7 in TxsOf(ChainOf(hashOf, chain.blocks, chain.currentBlock))
  {
    var g := Block(0, ZERO_HASH, 0, [], 0);
    var a := Block(1, hashOf(g), 1, [7], 0);
    var b := Block(2, hashOf(a), 1, [7], 0);
    var c := Block(2, hashOf(a), 1, [], 0);
    ghost var co, cn := [g, a, b], [g, a, c];
    assert IsChain(hashOf, co) && IsChain(hashOf, cn) && co[2] == b && cn[2] == c;
    hide Hashing, ChainOf, Known, NoRepeats, Moved, Numbered, LookupsOf, Rooted, TxsOf, IsChain, UnitTotals;
    chain := new BlockChain(hashOf, g);
    Extend(chain, a, 0);
    Extend(chain, b, 0);
    KnownIsClosed(hashOf, chain.blocks, g);
    ChainIs(hashOf, chain.blocks, b, co);
    EntryDeleted(hashOf, chain.lookups, g, a, b, c, 7);
    var status := chain.WriteBlock(c);
    KnownIsClosed(hashOf, chain.blocks, g);
    ChainIs(hashOf, chain.blocks, c, cn);
  }

  // ----- A run in which a lower block takes over -----

  /**
   A genesis of difficulty one, two blocks on it, and a side block of height one:
   its total 2 equals the current block's number 2, not its total 3, so the head
   goes back to the lower and lighter block.
   */
  method LowerBlockTakesOver(hashOf: Block -> Hash) returns (chain: BlockChain, left: Block)
    requires Hashing(hashOf)
    ensures chain.Valid() && chain.hashOf == hashOf && chain.currentBlock.number == 1 && left.number == 2
    ensures KeyOf(hashOf, left) in chain.tds && KeyOf(hashOf, chain.currentBlock) in chain.tds
    ensures chain.tds[KeyOf(hashOf, chain.currentBlock)] < chain.tds[KeyOf(hashOf, left)]
  {
    var g := Block(0, ZERO_HASH, 1, [], 0);
    var a1 := Block(1, hashOf(g), 1, [], 0);
    left := Block(2, hashOf(a1), 1, [], 0);
    var b1 := Block(1, hashOf(g), 1, [], 1);
    hide Hashing, ChainOf, Known, NoRepeats, Moved, Numbered, LookupsOf, Rooted;
    chain := new BlockChain(hashOf, g);
    Extend(chain, a1, 1);
    Extend(chain, left, 1);
    var status := chain.WriteBlock(b1);
  }
}
