/**
 A star node's view of core/blockchain.go: confirmations make blocks stable,
 and the current block is moved below the stable one.
 */
module StarNodes {
  import opened Chains
  import opened Confirmations
  import opened ForkChoice

  /** c was stored as a child of the block with hash h. */
  ghost predicate ChildOf(store: Store, h: Hash, c: Hash) {
    exists n: nat :: n > 0 && Key(c, n) in store && store[Key(c, n)].parentHash == h
  }

  /** The child lists name only stored blocks, each under its parent's hash. */
  ghost predicate Filed(store: Store, children: Children) {
    forall h, c {:trigger c in ChildrenOf(children, h)} :: c in ChildrenOf(children, h) ==> ChildOf(store, h, c)
  }

  /** And they name all of them. */
  ghost predicate Complete(hashOf: Block -> Hash, store: Store, children: Children) {
    forall b {:trigger Entered(hashOf, children, b)} ::
      Stored(hashOf, store, b) && b.number > 0 ==> Entered(hashOf, children, b)
  }

  /** Hence the lists of stored blocks name successors of theirs. */
  lemma FiledLists(hashOf: Block -> Hash, store: Store, children: Children)
    requires Hashing(hashOf) && Closed(hashOf, store) && Filed(store, children)
    ensures Listed(hashOf, store, children)
  {
    forall b, c | c in ChildrenOf(children, hashOf(b)) ensures HasChild(hashOf, store, b, c) {
      var n: nat :| n > 0 && Key(c, n) in store && store[Key(c, n)].parentHash == hashOf(b);
      StoredIsRooted(hashOf, store, store[Key(c, n)]);
    }
  }

  function WithChild(children: Children, h: Hash, c: Hash): Children {
    children[h := ChildrenOf(children, h) + [c]]
  }

  /** The lists fit a store that has got one block more. */
  lemma FiledInLarger(hashOf: Block -> Hash, store: Store, children: Children, b: Block)
    requires Hashing(hashOf) && Keyed(hashOf, store) && Filed(store, children)
    ensures Filed(store[KeyOf(hashOf, b) := b], children)
  {
    var store' := store[KeyOf(hashOf, b) := b];
    forall h, c | c in ChildrenOf(children, h) ensures ChildOf(store', h, c) {
      var n: nat :| n > 0 && Key(c, n) in store && store[Key(c, n)].parentHash == h;
      assert Key(c, n) in store' && store'[Key(c, n)] == store[Key(c, n)];
    }
  }

  /** Entering a stored block under its parent keeps the lists right. */
  lemma FiledGrows(hashOf: Block -> Hash, store: Store, children: Children, b: Block)
    requires Filed(store, children) && Stored(hashOf, store, b) && b.number > 0
    ensures Filed(store, WithChild(children, b.parentHash, hashOf(b)))
  {
    var children' := WithChild(children, b.parentHash, hashOf(b));
    forall h, c | c in ChildrenOf(children', h) ensures ChildOf(store, h, c) {
      if !(c in ChildrenOf(children, h)) { assert Key(c, b.number) in store; }
    }
  }

  /** And complete, if they were before the block was stored. */
  lemma CompleteGrows(hashOf: Block -> Hash, store: Store, children: Children, b: Block)
    requires Hashing(hashOf) && Complete(hashOf, store, children)
    ensures Complete(hashOf, store[KeyOf(hashOf, b) := b], WithChild(children, b.parentHash, hashOf(b)))
  {
    var store', children' := store[KeyOf(hashOf, b) := b], WithChild(children, b.parentHash, hashOf(b));
    forall x | Stored(hashOf, store', x) && x.number > 0 ensures Entered(hashOf, children', x) {
      if x != b { assert Stored(hashOf, store, x) && Entered(hashOf, children, x); }
    }
  }

  lemma {:induction false} LeafIsHigh(hashOf: Block -> Hash, store: Store, children: Children, top: nat, b: Block, l: Block)
    requires IsLeaf(hashOf, store, children, top, b, l)
    ensures l.number >= b.number && (Listed(hashOf, store, children) && Stored(hashOf, store, b) ==> Stored(hashOf, store, l))
    decreases top - b.number
  {
    if ChildrenOf(children, hashOf(b)) != [] {
      var c :| c in ChildrenOf(children, hashOf(b)) && LeafVia(hashOf, store, children, top, b, l, c);
      LeafIsHigh(hashOf, store, children, top, store[Key(c, b.number + 1)], l);
    }
  }

  /** r is the best of the leaves below b. */
  ghost predicate BestLeaf(hashOf: Block -> Hash, store: Store, children: Children, top: nat, b: Block, r: Block) {
    && IsLeaf(hashOf, store, children, top, b, r)
    && forall l :: IsLeaf(hashOf, store, children, top, b, l) ==> Beats(hashOf, r, l)
  }

  /** A list entered below b does not change the leaves above. */
  lemma {:induction false} SameLeaves(hashOf: Block -> Hash, store: Store, children: Children, top: nat, p: Block, c: Hash,
                                      b: Block, l: Block)
    requires Hashing(hashOf) && p.number < b.number
    ensures IsLeaf(hashOf, store, WithChild(children, hashOf(p), c), top, b, l)
            <==> IsLeaf(hashOf, store, children, top, b, l)
    decreases top - b.number
  {
    var children' := WithChild(children, hashOf(p), c);
    var cs := ChildrenOf(children, hashOf(b));
    assert ChildrenOf(children', hashOf(b)) == cs;
    if cs != [] && b.number < top {
      forall x | x in cs
        ensures LeafVia(hashOf, store, children', top, b, l, x) <==> LeafVia(hashOf, store, children, top, b, l, x)
      {
        if Key(x, b.number + 1) in store && store[Key(x, b.number + 1)].number == b.number + 1 {
          SameLeaves(hashOf, store, children, top, p, c, store[Key(x, b.number + 1)], l);
        }
      }
    }
  }

  lemma SameBestLeaf(hashOf: Block -> Hash, store: Store, children: Children, top: nat, p: Block, c: Hash, b: Block, r: Block)
    requires Hashing(hashOf) && p.number < b.number && BestLeaf(hashOf, store, children, top, b, r)
    ensures BestLeaf(hashOf, store, WithChild(children, hashOf(p), c), top, b, r)
  {
    hide IsLeaf, Hashing, Beats;
    var children' := WithChild(children, hashOf(p), c);
    SameLeaves(hashOf, store, children, top, p, c, b, r);
    forall l | IsLeaf(hashOf, store, children', top, b, l) ensures Beats(hashOf, r, l) {
      SameLeaves(hashOf, store, children, top, p, c, b, l);
    }
  }

  /** The nodes that confirm an inserted block; negative indices stand for unknown addresses. */
  function NewConfirmers(producer: int, own: int): set<nat> {
    (if producer < 0 then {} else {producer}) + if own < 0 then {} else {own}
  }

  /** What the test for one chain answers. */
  predicate SaysSameChain(current: Block, stable: Block) {
    current.number == 0 || current == stable
  }

  /** One more confirmation noted; a negative index is an unknown address. */
  function Noted(confirmers: map<nat, set<nat>>, hash: Hash, index: int): map<nat, set<nat>> {
    if index < 0 then confirmers
    else confirmers[hash := (if hash in confirmers then confirmers[hash] else {}) + {index}]
  }

  class StarChain {
    const hashOf: Block -> Hash
    const tracker: Tracker
    const genesis: Block
    var blocks: Store
    var children: Children
    var stableBlock: Block
    var currentBlock: Block
    /** No known block is higher. */
    ghost var top: nat

    ghost predicate Valid()
      reads this, tracker
    {
      && Hashing(hashOf) && Closed(hashOf, blocks) && Filed(blocks, children) && InReach(blocks, top)
      && Stored(hashOf, blocks, genesis) && Stored(hashOf, blocks, stableBlock) && Stored(hashOf, blocks, currentBlock)
      && tracker.Valid()
    }

    constructor (hashOf: Block -> Hash, genesis: Block, tracker: Tracker)
      requires Hashing(hashOf) && genesis.number == 0 && tracker.Valid()
      ensures Valid() && stableBlock == currentBlock == genesis == this.genesis && this.tracker == tracker
      ensures this.hashOf == hashOf && children == map[] && Complete(hashOf, blocks, children)
      ensures blocks == map[KeyOf(hashOf, genesis) := genesis]
    {
      this.hashOf, this.tracker, this.genesis, top := hashOf, tracker, genesis, 0;
      blocks, children := map[KeyOf(hashOf, genesis) := genesis], map[];
      stableBlock, currentBlock := genesis, genesis;
    }

    /**
     Whether the current block has the stable one among its ancestors, as the
     code decides it: each round of its loop looks up the block it is at again.
     */
    method IsCurAndStableBlockInSameChain() returns (same: bool)
      requires Valid()
      ensures same <==> SaysSameChain(currentBlock, stableBlock)
    {
      if currentBlock.number == 0 { return true; }
      var parBlock := currentBlock;
      if currentBlock.number < stableBlock.number { return false; }
      for i := 0 to currentBlock.number - stableBlock.number
        invariant parBlock == currentBlock
      {
        parBlock := blocks[Key(hashOf(parBlock), parBlock.number)];
      }
      return hashOf(stableBlock) == hashOf(parBlock);
    }

    method GetNewestBlockInStableChain() returns (best: Block)
      requires Valid()
      ensures BestLeaf(hashOf, blocks, children, top, stableBlock, best) && Stored(hashOf, blocks, best)
    {
      FiledLists(hashOf, blocks, children);
      hide IsLeaf, Listed, Closed, Hashing, Filed;
      var leaves := GetLeavesOfBlock(hashOf, blocks, children, stableBlock, top);
      forall l | l in leaves ensures l.number >= stableBlock.number && Stored(hashOf, blocks, l) {
        LeafIsHigh(hashOf, blocks, children, top, stableBlock, l);
      }
      best := BestOf(hashOf, leaves, stableBlock.number);
    }

    /** At least two thirds of the nodes, rounded down, count as confirming the block. */
    ghost predicate Quorum(hash: Hash)
      reads tracker
    {
      hash in tracker.confirmers && |Counted(tracker.Who(hash), tracker.nodeCount)| >= tracker.nodeCount * 2 / 3
    }

    /** With a bit for every node, a quorum is two thirds of distinct nodes. */
    lemma QuorumIsReal(hash: Hash)
      requires tracker.nodeCount <= WORD_BITS && Quorum(hash)
      ensures |Members(tracker.Who(hash), tracker.nodeCount)| >= tracker.nodeCount * 2 / 3
    {
      AllMembers(tracker.Who(hash), tracker.nodeCount);
    }

    /** With enough confirmations a higher block becomes stable, and the head moves if it must. */
    method Settle(hash: Hash, number: nat)
      requires Valid() && Key(hash, number) in blocks
      modifies this`stableBlock, this`currentBlock
      ensures Valid() && stableBlock.number >= old(stableBlock).number
      ensures stableBlock == if Quorum(hash) && old(stableBlock).number < number then blocks[Key(hash, number)]
                             else old(stableBlock)
      ensures if Quorum(hash) && old(currentBlock).number != 0 && old(currentBlock) != stableBlock then
                BestLeaf(hashOf, blocks, children, top, stableBlock, currentBlock)
              else currentBlock == old(currentBlock)
    {
      assert Stored(hashOf, blocks, blocks[Key(hash, number)]) && blocks[Key(hash, number)].number == number;
      hide BestLeaf, Filed, Closed, Counted;
      var ok := tracker.VerifyConsensusOK(hash);
      if ok {
        if stableBlock.number < number { stableBlock := blocks[Key(hash, number)]; }
        var same := IsCurAndStableBlockInSameChain();
        if !same { currentBlock := GetNewestBlockInStableChain(); }
      }
    }

    /** A confirmation arrives from the star node with the given index. */
    method ProcConsensusMsg(hash: Hash, number: nat, index: int)
      requires Valid()
      modifies tracker, this`stableBlock, this`currentBlock
      ensures Valid() && stableBlock.number >= old(stableBlock).number
      ensures tracker.confirmers
           == if index < 0 then old(tracker.confirmers) else old(tracker.confirmers)[hash := old(tracker.Who(hash)) + {index}]
      ensures var settles := Key(hash, number) in blocks && Quorum(hash);
              && stableBlock == (if settles && old(stableBlock).number < number then blocks[Key(hash, number)]
                                 else old(stableBlock))
              && if settles && old(currentBlock).number != 0 && old(currentBlock) != stableBlock then
                   BestLeaf(hashOf, blocks, children, top, stableBlock, currentBlock)
                 else currentBlock == old(currentBlock)
      ensures tracker.nodeCount <= WORD_BITS && stableBlock != old(stableBlock) ==>
                |Members(tracker.Who(hash), tracker.nodeCount)| >= tracker.nodeCount * 2 / 3
    {
      hide BestLeaf, Filed, Closed, Counted, Members;
      tracker.SetConsensusFlag(hash, index);
      if Key(hash, number) !in blocks { return; }
      Settle(hash, number);
      if tracker.nodeCount <= WORD_BITS && Quorum(hash) { QuorumIsReal(hash); }
    }

    method StoreBlock(block: Block)
      requires Valid() && block.number > 0 && ParentKey(block) in blocks
      modifies this`blocks, this`top
      ensures Valid() && blocks == old(blocks)[KeyOf(hashOf, block) := block] && Stored(hashOf, blocks, block)
    {
      AddBlock(hashOf, blocks, block);
      FiledInLarger(hashOf, blocks, children, block);
      hide Filed, Closed, Hashing;
      blocks := blocks[KeyOf(hashOf, block) := block];
      if block.number > top { top := block.number; }
    }

    /** A block of this node's own is stored and may become the head, but is entered nowhere. */
    method StoreOwnBlock(block: Block, becomesHead: bool)
      requires Valid() && block.number > 0 && ParentKey(block) in blocks
      modifies this`blocks, this`top, this`currentBlock
      ensures Valid() && blocks == old(blocks)[KeyOf(hashOf, block) := block]
      ensures currentBlock == if becomesHead then block else old(currentBlock)
    {
      hide Filed, Closed, Hashing;
      StoreBlock(block);
      if becomesHead { currentBlock := block; }
    }

    /** After a restart the blocks are there, the lists and the confirmations are not, and the genesis is stable. */
    method Restart(head: Block)
      requires Valid() && Stored(hashOf, blocks, head)
      modifies this`children, this`stableBlock, this`currentBlock, tracker
      ensures Valid() && stableBlock == genesis && currentBlock == head && children == map[] && tracker.confirmers == map[]
    {
      hide Closed, Hashing;
      children, stableBlock, currentBlock := map[], genesis, head;
      tracker.Forget();
    }

    /** Producer and this node confirm the block; in between it is stored and may become the head. */
    method Accept(block: Block, producer: int, own: int, becomesHead: bool)
      requires Valid() && block.number > 0 && ParentKey(block) in blocks
      modifies this`blocks, this`top, this`currentBlock, tracker
      ensures Valid() && blocks == old(blocks)[KeyOf(hashOf, block) := block] && Stored(hashOf, blocks, block)
      ensures currentBlock == if becomesHead then block else old(currentBlock)
      ensures tracker.Who(hashOf(block)) == old(tracker.Who(hashOf(block))) + NewConfirmers(producer, own)
      ensures tracker.confirmers == Noted(Noted(old(tracker.confirmers), hashOf(block), producer), hashOf(block), own)
    {
      hide Filed, Closed, Hashing, InReach, AllRecorded;
      tracker.SetConsensusFlag(hashOf(block), producer);
      StoreBlock(block);
      if becomesHead { currentBlock := block; }
      tracker.SetConsensusFlag(hashOf(block), own);
    }

    /**
     A new block: its producer and this node confirm it, the head may move to it,
     and it is entered under its parent. A head chosen anew is a best leaf over
     the lists with the new entry as well.
     */
    method InsertBlock(block: Block, producer: int, own: int, becomesHead: bool)
      requires Valid() && block.number > 0 && ParentKey(block) in blocks
      modifies this, tracker
      ensures Valid() && stableBlock.number >= old(stableBlock).number
      ensures if block.number < old(stableBlock).number then
                blocks == old(blocks) && children == old(children) && tracker.confirmers == old(tracker.confirmers)
              else
                && blocks == old(blocks)[KeyOf(hashOf, block) := block]
                && children == WithChild(old(children), block.parentHash, hashOf(block))
                && tracker.Who(hashOf(block)) == old(tracker.Who(hashOf(block))) + NewConfirmers(producer, own)
                && tracker.confirmers == Noted(Noted(old(tracker.confirmers), hashOf(block), producer), hashOf(block), own)
                && (old(Complete(hashOf, blocks, children)) ==> Complete(hashOf, blocks, children))
      ensures stableBlock == if block.number > old(stableBlock).number && Quorum(hashOf(block)) then block
                             else old(stableBlock)
      ensures var head := if becomesHead then block else old(currentBlock);
              if block.number < old(stableBlock).number then currentBlock == old(currentBlock)
              else if Quorum(hashOf(block)) && head.number != 0 && head != stableBlock then
                BestLeaf(hashOf, blocks, children, top, stableBlock, currentBlock)
              else currentBlock == head
      ensures tracker.nodeCount <= WORD_BITS && stableBlock != old(stableBlock) ==>
                |Members(tracker.Who(hashOf(block)), tracker.nodeCount)| >= tracker.nodeCount * 2 / 3
    {
      hide BestLeaf, Filed, Closed, Counted, Hashing, Members, InReach, WithChild, Complete, StarChain.Quorum, Tracker.Valid,
        NewConfirmers, Tracker.Who, Noted;
      if block.number < stableBlock.number { return; }
      var hash := hashOf(block);
      ghost var parent := blocks[ParentKey(block)];
      ParentIs(block);
      if Complete(hashOf, blocks, children) { CompleteGrows(hashOf, blocks, children, block); }
      Accept(block, producer, own, becomesHead);
      Settle(hash, block.number);
      if tracker.nodeCount <= WORD_BITS && Quorum(hash) { QuorumIsReal(hash); }
      if BestLeaf(hashOf, blocks, children, top, stableBlock, currentBlock) && parent.number < stableBlock.number {
        SameBestLeaf(hashOf, blocks, children, top, parent, hash, stableBlock, currentBlock);
      }
      FiledGrows(hashOf, blocks, children, block);
      children := WithChild(children, block.parentHash, hash);
    }

    lemma ParentIs(block: Block)
      requires Valid() && block.number > 0 && ParentKey(block) in blocks
      ensures var parent := blocks[ParentKey(block)];
              parent.number == block.number - 1 && hashOf(parent) == block.parentHash
    {}
  }

  // ----- What the answers mean -----

  /** d is a known descendant of b. */
  ghost predicate KnownBelow(hashOf: Block -> Hash, store: Store, b: Block, d: Block)
    requires Closed(hashOf, store)
  {
    Stored(hashOf, store, d) && Rooted(store, d) && Descends(hashOf, store, d, b)
  }

  lemma AllShown(hashOf: Block -> Hash, store: Store, children: Children, b: Block, d: Block)
    requires Closed(hashOf, store) && Complete(hashOf, store, children) && KnownBelow(hashOf, store, b, d)
    ensures Shown(hashOf, store, children, b, d)
  {
    ChainOfIsChain(hashOf, store, d);
    var c := ChainOf(hashOf, store, d);
    forall n | b.number < n <= d.number ensures Entered(hashOf, children, c[n]) {
      assert Stored(hashOf, store, c[n]) && c[n].number == n;
    }
  }

  /**
   The chosen head descends from the stable block. It is the best of all known
   descendants if and only if it beats those the lists do not lead to: blocks
   that were never entered and whatever lies under them.
   */
  lemma HeadIsBestDescendant(hashOf: Block -> Hash, store: Store, children: Children, top: nat, stable: Block, head: Block)
    requires Hashing(hashOf) && Closed(hashOf, store) && Filed(store, children) && InReach(store, top)
    requires Stored(hashOf, store, stable) && BestLeaf(hashOf, store, children, top, stable, head)
    ensures KnownBelow(hashOf, store, stable, head)
    ensures (forall d :: KnownBelow(hashOf, store, stable, d) ==> Beats(hashOf, head, d))
            <==> (forall d :: KnownBelow(hashOf, store, stable, d) && !Shown(hashOf, store, children, stable, d) ==>
                                Beats(hashOf, head, d))
    ensures Complete(hashOf, store, children) ==>
              forall d :: KnownBelow(hashOf, store, stable, d) ==> Beats(hashOf, head, d)
  {
    hide IsLeaf, Listed, Shown, Complete, Beats;
    FiledLists(hashOf, store, children);
    StoredIsRooted(hashOf, store, stable);
    LeafDescends(hashOf, store, children, top, stable, head);
    forall d | KnownBelow(hashOf, store, stable, d) && Shown(hashOf, store, children, stable, d)
      ensures Beats(hashOf, head, d)
    {
      BestLeafIsBest(hashOf, store, children, top, stable, head, d);
    }
    if Complete(hashOf, store, children) {
      forall d | KnownBelow(hashOf, store, stable, d) ensures Shown(hashOf, store, children, stable, d) {
        AllShown(hashOf, store, children, stable, d);
      }
    }
  }

  /**
   The test against its documentation. Up to the height of the stable block it
   is right, except that it says yes of every genesis; above, it always says no,
   although the current block may well be on the stable block's chain.
   */
  lemma SameChainIsRight(hashOf: Block -> Hash, store: Store, current: Block, stable: Block)
    requires Hashing(hashOf) && Closed(hashOf, store) && Stored(hashOf, store, current) && Rooted(store, current)
    ensures current.number > stable.number ==> !SaysSameChain(current, stable)
    ensures 0 < current.number <= stable.number ==>
              (SaysSameChain(current, stable) <==> Descends(hashOf, store, current, stable))
    ensures current.number == 0 ==>
              SaysSameChain(current, stable) && (Descends(hashOf, store, current, stable) <==> current == stable)
  {
    assert ChainOf(hashOf, store, current)[current.number] == current;
  }

  /** A current block one above the stable one is answered wrongly. */
  lemma ChildIsDenied(hashOf: Block -> Hash, stable: Block)
    requires Hashing(hashOf) && stable.number == 0
    ensures var current := Block(1, hashOf(stable), 1, [], 0);
            var store: Store := map[KeyOf(hashOf, stable) := stable, KeyOf(hashOf, current) := current];
            && Closed(hashOf, store) && Rooted(store, current) && Descends(hashOf, store, current, stable)
            && !SaysSameChain(current, stable)
  {
    var current := Block(1, hashOf(stable), 1, [], 0);
    var store: Store := map[KeyOf(hashOf, stable) := stable, KeyOf(hashOf, current) := current];
    assert store[ParentKey(current)] == stable;
    assert ChainOf(hashOf, store, current) == ChainOf(hashOf, store, stable) + [current];
  }

  // ----- A run that forgets a block -----

  lemma TwoOfThree()
    ensures |Counted({0, 1}, 3)| >= 3 * 2 / 3 && |Counted({0, 1, 2}, 3)| >= 3 * 2 / 3
  {
    assert Counted({0, 1}, 3) == {0, 1} && Counted({0, 1, 2}, 3) == {0, 1, 2};
  }

  lemma OnlyLeaf(hashOf: Block -> Hash, store: Store, children: Children, top: nat, b: Block, r: Block)
    requires ChildrenOf(children, hashOf(b)) == [] && BestLeaf(hashOf, store, children, top, b, r)
    ensures r == b
  {}

  /** The first block on the genesis, confirmed by two of three nodes, is stable at once. */
  method FirstStable(hashOf: Block -> Hash, g: Block, s1: Block) returns (chain: StarChain)
    requires Hashing(hashOf) && g.number == 0 && s1.number == 1 && s1.parentHash == hashOf(g)
    ensures chain.Valid() && fresh(chain) && fresh(chain.tracker) && chain.hashOf == hashOf && chain.tracker.nodeCount == 3
    ensures chain.stableBlock == s1 && Stored(hashOf, chain.blocks, s1) && ChildrenOf(chain.children, hashOf(s1)) == []
    ensures chain.tracker.Who(hashOf(s1)) == {0, 1}
  {
    TwoOfThree();
    assert hashOf(g) != hashOf(s1);
    hide BestLeaf, Filed, Closed, Counted, Hashing, Members, InReach, AllRecorded, Complete;
    var tracker := new Tracker(3);
    chain := new StarChain(hashOf, g, tracker);
    chain.InsertBlock(s1, 0, 1, true);
    assert tracker.Who(hashOf(s1)) == {0, 1};
  }

  /**
   Three nodes. Block s1 becomes stable, this node mines m2 on it and m2 is the
   head; then the third confirmation of s1 arrives. The test finds head and
   stable block on different chains, m2 is on no list, and the head falls back to
   s1 although the higher m2 is known.
   */
  method MinedBlockIsForgotten(hashOf: Block -> Hash) returns (chain: StarChain, m2: Block)
    requires Hashing(hashOf)
    ensures chain.Valid() && chain.hashOf == hashOf && Stored(hashOf, chain.blocks, m2)
    ensures m2.number == chain.currentBlock.number + 1 && m2.parentHash == hashOf(chain.currentBlock)
    ensures chain.currentBlock == chain.stableBlock
  {
    var g := Block(0, ZERO_HASH, 0, [], 0);
    var s1 := Block(1, hashOf(g), 1, [], 0);
    m2 := Block(2, hashOf(s1), 1, [], 0);
    TwoOfThree();
    hide BestLeaf, Filed, Closed, Counted, Hashing, Members, InReach, AllRecorded, Complete, ChildrenOf;
    chain := FirstStable(hashOf, g, s1);
    chain.StoreOwnBlock(m2, true);
    assert {0, 1} + {2} == {0, 1, 2};
    chain.ProcConsensusMsg(hashOf(s1), 1, 2);
    OnlyLeaf(hashOf, chain.blocks, chain.children, chain.top, s1, chain.currentBlock);
  }
}
