/**
 Star-node fork choice of core/blockchain.go: the stable block follows the
 confirmations, and the head is chosen among the leaves below it.
 */
module ForkChoice {
  import opened Chains

  type Children = map<Hash, seq<Hash>>

  function ChildrenOf(children: Children, h: Hash): seq<Hash> {
    if h in children then children[h] else []
  }

  /** No stored block is higher than top. */
  ghost predicate InReach(store: Store, top: nat) {
    forall k :: k in store ==> k.number <= top
  }

  ghost predicate HasChild(hashOf: Block -> Hash, store: Store, b: Block, c: Hash) {
    Stored(hashOf, store, b) ==>
      Key(c, b.number + 1) in store && store[Key(c, b.number + 1)].parentHash == hashOf(b)
  }

  /** Every child listed for a stored block is stored one height up and names it as parent. */
  ghost predicate Listed(hashOf: Block -> Hash, store: Store, children: Children) {
    && Keyed(hashOf, store)
    && forall b, c {:trigger HasChild(hashOf, store, b, c)} ::
         c in ChildrenOf(children, hashOf(b)) ==> HasChild(hashOf, store, b, c)
  }

  lemma ChildStored(hashOf: Block -> Hash, store: Store, children: Children, b: Block, c: Hash)
    requires Listed(hashOf, store, children) && Stored(hashOf, store, b) && c in ChildrenOf(children, hashOf(b))
    ensures Key(c, b.number + 1) in store
    ensures Stored(hashOf, store, store[Key(c, b.number + 1)])
    ensures hashOf(store[Key(c, b.number + 1)]) == c && store[Key(c, b.number + 1)].number == b.number + 1
    ensures store[Key(c, b.number + 1)].parentHash == hashOf(b)
  {
    assert HasChild(hashOf, store, b, c);
  }

  /** l is reached from b along listed children and has none itself. */
  ghost predicate IsLeaf(hashOf: Block -> Hash, store: Store, children: Children, top: nat, b: Block, l: Block)
    decreases top - b.number
  {
    var cs := ChildrenOf(children, hashOf(b));
    if cs == [] then l == b
    else b.number < top && exists c :: c in cs && LeafVia(hashOf, store, children, top, b, l, c)
  }

  ghost predicate LeafVia(hashOf: Block -> Hash, store: Store, children: Children, top: nat, b: Block, l: Block, c: Hash)
    requires b.number < top
    decreases top - b.number, 0
  {
    && Key(c, b.number + 1) in store
    && store[Key(c, b.number + 1)].number == b.number + 1
    && IsLeaf(hashOf, store, children, top, store[Key(c, b.number + 1)], l)
  }

  /** Higher, or as high with a smaller hash. */
  predicate Beats(hashOf: Block -> Hash, a: Block, b: Block) {
    b.number < a.number || (b.number == a.number && hashOf(a) <= hashOf(b))
  }

  lemma NoChildren(hashOf: Block -> Hash, store: Store, children: Children, top: nat, b: Block)
    ensures ChildrenOf(children, hashOf(b)) == [] ==>
              forall l :: IsLeaf(hashOf, store, children, top, b, l) <==> l == b
  {}

  lemma SomeChildren(hashOf: Block -> Hash, store: Store, children: Children, top: nat, b: Block)
    requires ChildrenOf(children, hashOf(b)) != [] && b.number < top
    ensures var cs := ChildrenOf(children, hashOf(b));
            forall l :: IsLeaf(hashOf, store, children, top, b, l) <==>
                          exists j :: 0 <= j < |cs| && LeafVia(hashOf, store, children, top, b, l, cs[j])
  {
    var cs := ChildrenOf(children, hashOf(b));
    forall l
      ensures IsLeaf(hashOf, store, children, top, b, l) <==>
                exists j :: 0 <= j < |cs| && LeafVia(hashOf, store, children, top, b, l, cs[j])
    {
      if j :| 0 <= j < |cs| && LeafVia(hashOf, store, children, top, b, l, cs[j]) { assert cs[j] in cs; }
    }
  }

  /** The recursive collection of leaves. */
  method GetLeavesOfBlock(hashOf: Block -> Hash, store: Store, children: Children, block: Block, ghost top: nat)
    returns (leaves: seq<Block>)
    requires Listed(hashOf, store, children) && InReach(store, top) && Stored(hashOf, store, block)
    ensures leaves != []
    ensures forall l :: l in leaves <==> IsLeaf(hashOf, store, children, top, block, l)
    decreases top - block.number
  {
    hide Listed, IsLeaf, Keyed;
    var cs := ChildrenOf(children, hashOf(block));
    NoChildren(hashOf, store, children, top, block);
    if |cs| == 0 { return [block]; }
    leaves := [];
    for i := 0 to |cs|
      invariant i > 0 ==> leaves != [] && block.number < top
      invariant forall l :: l in leaves <==>
                  exists j :: 0 <= j < i && block.number < top && LeafVia(hashOf, store, children, top, block, l, cs[j])
    {
      assert cs[i] in cs;
      ChildStored(hashOf, store, children, block, cs[i]);
      var more := GetLeavesOfBlock(hashOf, store, children, store[Key(cs[i], block.number + 1)], top);
      leaves := leaves + more;
    }
    SomeChildren(hashOf, store, children, top, block);
  }

  /** The highest of the given blocks, and of several the one with the smallest hash. */
  method BestOf(hashOf: Block -> Hash, blocks: seq<Block>, low: nat) returns (best: Block)
    requires blocks != [] && forall b :: b in blocks ==> b.number >= low
    ensures best in blocks && forall b :: b in blocks ==> Beats(hashOf, best, b)
  {
    var highest := low;
    for i := 0 to |blocks|
      invariant highest == low || exists b :: b in blocks && b.number == highest
      invariant highest >= low && forall j :: 0 <= j < i ==> blocks[j].number <= highest
    {
      if blocks[i].number > highest {
        highest := blocks[i].number;
        assert blocks[i] in blocks;
      }
    }
    var same: seq<Block> := [];
    for i := 0 to |blocks|
      invariant forall b :: b in same <==> b in blocks[..i] && b.number == highest
    {
      assert blocks[..i + 1] == blocks[..i] + [blocks[i]];
      if blocks[i].number == highest { same := same + [blocks[i]]; }
    }
    assert blocks[..|blocks|] == blocks;
    assert blocks[0] in blocks;
    best := same[0];
    for i := 0 to |same|
      invariant best in same && forall j :: 0 <= j < i ==> hashOf(best) <= hashOf(same[j])
    {
      if hashOf(same[i]) < hashOf(best) { best := same[i]; }
    }
  }

  // ----- What the choice means for the chain -----

  /** b is d or one of its ancestors. */
  ghost predicate Descends(hashOf: Block -> Hash, store: Store, d: Block, b: Block)
    requires Closed(hashOf, store) && Rooted(store, d)
  {
    b.number <= d.number && ChainOf(hashOf, store, d)[b.number] == b
  }

  /** Down the chain, a block's successor towards d is the one whose parent it is. */
  lemma StepTowards(hashOf: Block -> Hash, store: Store, d: Block, b: Block)
    requires Hashing(hashOf) && Closed(hashOf, store) && Stored(hashOf, store, d) && Rooted(store, d)
    requires Descends(hashOf, store, d, b) && b.number < d.number
    ensures var c := ChainOf(hashOf, store, d)[b.number + 1];
            && Stored(hashOf, store, c) && c.number == b.number + 1 && c.parentHash == hashOf(b)
            && Descends(hashOf, store, d, c)
  {
    ChainOfIsChain(hashOf, store, d);
    var chain := ChainOf(hashOf, store, d);
    var n := b.number + 1;
    assert n < d.number ==> Stored(hashOf, store, chain[n]);
  }

  /** The chain of a child is its parent's with the child on top. */
  lemma StepUp(hashOf: Block -> Hash, store: Store, c: Block, d: Block, b: Block)
    requires Hashing(hashOf) && Closed(hashOf, store) && Stored(hashOf, store, c) && Stored(hashOf, store, d)
    requires Rooted(store, c) && Rooted(store, d) && c.number == d.number + 1 && c.parentHash == hashOf(d)
    requires Descends(hashOf, store, d, b)
    ensures Descends(hashOf, store, c, b)
  {
    assert store[ParentKey(c)] == d;
    assert ChainOf(hashOf, store, c) == ChainOf(hashOf, store, d) + [c];
  }

  /** The block is on the list of its parent. */
  predicate Entered(hashOf: Block -> Hash, children: Children, b: Block) {
    hashOf(b) in ChildrenOf(children, b.parentHash)
  }

  /** d is below b, and the lists lead there. */
  ghost predicate Shown(hashOf: Block -> Hash, store: Store, children: Children, b: Block, d: Block)
    requires Closed(hashOf, store) && Rooted(store, d)
  {
    && Descends(hashOf, store, d, b)
    && forall n :: b.number < n <= d.number ==> Entered(hashOf, children, ChainOf(hashOf, store, d)[n])
  }

  ghost predicate Ready(hashOf: Block -> Hash, store: Store, children: Children, top: nat) {
    && Hashing(hashOf) && Closed(hashOf, store) && Listed(hashOf, store, children) && InReach(store, top)
  }

  lemma DescendsThrough(hashOf: Block -> Hash, store: Store, l: Block, c: Block, b: Block)
    requires Hashing(hashOf) && Closed(hashOf, store) && Rooted(store, l) && Descends(hashOf, store, l, c)
    requires c.number == b.number + 1 && c.parentHash == hashOf(b)
    ensures Descends(hashOf, store, l, b)
  {
    ChainOfIsChain(hashOf, store, l);
    var chain := ChainOf(hashOf, store, l);
    assert chain[c.number].parentHash == hashOf(chain[c.number - 1]);
  }

  lemma {:induction false} LeafDescends(hashOf: Block -> Hash, store: Store, children: Children, top: nat, b: Block, l: Block)
    requires Ready(hashOf, store, children, top) && Stored(hashOf, store, b) && Rooted(store, b)
    requires IsLeaf(hashOf, store, children, top, b, l)
    ensures Stored(hashOf, store, l) && Rooted(store, l) && Descends(hashOf, store, l, b)
    ensures ChildrenOf(children, hashOf(l)) == []
    decreases top - b.number
  {
    var cs := ChildrenOf(children, hashOf(b));
    if cs != [] {
      var h :| h in cs && LeafVia(hashOf, store, children, top, b, l, h);
      ChildStored(hashOf, store, children, b, h);
      var c := store[Key(h, b.number + 1)];
      StoredIsRooted(hashOf, store, c);
      assert IsLeaf(hashOf, store, children, top, c, l);
      LeafDescends(hashOf, store, children, top, c, l);
      DescendsThrough(hashOf, store, l, c, b);
    }
  }

  lemma {:induction false} ChildlessIsLeaf(hashOf: Block -> Hash, store: Store, children: Children, top: nat, b: Block,
                                           d: Block)
    requires Ready(hashOf, store, children, top) && Stored(hashOf, store, b) && Stored(hashOf, store, d) && Rooted(store, d)
    requires Shown(hashOf, store, children, b, d) && ChildrenOf(children, hashOf(d)) == []
    ensures IsLeaf(hashOf, store, children, top, b, d)
    decreases d.number - b.number
  {
    if b.number < d.number {
      StepTowards(hashOf, store, d, b);
      var c := ChainOf(hashOf, store, d)[b.number + 1];
      assert Entered(hashOf, children, c);
      ChildlessIsLeaf(hashOf, store, children, top, c, d);
      ChildStored(hashOf, store, children, b, hashOf(c));
      assert store[Key(hashOf(c), b.number + 1)] == c;
      assert LeafVia(hashOf, store, children, top, b, d, hashOf(c));
    }
  }

  lemma ShownUp(hashOf: Block -> Hash, store: Store, children: Children, c: Block, d: Block, b: Block)
    requires Hashing(hashOf) && Closed(hashOf, store) && Stored(hashOf, store, c) && Stored(hashOf, store, d)
    requires Rooted(store, c) && Rooted(store, d) && c.number == d.number + 1 && c.parentHash == hashOf(d)
    requires Shown(hashOf, store, children, b, d) && Entered(hashOf, children, c)
    ensures Shown(hashOf, store, children, b, c)
  {
    StepUp(hashOf, store, c, d, b);
    assert store[ParentKey(c)] == d;
    assert ChainOf(hashOf, store, c) == ChainOf(hashOf, store, d) + [c];
  }

  /** Above every descendant the lists lead to there is a leaf at least as high. */
  lemma {:induction false} LeafAbove(hashOf: Block -> Hash, store: Store, children: Children, top: nat, b: Block, d: Block)
    returns (l: Block)
    requires Ready(hashOf, store, children, top) && Stored(hashOf, store, b) && Stored(hashOf, store, d) && Rooted(store, d)
    requires Shown(hashOf, store, children, b, d)
    ensures IsLeaf(hashOf, store, children, top, b, l) && l.number >= d.number
    ensures ChildrenOf(children, hashOf(d)) != [] ==> l.number > d.number
    decreases top - d.number
  {
    var cs := ChildrenOf(children, hashOf(d));
    if cs == [] {
      ChildlessIsLeaf(hashOf, store, children, top, b, d);
      l := d;
    } else {
      ChildStored(hashOf, store, children, d, cs[0]);
      var c := store[Key(cs[0], d.number + 1)];
      StoredIsRooted(hashOf, store, c);
      ShownUp(hashOf, store, children, c, d, b);
      l := LeafAbove(hashOf, store, children, top, b, c);
    }
  }

  /**
   A best leaf below the stable block is the best of all descendants the lists
   lead to: none is higher, and of those as high none has a smaller hash.
   */
  lemma BestLeafIsBest(hashOf: Block -> Hash, store: Store, children: Children, top: nat, stable: Block, r: Block, d: Block)
    requires Ready(hashOf, store, children, top) && Stored(hashOf, store, stable) && Rooted(store, stable)
    requires IsLeaf(hashOf, store, children, top, stable, r)
    requires forall l :: IsLeaf(hashOf, store, children, top, stable, l) ==> Beats(hashOf, r, l)
    requires Stored(hashOf, store, d) && Rooted(store, d) && Shown(hashOf, store, children, stable, d)
    ensures Beats(hashOf, r, d)
  {
    hide Ready, IsLeaf, Descends, Shown;
    var l := LeafAbove(hashOf, store, children, top, stable, d);
    assert Beats(hashOf, r, l);
    if ChildrenOf(children, hashOf(d)) == [] {
      ChildlessIsLeaf(hashOf, store, children, top, stable, d);
    }
  }

  /** There is only one best block, so the order of children does not matter. */
  lemma BestIsUnique(hashOf: Block -> Hash, a: Block, b: Block)
    requires Hashing(hashOf) && Beats(hashOf, a, b) && Beats(hashOf, b, a)
    ensures a == b
  {}
}
