/**
 The weight tree of les/randselect.go: nodes of eight branches that hold items
 or further nodes, with weights and item counts summed up level by level. A
 node is a value here; every node has exactly one parent.
 */
module WrsTree {
  import opened Basics

  type Item = nat

  const BRANCHES := 8

  datatype Slot = Empty | Leaf(item: Item) | Sub(node: Node)

  datatype Node = Node(items: seq<Slot>, weights: seq<int>, sumWeight: int, level: nat, itemCnt: int, maxItems: nat)

  /** What the tree means: a row of places, addressed by index. */
  datatype Cell = Vacant | Held(item: Item, weight: int)

  function Cap(level: nat): (c: nat)
    ensures c > 0
  {
    if level == 0 then BRANCHES else BRANCHES * Cap(level - 1)
  }

  /** Places under one branch of a node. */
  function BranchCap(level: nat): (c: nat)
    ensures c > 0
  {
    if level == 0 then 1 else Cap(level - 1)
  }

  function Vacants(n: nat): (r: seq<Cell>)
    ensures |r| == n && forall i :: 0 <= i < n ==> r[i] == Vacant
  {
    seq(n, _ => Vacant)
  }

  // ----- Sums over rows of places -----

  function Sum(s: seq<Cell>): int {
    if s == [] then 0 else Sum(s[..|s| - 1]) + WeightOf(s[|s| - 1])
  }

  function Count(s: seq<Cell>): nat {
    if s == [] then 0 else Count(s[..|s| - 1]) + (if s[|s| - 1].Held? then 1 else 0)
  }

  function WeightOf(c: Cell): int {
    if c.Held? then c.weight else 0
  }

  lemma {:induction false} SumBoth(a: seq<Cell>, b: seq<Cell>)
    ensures Sum(a + b) == Sum(a) + Sum(b) && Count(a + b) == Count(a) + Count(b)
  {
    if b == [] {
      assert a + b == a;
    } else {
      SumBoth(a, b[..|b| - 1]);
      assert (a + b)[..|a + b| - 1] == a + b[..|b| - 1];
    }
  }

  lemma {:induction false} SumVacants(n: nat)
    ensures Sum(Vacants(n)) == 0 && Count(Vacants(n)) == 0
  {
    if n > 0 {
      SumVacants(n - 1);
      assert Vacants(n)[..n - 1] == Vacants(n - 1);
    }
  }

  /** Changing one place changes the sums by the difference there. */
  lemma SumSet(s: seq<Cell>, i: nat, c: Cell)
    requires i < |s|
    ensures Sum(s[i := c]) == Sum(s) - WeightOf(s[i]) + WeightOf(c)
    ensures Count(s[i := c]) == Count(s) - (if s[i].Held? then 1 else 0) + if c.Held? then 1 else 0
  {
    assert s == s[..i] + [s[i]] + s[i + 1..] && s[i := c] == s[..i] + [c] + s[i + 1..];
    SumBoth(s[..i] + [s[i]], s[i + 1..]);
    SumBoth(s[..i] + [c], s[i + 1..]);
    SumBoth(s[..i], [s[i]]);
    SumBoth(s[..i], [c]);
    assert [c][..0] == [] && [s[i]][..0] == [];
  }

  lemma {:induction false} CountBound(s: seq<Cell>)
    ensures Count(s) <= |s|
    ensures Count(s) < |s| <==> Vacant in s
  {
    if s != [] {
      CountBound(s[..|s| - 1]);
      assert s == s[..|s| - 1] + [s[|s| - 1]];
    }
  }

  // ----- The places under a node -----

  function SlotCells(n: Node, i: nat): seq<Cell>
    requires i < |n.items| && i < |n.weights|
    decreases n, 0
  {
    match n.items[i]
    case Empty => Vacants(BranchCap(n.level))
    case Leaf(item) => [Held(item, n.weights[i])]
    case Sub(m) => if |m.items| <= |m.weights| then First(m, |m.items|) else []
  }

  /** The places under the first k branches. */
  function First(n: Node, k: nat): seq<Cell>
    requires k <= |n.items| <= |n.weights|
    decreases n, k + 1
  {
    if k == 0 then [] else First(n, k - 1) + SlotCells(n, k - 1)
  }

  function Cells(n: Node): seq<Cell>
    requires |n.items| == |n.weights|
  {
    First(n, |n.items|)
  }

  function SlotCount(s: Slot): int {
    match s
    case Empty => 0
    case Leaf(_) => 1
    case Sub(m) => m.itemCnt
  }

  function SumWeights(w: seq<int>, k: nat): int
    requires k <= |w|
  {
    if k == 0 then 0 else SumWeights(w, k - 1) + w[k - 1]
  }

  function SumCounts(items: seq<Slot>, k: nat): int
    requires k <= |items|
  {
    if k == 0 then 0 else SumCounts(items, k - 1) + SlotCount(items[k - 1])
  }

  /** What every node keeps: its figures are the sums of those one level down. */
  ghost predicate Shaped(n: Node)
    decreases n, 1
  {
    && |n.items| == BRANCHES == |n.weights| && n.maxItems == Cap(n.level)
    && n.sumWeight == SumWeights(n.weights, BRANCHES) && n.itemCnt == SumCounts(n.items, BRANCHES)
    && forall i {:trigger SlotShaped(n, i)} :: 0 <= i < BRANCHES ==> SlotShaped(n, i)
  }

  ghost predicate SlotShaped(n: Node, i: nat)
    requires i < |n.items| && i < |n.weights|
    decreases n, 0
  {
    match n.items[i]
    case Empty => n.weights[i] == 0
    case Leaf(_) => n.level == 0 && n.weights[i] != 0
    case Sub(m) => n.level > 0 && m.level == n.level - 1 && n.weights[i] == m.sumWeight && Shaped(m)
  }

  lemma {:induction false} SlotTotals(n: Node, i: nat)
    requires i < |n.items| && i < |n.weights| && SlotShaped(n, i)
    ensures |SlotCells(n, i)| == BranchCap(n.level)
    ensures Sum(SlotCells(n, i)) == n.weights[i] && Count(SlotCells(n, i)) == SlotCount(n.items[i])
    decreases n, 0
  {
    match n.items[i]
    case Empty => SumVacants(BranchCap(n.level));
    case Leaf(item) => assert [Held(item, n.weights[i])][..0] == [];
    case Sub(m) => Totals(m);
  }

  lemma {:induction false} FirstTotals(n: Node, k: nat)
    requires Shaped(n) && k <= BRANCHES
    ensures |First(n, k)| == Times(k, BranchCap(n.level))
    ensures Sum(First(n, k)) == SumWeights(n.weights, k) && Count(First(n, k)) == SumCounts(n.items, k)
    decreases n, k + 1
  {
    if k > 0 {
      FirstTotals(n, k - 1);
      assert SlotShaped(n, k - 1);
      SlotTotals(n, k - 1);
      SumBoth(First(n, k - 1), SlotCells(n, k - 1));
    }
  }

  /** Capacity, total weight and item count of a node are those of the places under it. */
  lemma {:induction false} Totals(n: Node)
    requires Shaped(n)
    ensures |Cells(n)| == Cap(n.level) == n.maxItems && Sum(Cells(n)) == n.sumWeight && Count(Cells(n)) == n.itemCnt
    decreases n, BRANCHES + 2
  {
    FirstTotals(n, BRANCHES);
    EightTimes(BranchCap(n.level));
  }

  lemma EightTimes(c: nat)
    ensures Times(BRANCHES, c) == BRANCHES * c
  {
    TimesIsMul(BRANCHES, c);
  }

  lemma Product(k: nat, c: nat)
    ensures c * k == Times(k, c)
  {
    TimesIsMul(k, c);
  }

  lemma {:induction false} TimesOne(k: nat)
    ensures Times(k, 1) == k
  {
    if k > 0 { TimesOne(k - 1); }
  }

  // ----- Addressing -----

  lemma {:induction false} FirstHolds(n: Node, k: nat, b: nat, x: nat)
    requires Shaped(n) && b < k <= BRANCHES && x < BranchCap(n.level)
    ensures |SlotCells(n, b)| == BranchCap(n.level)
    ensures Times(b, BranchCap(n.level)) + x < |First(n, k)|
    ensures First(n, k)[Times(b, BranchCap(n.level)) + x] == SlotCells(n, b)[x]
    decreases k
  {
    assert SlotShaped(n, b) && SlotShaped(n, k - 1);
    SlotTotals(n, b);
    SlotTotals(n, k - 1);
    FirstTotals(n, k - 1);
    if b < k - 1 { FirstHolds(n, k - 1, b, x); }
  }

  /** Place x under branch b has index b * (places per branch) + x. */
  lemma CellAt(n: Node, b: nat, x: nat)
    requires Shaped(n) && b < BRANCHES && x < BranchCap(n.level)
    ensures |SlotCells(n, b)| == BranchCap(n.level)
    ensures Times(b, BranchCap(n.level)) + x < |Cells(n)|
    ensures Cells(n)[Times(b, BranchCap(n.level)) + x] == SlotCells(n, b)[x]
  {
    FirstHolds(n, BRANCHES, b, x);
  }

  /** The two nodes differ at most in branch b. */
  ghost predicate SameBut(n: Node, r: Node, b: nat) {
    && |n.items| == |n.weights| == |r.items| == |r.weights| == BRANCHES && n.level == r.level && b < BRANCHES
    && forall j :: 0 <= j < BRANCHES && j != b ==> r.items[j] == n.items[j] && r.weights[j] == n.weights[j]
  }

  lemma {:induction false} FirstChanged(n: Node, r: Node, b: nat, x: nat, c: Cell, k: nat)
    requires SameBut(n, r, b) && k <= BRANCHES
    requires x < |SlotCells(n, b)| && SlotCells(r, b) == SlotCells(n, b)[x := c]
    ensures k <= b ==> First(r, k) == First(n, k)
    ensures b < k ==>
              |First(n, b)| + x < |First(n, k)| && First(r, k) == First(n, k)[|First(n, b)| + x := c]
  {
    if k > 0 {
      FirstChanged(n, r, b, x, c, k - 1);
      if k - 1 != b { assert SlotCells(r, k - 1) == SlotCells(n, k - 1); }
    }
  }

  /** One place changed under one branch is one place changed under the node. */
  lemma CellChanged(n: Node, r: Node, b: nat, x: nat, c: Cell)
    requires Shaped(n) && SameBut(n, r, b) && x < BranchCap(n.level)
    requires |SlotCells(n, b)| == BranchCap(n.level) ==> SlotCells(r, b) == SlotCells(n, b)[x := c]
    ensures Times(b, BranchCap(n.level)) + x < |Cells(n)|
    ensures Cells(r) == Cells(n)[Times(b, BranchCap(n.level)) + x := c]
  {
    CellAt(n, b, x);
    FirstChanged(n, r, b, x, c, BRANCHES);
    FirstTotals(n, b);
  }

  lemma {:induction false} SumsChanged(n: Node, r: Node, b: nat, k: nat)
    requires SameBut(n, r, b) && k <= BRANCHES
    ensures SumWeights(r.weights, k) == SumWeights(n.weights, k) + if b < k then r.weights[b] - n.weights[b] else 0
    ensures SumCounts(r.items, k)
         == SumCounts(n.items, k) + if b < k then SlotCount(r.items[b]) - SlotCount(n.items[b]) else 0
  {
    if k > 0 { SumsChanged(n, r, b, k - 1); }
  }

  /** A node whose one changed branch is accounted for stays in shape. */
  lemma StaysShaped(n: Node, r: Node, b: nat)
    requires Shaped(n) && SameBut(n, r, b) && r.maxItems == n.maxItems && SlotShaped(r, b)
    requires r.sumWeight == n.sumWeight + r.weights[b] - n.weights[b]
    requires r.itemCnt == n.itemCnt + SlotCount(r.items[b]) - SlotCount(n.items[b])
    ensures Shaped(r)
  {
    SumsChanged(n, r, b, BRANCHES);
    forall i | 0 <= i < BRANCHES ensures SlotShaped(r, i) {
      assert SlotShaped(n, i);
    }
  }

  // ----- Insertion -----

  function NewNode(level: nat, maxItems: nat): Node {
    Node(seq(BRANCHES, _ => Empty), seq(BRANCHES, _ => 0), 0, level, 0, maxItems)
  }

  lemma {:induction false} NewNodeVacant(level: nat, k: nat)
    requires k <= BRANCHES
    ensures var n := NewNode(level, Cap(level));
            && SumWeights(n.weights, k) == 0 && SumCounts(n.items, k) == 0
            && First(n, k) == Vacants(Times(k, BranchCap(level)))
  {
    if k > 0 { NewNodeVacant(level, k - 1); }
  }

  lemma NewNodeShaped(level: nat)
    ensures Shaped(NewNode(level, Cap(level))) && Cells(NewNode(level, Cap(level))) == Vacants(Cap(level))
  {
    var n := NewNode(level, Cap(level));
    NewNodeVacant(level, BRANCHES);
    EightTimes(BranchCap(level));
    forall i | 0 <= i < BRANCHES ensures SlotShaped(n, i) {}
  }

  predicate Full(n: Node, i: nat)
    requires i < |n.items|
  {
    match n.items[i]
    case Empty => false
    case Leaf(_) => true
    case Sub(m) => n.level == 0 || m.itemCnt == m.maxItems
  }

  lemma FullCounts(n: Node, b: nat)
    requires Shaped(n) && b < BRANCHES && Full(n, b)
    ensures SlotCount(n.items[b]) == BranchCap(n.level)
  {
    assert SlotShaped(n, b);
    if n.items[b].Sub? { assert Shaped(n.items[b].node); }
  }

  /** The branch where insertion goes on. */
  ghost predicate HasRoom(n: Node, b: nat) {
    && b < |n.items| == |n.weights| == BRANCHES && n.maxItems == Cap(n.level) && SlotShaped(n, b)
    && (n.items[b].Empty? || (n.items[b].Sub? && n.level > 0 && n.items[b].node.itemCnt < n.items[b].node.maxItems))
  }

  method FindBranch(n: Node) returns (branch: nat)
    requires Shaped(n) && n.itemCnt < n.maxItems
    ensures HasRoom(n, branch)
  {
    branch := 0;
    while Full(n, branch)
      invariant branch < BRANCHES && SumCounts(n.items, branch) == Times(branch, BranchCap(n.level))
      decreases BRANCHES - branch
    {
      FullCounts(n, branch);
      EightTimes(BranchCap(n.level));
      branch := branch + 1;
    }
    assert SlotShaped(n, branch);
    if n.items[branch].Sub? {
      Totals(n.items[branch].node);
      CountBound(Cells(n.items[branch].node));
    }
  }

  /** Put the item into the first branch with room. The search cannot run off the end. */
  method Insert(n: Node, item: Item, weight: int) returns (r: Node, idx: nat)
    requires Shaped(n) && n.itemCnt < n.maxItems && weight != 0
    ensures Shaped(r) && r.level == n.level
    ensures idx < |Cells(n)| && Cells(n)[idx] == Vacant && Cells(r) == Cells(n)[idx := Held(item, weight)]
    decreases n.level
  {
    hide Shaped, Cells, First, Cap;
    var branch := FindBranch(n);
    if n.level == 0 {
      r := Node(n.items[branch := Leaf(item)], n.weights[branch := n.weights[branch] + weight], n.sumWeight + weight,
                n.level, n.itemCnt + 1, n.maxItems);
      StaysShaped(n, r, branch);
      CellAt(n, branch, 0);
      CellChanged(n, r, branch, 0, Held(item, weight));
      TimesOne(branch);
      idx := branch;
    } else {
      var subNode := if n.items[branch].Empty? then NewNode(n.level - 1, n.maxItems / BRANCHES) else n.items[branch].node;
      SubNodeShaped(n, branch);
      var sub, subIdx := Insert(subNode, item, weight);
      r := Node(n.items[branch := Sub(sub)], n.weights[branch := n.weights[branch] + weight], n.sumWeight + weight,
                n.level, n.itemCnt + 1, n.maxItems);
      ChangedBelow(n, r, branch, subNode, sub, subIdx, Held(item, weight));
      Product(branch, subNode.maxItems);
      idx := subNode.maxItems * branch + subIdx;
    }
  }

  /** The branch's node, or the new one that takes an empty branch's place. */
  lemma SubNodeShaped(n: Node, b: nat)
    requires HasRoom(n, b) && n.level > 0
    ensures var m := if n.items[b].Empty? then NewNode(n.level - 1, n.maxItems / BRANCHES) else n.items[b].node;
            && Shaped(m) && m.level == n.level - 1 && m.itemCnt < m.maxItems == BranchCap(n.level)
            && Cells(m) == SlotCells(n, b) && m.sumWeight == n.weights[b] && m.itemCnt == SlotCount(n.items[b])
  {
    NewNodeShaped(n.level - 1);
    assert n.maxItems / BRANCHES == Cap(n.level - 1);
  }

  lemma SubCells(n: Node, b: nat)
    requires b < |n.items| && b < |n.weights| && n.items[b].Sub? && Shaped(n.items[b].node)
    ensures SlotCells(n, b) == Cells(n.items[b].node)
  {}

  /** A changed subtree is accounted for in its branch, and changes the same place. */
  lemma ChangedBelow(n: Node, r: Node, b: nat, m: Node, sub: Node, x: nat, c: Cell)
    requires Shaped(n) && n.level > 0 && SameBut(n, r, b) && r.maxItems == n.maxItems
    requires Shaped(m) && Shaped(sub) && m.level == sub.level == n.level - 1 && r.items[b] == Sub(sub)
    requires Cells(m) == SlotCells(n, b) && m.sumWeight == n.weights[b] && m.itemCnt == SlotCount(n.items[b])
    requires x < |Cells(m)| && Cells(sub) == Cells(m)[x := c]
    requires var d := WeightOf(c) - WeightOf(Cells(m)[x]);
             r.weights[b] == n.weights[b] + d && r.sumWeight == n.sumWeight + d
    requires r.itemCnt == n.itemCnt - (if Cells(m)[x].Held? then 1 else 0) + if c.Held? then 1 else 0
    ensures Shaped(r)
    ensures var i := Times(b, BranchCap(n.level)) + x;
            i < |Cells(n)| && Cells(n)[i] == Cells(m)[x] && Cells(r) == Cells(n)[i := c]
  {
    Widths(m);
    Widths(sub);
    SubCells(r, b);
    hide *;
    BelowFigures(m, sub, x, c);
    assert SlotShaped(r, b) by { SubShaped(r, b); }
    assert SlotCount(r.items[b]) == sub.itemCnt by { SubCount(sub); }
    StaysShaped(n, r, b);
    assert x < BranchCap(n.level) by { BranchBelow(n.level); }
    CellAt(n, b, x);
    CellChanged(n, r, b, x, c);
  }

  lemma SubShaped(n: Node, b: nat)
    requires b < |n.items| && b < |n.weights| && n.items[b].Sub? && n.level > 0
    requires var m := n.items[b].node;
             m.level == n.level - 1 && n.weights[b] == m.sumWeight && Shaped(m)
    ensures SlotShaped(n, b)
  {}

  lemma SubCount(m: Node)
    ensures SlotCount(Sub(m)) == m.itemCnt
  {}

  lemma BranchBelow(level: nat)
    requires level > 0
    ensures BranchCap(level) == Cap(level - 1)
  {}

  /** The figures of a subtree change as the place in it does. */
  lemma BelowFigures(m: Node, sub: Node, x: nat, c: Cell)
    requires Shaped(m) && Shaped(sub) && m.level == sub.level && x < |Cells(m)| && Cells(sub) == Cells(m)[x := c]
    ensures |Cells(m)| == Cap(m.level)
    ensures sub.sumWeight == m.sumWeight + WeightOf(c) - WeightOf(Cells(m)[x])
    ensures sub.itemCnt == m.itemCnt - (if Cells(m)[x].Held? then 1 else 0) + if c.Held? then 1 else 0
  {
    Widths(m);
    Widths(sub);
    hide *;
    Totals(m);
    Totals(sub);
    SumSet(Cells(m), x, c);
  }

  lemma Widths(n: Node)
    requires Shaped(n)
    ensures |n.items| == |n.weights| == BRANCHES && n.maxItems == Cap(n.level)
  {}

  // ----- Changing a weight -----

  /** Division finds the branch, and the rest is the place under it. */
  lemma Located(n: Node, idx: nat)
    requires Shaped(n) && n.level > 0 && idx < |Cells(n)|
    ensures n.maxItems / BRANCHES == BranchCap(n.level)
    ensures var c := BranchCap(n.level);
            var b, x := idx / c, idx % c;
            && b < BRANCHES && x < c && idx == Times(b, c) + x && b * c + x == idx
            && |SlotCells(n, b)| == c && Cells(n)[idx] == SlotCells(n, b)[x]
            && (Cells(n)[idx].Held? ==> n.items[b].Sub? && SlotShaped(n, b))
  {
    Totals(n);
    var c := BranchCap(n.level);
    var b, x := idx / c, idx % c;
    EightDivide(c, idx);
    TimesIsMul(b, c);
    CellAt(n, b, x);
    assert SlotShaped(n, b);
  }

  lemma Larger(q: nat, c: nat)
    ensures q >= BRANCHES ==> q * c >= BRANCHES * c
  {}

  lemma EightDivide(c: nat, idx: nat)
    requires c > 0 && idx < BRANCHES * c
    ensures idx / c < BRANCHES && (idx / c) * c + idx % c == idx && (BRANCHES * c) / BRANCHES == c
  {
    assert (idx / c) * c + idx % c == idx;
    Larger(idx / c, c);
  }

  lemma LeafAt(n: Node, idx: nat)
    requires Shaped(n) && n.level == 0 && idx < |Cells(n)| && Cells(n)[idx].Held?
    ensures idx < BRANCHES && n.items[idx] == Leaf(Cells(n)[idx].item) && n.weights[idx] == Cells(n)[idx].weight
  {
    Totals(n);
    TimesOne(idx);
    CellAt(n, idx, 0);
    assert SlotShaped(n, idx);
  }

  lemma LeafChanged(n: Node, r: Node, idx: nat, c: Cell)
    requires Shaped(n) && n.level == 0 && idx < BRANCHES && SameBut(n, r, idx) && n.items[idx].Leaf?
    requires r.items[idx] == (if c.Held? then Leaf(c.item) else Empty) && r.weights[idx] == WeightOf(c)
    requires (c.Held? ==> c.weight != 0) && r.maxItems == n.maxItems
    requires r.sumWeight == n.sumWeight + r.weights[idx] - n.weights[idx]
    requires r.itemCnt == n.itemCnt - if c.Held? then 0 else 1
    ensures Shaped(r) && idx < |Cells(n)| && Cells(r) == Cells(n)[idx := c]
  {
    hide Shaped, Cells, First;
    StaysShaped(n, r, idx);
    assert Vacants(1) == [Vacant];
    CellChanged(n, r, idx, 0, c);
    TimesOne(idx);
  }

  /** Store a new weight at an index; weight zero takes the item out. */
  method SetWeight(n: Node, idx: nat, weight: int) returns (r: Node, diff: int)
    requires Shaped(n) && idx < |Cells(n)| && Cells(n)[idx].Held?
    ensures Shaped(r) && r.level == n.level && diff == weight - Cells(n)[idx].weight
    ensures Cells(r) == Cells(n)[idx := if weight == 0 then Vacant else Held(Cells(n)[idx].item, weight)]
    decreases n.level
  {
    Widths(n);
    ghost var c := if weight == 0 then Vacant else Held(Cells(n)[idx].item, weight);
    hide Shaped, Cells, First, Cap, SlotCells;
    if n.level == 0 {
      LeafAt(n, idx);
      diff := weight - n.weights[idx];
      r := Node(if weight == 0 then n.items[idx := Empty] else n.items, n.weights[idx := weight], n.sumWeight + diff,
                n.level, if weight == 0 then n.itemCnt - 1 else n.itemCnt, n.maxItems);
      LeafChanged(n, r, idx, c);
    } else {
      var branchItems := n.maxItems / BRANCHES;
      Located(n, idx);
      var branch := idx / branchItems;
      var x := idx - branch * branchItems;
      var m := n.items[branch].node;
      SubCells(n, branch);
      var sub;
      sub, diff := SetWeight(m, x, weight);
      r := Node(n.items[branch := Sub(sub)], n.weights[branch := n.weights[branch] + diff], n.sumWeight + diff, n.level,
                if weight == 0 then n.itemCnt - 1 else n.itemCnt, n.maxItems);
      ChangedBelow(n, r, branch, m, sub, x, c);
    }
  }

  // ----- Choosing -----

  /** Value v falls into the interval of place i. */
  ghost predicate Hits(s: seq<Cell>, v: int, i: nat) {
    i < |s| && Sum(s[..i]) <= v < Sum(s[..i]) + WeightOf(s[i])
  }

  /** The places before place x of branch b. */
  lemma PrefixBelow(n: Node, b: nat, x: nat)
    requires Shaped(n) && b < BRANCHES && x < BranchCap(n.level)
    ensures |SlotCells(n, b)| == BranchCap(n.level) && Times(b, BranchCap(n.level)) + x < |Cells(n)|
    ensures Sum(Cells(n)[..Times(b, BranchCap(n.level)) + x]) == SumWeights(n.weights, b) + Sum(SlotCells(n, b)[..x])
    ensures Cells(n)[Times(b, BranchCap(n.level)) + x] == SlotCells(n, b)[x]
  {
    CellAt(n, b, x);
    FirstTotals(n, b);
    var at := Times(b, BranchCap(n.level)) + x;
    forall y | 0 <= y < at ensures Cells(n)[y] == (First(n, b) + SlotCells(n, b)[..x])[y] {
      FirstIsPrefix(n, b + 1, BRANCHES);
      assert First(n, b + 1)[y] == Cells(n)[y];
    }
    assert Cells(n)[..at] == First(n, b) + SlotCells(n, b)[..x];
    SumBoth(First(n, b), SlotCells(n, b)[..x]);
  }

  lemma {:induction false} FirstIsPrefix(n: Node, j: nat, k: nat)
    requires j <= k <= |n.items| <= |n.weights|
    ensures First(n, j) <= First(n, k)
    decreases k
  {
    if j < k { FirstIsPrefix(n, j, k - 1); }
  }

  /** The place at index i holds the item with that weight, and v falls into its interval. */
  ghost predicate HitsItem(s: seq<Cell>, v: int, i: nat, item: Item, w: int) {
    Hits(s, v, i) && s[i] == Held(item, w)
  }

  /** Below the total weight, every value finds the place whose interval it is in. */
  method Choose(n: Node, val: int) returns (item: Item, w: int)
    requires Shaped(n) && 0 <= val < n.sumWeight
    ensures exists i :: HitsItem(Cells(n), val, i, item, w)
    decreases n.level
  {
    Widths(n);
    var i, v := 0, val;
    while v >= n.weights[i]
      invariant i < BRANCHES && v == val - SumWeights(n.weights, i) && v >= 0
      decreases BRANCHES - i
    {
      v := v - n.weights[i];
      i := i + 1;
    }
    assert SlotShaped(n, i);
    if n.level == 0 {
      PrefixBelow(n, i, 0);
      assert HitsItem(Cells(n), val, Times(i, 1), n.items[i].item, n.weights[i]);
      return n.items[i].item, n.weights[i];
    }
    item, w := Choose(n.items[i].node, v);
    ghost var x: nat :| HitsItem(Cells(n.items[i].node), v, x, item, w);
    assert Hits(Cells(n.items[i].node), v, x);
    hide Shaped, Cells, First, Hits, Cap;
    Totals(n.items[i].node);
    SubCells(n, i);
    BranchBelow(n.level);
    PrefixBelow(n, i, x);
    HitBelow(n, i, x, v, val);
    assert HitsItem(Cells(n), val, Times(i, BranchCap(n.level)) + x, item, w);
  }

  lemma HitBelow(n: Node, b: nat, x: nat, v: int, val: int)
    requires Shaped(n) && b < BRANCHES && x < BranchCap(n.level) && Hits(SlotCells(n, b), v, x)
    requires v == val - SumWeights(n.weights, b)
    ensures Hits(Cells(n), val, Times(b, BranchCap(n.level)) + x)
  {
    PrefixBelow(n, b, x);
  }

  // ----- Chances -----

  ghost predicate NonNegative(s: seq<Cell>) {
    forall i :: 0 <= i < |s| ==> WeightOf(s[i]) >= 0
  }

  lemma {:induction false} SumGrows(s: seq<Cell>, i: nat, j: nat)
    requires NonNegative(s) && i <= j <= |s|
    ensures Sum(s[..i]) <= Sum(s[..j]) && (i < j ==> Sum(s[..i]) + WeightOf(s[i]) <= Sum(s[..j]))
    decreases j - i
  {
    if i < j {
      SumGrows(s, i + 1, j);
      assert s[..i + 1][..i] == s[..i];
    }
  }

  function Interval(lo: int, hi: int): (s: set<int>)
    requires lo <= hi
    ensures |s| == hi - lo && forall v :: v in s <==> lo <= v < hi
    decreases hi - lo
  {
    if lo == hi then {} else Interval(lo, hi - 1) + {hi - 1}
  }

  /** No value is in two intervals. */
  lemma HitsOnce(s: seq<Cell>, v: int, i: nat, j: nat)
    requires NonNegative(s) && Hits(s, v, i) && Hits(s, v, j)
    ensures i == j
  {
    if i < j { SumGrows(s, i, j); }
    if j < i { SumGrows(s, j, i); }
  }

  /** Each place is chosen by exactly as many of the values below the total as it has weight. */
  lemma ChancesAreWeights(s: seq<Cell>, i: nat)
    requires NonNegative(s) && i < |s|
    ensures Sum(s) >= 0 && |set v | v in Interval(0, Sum(s)) && Hits(s, v, i)| == WeightOf(s[i])
  {
    SumGrows(s, 0, i);
    SumGrows(s, i, |s|);
    assert s[..|s|] == s && s[..0] == [];
    var lo := Sum(s[..i]);
    assert (set v | v in Interval(0, Sum(s)) && Hits(s, v, i)) == Interval(lo, lo + WeightOf(s[i]));
  }
}
