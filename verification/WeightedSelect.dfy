/** The weighted random selector of les/randselect.go over its weight tree. */
module WeightedSelect {
  import opened Basics
  import opened WrsTree

  /** idx leads from each item to the one place that holds it. */
  ghost predicate Placed(s: seq<Cell>, idx: map<Item, nat>) {
    && (forall x :: x in idx ==> idx[x] < |s| && s[idx[x]].Held? && s[idx[x]].item == x)
    && (forall i :: 0 <= i < |s| && s[i].Held? ==> s[i].item in idx && idx[s[i].item] == i)
  }

  ghost function Stored(s: seq<Cell>, idx: map<Item, nat>): map<Item, int>
    requires Placed(s, idx)
  {
    map x | x in idx :: s[idx[x]].weight
  }

  lemma PlaceNew(s: seq<Cell>, idx: map<Item, nat>, x: Item, i: nat, w: int)
    requires Placed(s, idx) && x !in idx && i < |s| && s[i] == Vacant
    ensures Placed(s[i := Held(x, w)], idx[x := i])
    ensures Stored(s[i := Held(x, w)], idx[x := i]) == Stored(s, idx)[x := w]
  {}

  lemma PlaceAgain(s: seq<Cell>, idx: map<Item, nat>, x: Item, w: int)
    requires Placed(s, idx) && x in idx
    ensures Placed(s[idx[x] := Held(x, w)], idx)
    ensures Stored(s[idx[x] := Held(x, w)], idx) == Stored(s, idx)[x := w]
  {}

  lemma PlaceOut(s: seq<Cell>, idx: map<Item, nat>, x: Item)
    requires Placed(s, idx) && x in idx
    ensures Placed(s[idx[x] := Vacant], idx - {x})
    ensures Stored(s[idx[x] := Vacant], idx - {x}) == Stored(s, idx) - {x}
  {}

  lemma PlaceMore(s: seq<Cell>, idx: map<Item, nat>, n: nat)
    requires Placed(s, idx)
    ensures Placed(s + Vacants(n), idx) && Stored(s + Vacants(n), idx) == Stored(s, idx)
  {}

  // ----- A new level -----

  /** A root above the given one. */
  function Raised(n: Node): Node {
    Node([Sub(n)] + seq(BRANCHES - 1, _ => Empty), [n.sumWeight] + seq(BRANCHES - 1, _ => 0), n.sumWeight, n.level + 1,
         n.itemCnt, n.maxItems * BRANCHES)
  }

  lemma {:induction false} RaisedFirst(n: Node, k: nat)
    requires Shaped(n) && 1 <= k <= BRANCHES
    ensures SumWeights(Raised(n).weights, k) == n.sumWeight && SumCounts(Raised(n).items, k) == n.itemCnt
    ensures First(Raised(n), k) == Cells(n) + Vacants(Times(k - 1, Cap(n.level)))
  {
    hide Shaped;
    Widths(n);
    var r := Raised(n);
    if k == 1 {
      assert SlotCells(r, 0) == Cells(n);
      assert First(r, 1) == First(r, 0) + SlotCells(r, 0);
    } else {
      RaisedFirst(n, k - 1);
      assert SlotCells(r, k - 1) == Vacants(Cap(n.level));
    }
  }

  /** Every place keeps its index when the tree grows, and seven times as many follow. */
  lemma RaisedCells(n: Node)
    requires Shaped(n)
    ensures Shaped(Raised(n)) && Cells(Raised(n)) == Cells(n) + Vacants(Times(BRANCHES - 1, Cap(n.level)))
    ensures Raised(n).maxItems > n.maxItems
  {
    var r := Raised(n);
    RaisedFirst(n, BRANCHES);
    forall i | 0 <= i < BRANCHES ensures SlotShaped(r, i) {}
  }

  // ----- Stored weights are never zero -----

  ghost predicate NonZero(s: seq<Cell>) {
    forall i :: 0 <= i < |s| && s[i].Held? ==> s[i].weight != 0
  }

  lemma {:induction false} FirstNonZero(n: Node, k: nat)
    requires Shaped(n) && k <= BRANCHES
    ensures NonZero(First(n, k))
    decreases n, k
  {
    if k > 0 {
      FirstNonZero(n, k - 1);
      assert SlotShaped(n, k - 1);
      if n.items[k - 1].Sub? { FirstNonZero(n.items[k - 1].node, BRANCHES); }
    }
  }

  lemma {:induction false} ZeroSum(s: seq<Cell>)
    requires NonNegative(s) && NonZero(s)
    ensures Sum(s) >= 0 && (Sum(s) == 0 <==> forall i :: 0 <= i < |s| ==> s[i] == Vacant)
  {
    if s != [] { ZeroSum(s[..|s| - 1]); }
  }

  // ----- Attempts to choose -----

  /** One attempt: the places then, the one found with its item and stored weight, and the item's own weight. */
  datatype Attempt = Attempt(cells: seq<Cell>, place: nat, item: Item, stored: int, own: int)

  /** The place of an item with the given weight. */
  function CellFor(item: Item, weight: int): Cell {
    if weight == 0 then Vacant else Held(item, weight)
  }

  /** The own weight is stored, nothing else changes. */
  function After(a: Attempt): seq<Cell> {
    if a.place < |a.cells| then a.cells[a.place := CellFor(a.item, a.own)] else a.cells
  }

  /** Attempt k looks at the place that its random number below the total hits. */
  ghost predicate Looks(a: Attempt, k: nat, draw: (nat, int) -> int, weightNow: (nat, Item) -> int) {
    && Sum(a.cells) > 0 && HitsItem(a.cells, draw(2 * k, Sum(a.cells)), a.place, a.item, a.stored)
    && a.own == weightNow(2 * k, a.item)
  }

  /** An item whose weight has fallen is accepted with the chance of its new weight in the old one. */
  ghost predicate Accepts(a: Attempt, k: nat, draw: (nat, int) -> int) {
    a.own >= a.stored || draw(2 * k + 1, a.stored) < a.own
  }

  /** The attempts lead from places s0 to s, each starting where the one before ended. */
  ghost predicate Linked(s0: seq<Cell>, trail: seq<Attempt>, s: seq<Cell>) {
    && (if trail == [] then s == s0 else trail[0].cells == s0 && s == After(trail[|trail| - 1]))
    && forall k :: 0 < k < |trail| ==> trail[k].cells == After(trail[k - 1])
  }

  ghost predicate Tried(s0: seq<Cell>, trail: seq<Attempt>, s: seq<Cell>, draw: (nat, int) -> int,
                        weightNow: (nat, Item) -> int)
  {
    && Linked(s0, trail, s)
    && forall k :: 0 <= k < |trail| ==>
         Looks(trail[k], k, draw, weightNow) && (k < |trail| - 1 ==> !Accepts(trail[k], k, draw))
  }

  /** All attempts but the last fail; the last decides, and without one there is no weight. */
  ghost predicate Chosen(s0: seq<Cell>, trail: seq<Attempt>, s: seq<Cell>, draw: (nat, int) -> int,
                         weightNow: (nat, Item) -> int, choice: Option<Item>)
  {
    && Tried(s0, trail, s, draw, weightNow)
    && var n := |trail|;
       if n > 0 && Accepts(trail[n - 1], n - 1, draw) then choice == Some(trail[n - 1].item)
       else choice == None && Sum(s) == 0
  }

  lemma TriedMore(s0: seq<Cell>, trail: seq<Attempt>, a: Attempt, draw: (nat, int) -> int, weightNow: (nat, Item) -> int)
    requires Tried(s0, trail, a.cells, draw, weightNow) && Looks(a, |trail|, draw, weightNow)
    requires trail != [] ==> !Accepts(trail[|trail| - 1], |trail| - 1, draw)
    ensures Tried(s0, trail + [a], After(a), draw, weightNow)
  {
    hide Looks, Accepts, After;
  }

  lemma NoAttempt(s: seq<Cell>, draw: (nat, int) -> int, weightNow: (nat, Item) -> int)
    ensures Tried(s, [], s, draw, weightNow)
  {}

  lemma AfterIs(a: Attempt, v: int)
    requires HitsItem(a.cells, v, a.place, a.item, a.stored) && a.stored > 0
    ensures a.place < |a.cells| && After(a) == a.cells[a.place := CellFor(a.item, a.own)]
    ensures a.own == a.stored ==> After(a) == a.cells
  {}

  /**
   If no weight has fallen, the choice is decided by the first random number: it
   is the item whose interval holds it, so that its chance is its weight.
   */
  lemma FirstDrawDecides(s0: seq<Cell>, trail: seq<Attempt>, s: seq<Cell>, draw: (nat, int) -> int,
                         weightNow: (nat, Item) -> int, choice: Option<Item>, i: nat)
    requires Chosen(s0, trail, s, draw, weightNow, choice) && NonNegative(s0) && Sum(s0) > 0
    requires forall j, x, w :: 0 <= j < |s0| && s0[j] == Held(x, w) ==> weightNow(0, x) >= w
    requires Hits(s0, draw(0, Sum(s0)), i)
    ensures s0[i].Held? && choice == Some(s0[i].item)
  {
    if trail != [] {
      var a := trail[0];
      assert Looks(a, 0, draw, weightNow);
      HitsOnce(s0, draw(0, Sum(s0)), a.place, i);
      assert Accepts(a, 0, draw);
    }
  }

  class WeightedRandomSelect {
    var root: Node
    var idx: map<Item, nat>

    ghost predicate Valid()
      reads this
    {
      Shaped(root) && Placed(Cells(root), idx)
    }

    /** The items with the weight last stored for each. */
    ghost function Weights(): map<Item, int>
      requires Valid()
      reads this
    {
      Stored(Cells(root), idx)
    }

    constructor ()
      ensures Valid() && Weights() == map[]
    {
      root := NewNode(0, BRANCHES);
      idx := map[];
      new;
      NewNodeShaped(0);
    }

    /** Set an item's weight; zero removes it. Items already there keep their index. */
    method SetWeight(item: Item, weight: int)
      requires Valid()
      modifies this
      ensures Valid()
      ensures Weights() == if weight == 0 then old(Weights()) - {item} else old(Weights())[item := weight]
      ensures forall x :: x in idx && x in old(idx) ==> idx[x] == old(idx)[x]
      ensures root.sumWeight
           == old(root.sumWeight) + weight - (if item in old(Weights()) then old(Weights())[item] else 0)
      ensures NonNegative(old(Cells(root))) && weight >= 0 ==> NonNegative(Cells(root))
      ensures item in old(idx) ==> Cells(root) == old(Cells(root))[old(idx)[item] := CellFor(item, weight)]
    {
      if item in idx {
        Change(item, weight);
      } else if weight != 0 {
        Totals(root);
        CountBound(Cells(root));
        if root.itemCnt == root.maxItems {
          RaisedCells(root);
          PlaceMore(Cells(root), idx, Times(BRANCHES - 1, Cap(root.level)));
          root := Raised(root);
        }
        Add(item, weight);
      }
    }

    method Change(item: Item, weight: int)
      requires Valid() && item in idx
      modifies this
      ensures Valid()
      ensures Weights() == if weight == 0 then old(Weights()) - {item} else old(Weights())[item := weight]
      ensures idx == if weight == 0 then old(idx) - {item} else old(idx)
      ensures root.sumWeight == old(root.sumWeight) + weight - old(Weights())[item]
      ensures NonNegative(old(Cells(root))) && weight >= 0 ==> NonNegative(Cells(root))
      ensures Cells(root) == old(Cells(root))[old(idx)[item] := CellFor(item, weight)]
    {
      ghost var s := Cells(root);
      var r, diff := WrsTree.SetWeight(root, idx[item], weight);
      Totals(root);
      Totals(r);
      if weight == 0 {
        PlaceOut(s, idx, item);
        SumSet(s, idx[item], Vacant);
        idx := idx - {item};
      } else {
        PlaceAgain(s, idx, item, weight);
        SumSet(s, idx[item], Held(item, weight));
      }
      root := r;
    }

    method Add(item: Item, weight: int)
      requires Valid() && item !in idx && weight != 0 && root.itemCnt < root.maxItems
      modifies this
      ensures Valid() && Weights() == old(Weights())[item := weight]
      ensures item in idx && idx == old(idx)[item := idx[item]]
      ensures root.sumWeight == old(root.sumWeight) + weight
      ensures NonNegative(old(Cells(root))) && weight >= 0 ==> NonNegative(Cells(root))
    {
      ghost var s := Cells(root);
      var r, i := Insert(root, item, weight);
      Totals(root);
      Totals(r);
      PlaceNew(s, idx, item, i, weight);
      SumSet(s, i, Held(item, weight));
      root, idx := r, idx[item := i];
    }

    lemma EmptyOrHeavy()
      requires Valid() && NonNegative(Cells(root))
      ensures root.sumWeight >= 0 && (root.sumWeight == 0 <==> Weights() == map[])
    {
      var s := Cells(root);
      Totals(root);
      FirstNonZero(root, BRANCHES);
      ZeroSum(s);
      assert Weights().Keys == idx.Keys;
      assert (exists i :: 0 <= i < |s| && s[i].Held?) <==> idx.Keys != {} by {
        if idx.Keys != {} {
          var x :| x in idx;
          assert s[idx[x]].Held?;
        }
      }
    }

    lemma IsStored(item: Item, w: int, v: int, i: nat)
      requires Valid() && HitsItem(Cells(root), v, i, item, w)
      ensures item in Weights() && Weights()[item] == w && w > 0 && item in idx && idx[item] == i < |Cells(root)|
    {}

    /** The stored weights add up to the root's. */
    lemma TotalIs()
      requires Valid()
      ensures Sum(Cells(root)) == root.sumWeight
    {
      Totals(root);
    }

    /**
     Choose an item. `draw` yields the random numbers and `weightNow` the items'
     own weights, both free to differ at each attempt. The attempts are recorded:
     each looks at the item its random number hits and stores that item's own
     weight.
     */
    method Choose(draw: (nat, int) -> int, weightNow: (nat, Item) -> int)
      returns (choice: Option<Item>, ghost trail: seq<Attempt>)
      requires Valid() && NonNegative(Cells(root))
      requires forall t, n :: n > 0 ==> 0 <= draw(t, n) < n
      requires forall t, x :: weightNow(t, x) >= 0
      modifies this
      ensures Valid() && NonNegative(Cells(root)) && Weights().Keys <= old(Weights()).Keys
      ensures Chosen(old(Cells(root)), trail, Cells(root), draw, weightNow, choice)
      ensures choice == None <==> Weights() == map[]
      ensures choice.Some? ==>
                && trail != [] && choice.value in Weights()
                && Weights()[choice.value] == weightNow(2 * (|trail| - 1), choice.value) > 0
      ensures forall x :: x in Weights() && choice != Some(x) ==> Weights()[x] <= old(Weights())[x]
    {
      hide Cells, Placed, Stored, NonNegative, Tried, HitsItem, After, Sum, CellFor;
      var t := 0;
      trail := [];
      EmptyOrHeavy();
      NoAttempt(Cells(root), draw, weightNow);
      while root.sumWeight != 0
        invariant Valid() && NonNegative(Cells(root)) && Weights().Keys <= old(Weights()).Keys
        invariant forall x :: x in Weights() ==> Weights()[x] <= old(Weights())[x]
        invariant root.sumWeight >= 0 && (root.sumWeight == 0 <==> Weights() == map[])
        invariant t == 2 * |trail| && Tried(old(Cells(root)), trail, Cells(root), draw, weightNow)
        invariant trail != [] ==> !Accepts(trail[|trail| - 1], |trail| - 1, draw)
        decreases root.sumWeight
      {
        TotalIs();
        var val := draw(t, root.sumWeight);
        var item, lastWeight := WrsTree.Choose(root, val);
        ghost var i: nat :| HitsItem(Cells(root), val, i, item, lastWeight);
        IsStored(item, lastWeight, val, i);
        var weight := weightNow(t, item);
        ghost var a := Attempt(Cells(root), i, item, lastWeight, weight);
        TriedMore(old(Cells(root)), trail, a, draw, weightNow);
        AfterIs(a, val);
        if weight != lastWeight { SetWeight(item, weight); }
        trail := trail + [a];
        if weight >= lastWeight || draw(t + 1, lastWeight) < weight {
          return Some(item), trail;
        }
        EmptyOrHeavy();
        t := t + 2;
      }
      TotalIs();
      return None, trail;
    }
  }
}
