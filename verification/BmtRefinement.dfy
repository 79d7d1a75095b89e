/**
 Every interleaving of the concurrent BMT hasher delivers the reference hash
 and leaves the tree clean.

 The invariant follows the data: `Out(c, h, k)` is the value that node (h, k)
 must hand upwards, and `owner` records, for each node already left behind,
 the goroutine that carried its value on. `owner` is not part of the program
 state; each step lemma says how it grows.
 */
module BmtRefinement {
  import opened Basics
  import opened BmtReference
  import opened BmtHasher

  // ----- What each node must compute -----

  /** Node (h, k) lies above some double segment of the chunk. */
  predicate Used(c: Job, h: nat, k: nat)
    requires c.size > 0
  {
    Below(c, h) && k <= Ancestor(Last(c), h)
  }

  /** Height h is not above the root of the smallest tree that holds the chunk. */
  predicate Below(c: Job, h: nat)
    requires c.size > 0
  {
    h == 0 || Ancestor(Last(c), h - 1) > 0
  }

  /** Both children of node (h, k) lie above double segments of the chunk. */
  predicate Balanced(c: Job, h: nat, k: nat)
    requires c.size > 0
  {
    h > 0 && 2 * k + 1 <= Ancestor(Last(c), h - 1)
  }

  function Out(c: Job, h: nat, k: nat): Bytes
    requires c.size > 0 && k <= Ancestor(Last(c), h)
    decreases h
  {
    if h == 0 then
      var s := Segment(c, k);
      if |s| > c.size || Last(c) == 0 then c.H(s) else s
    else if Balanced(c, h, k) then
      c.H(Out(c, h - 1, 2 * k) + Out(c, h - 1, 2 * k + 1))
    else
      Out(c, h - 1, 2 * k)
  }

  // ----- The invariant -----

  type Owner = map<Pos, nat>

  function Height(r: Routine): nat {
    if r.Active? || r.Waiting? then r.at.h else 0
  }

  predicate Toggled(r: Routine, h: nat) {
    (r.Active? && (r.at.h > h || (r.at.h == h && r.pc in {Combine, Emit}))) || (r.Waiting? && r.at.h >= h)
  }

  predicate Stored(r: Routine, h: nat) {
    (r.Active? && (r.at.h > h || (r.at.h == h && r.pc in {Test, Toggle, Combine, Emit}))) || (r.Waiting? && r.at.h >= h)
  }

  predicate StoppedAt(r: Routine, h: nat) { r.Waiting? && r.at.h == h }

  ghost predicate OwnerOk(c: Job, st: State, o: Owner)
    requires WellFormed(c, st)
  {
    && (forall p | p in o :: o[p] <= Last(c) && Ancestor(o[p], p.h) == p.k && Height(st.routines[o[p]]) > p.h)
    && (forall j: nat, h: nat | j <= Last(c) && h < Height(st.routines[j]) ::
          Pos(h, Ancestor(j, h)) in o && o[Pos(h, Ancestor(j, h))] == j)
  }

  /** The child edge e has been carried to its parent and toggled there. */
  predicate Done(st: State, o: Owner, e: Pos) {
    e in o && o[e] < |st.routines| && Toggled(st.routines[o[e]], e.h + 1)
  }

  predicate Written(st: State, o: Owner, e: Pos) {
    e in o && o[e] < |st.routines| && Stored(st.routines[o[e]], e.h + 1)
  }

  predicate Stopped(st: State, o: Owner, e: Pos) {
    e in o && o[e] < |st.routines| && StoppedAt(st.routines[o[e]], e.h + 1)
  }

  function StartHeight(c: Job): nat
    requires c.size > 0
  {
    if |Segment(c, Last(c))| > c.size && Last(c) > 0 && c.depth > 0 then 1 else 0
  }

  /** finalise has visited node (h, k). */
  predicate Finalised(c: Job, main: Main, h: nat, k: nat)
    requires c.size > 0
  {
    && Below(c, h) && k == Ancestor(Last(c), h) && h >= StartHeight(c)
    && (main.Launching? || main.Receiving? || (main.Finalising? && h < main.at.h))
  }

  predicate FlagsOk(c: Job, st: State, h: nat, k: nat)
    requires c.size > 0 && Pos(h, k) in st.nodes
  {
    var n := st.nodes[Pos(h, k)];
    && n.unbalanced == (Finalised(c, st.main, h, k) && !Balanced(c, h, k))
    && n.root == (h == c.depth || (Finalised(c, st.main, h, k) && k == 0))
    && (n.unbalanced ==> n.right == [])
  }

  function Arrivals(base: int, left: bool, right: bool): int {
    if left && right then AddOne(AddOne(base)) else if left || right then AddOne(base) else base
  }

  predicate NodeOk(c: Job, b: map<Pos, Node>, st: State, o: Owner, h: nat, k: nat)
    requires c.size > 0 && k <= Ancestor(Last(c), h)
    requires Pos(h, k) in st.nodes && Pos(h, k) in b
  {
    var n := st.nodes[Pos(h, k)];
    if h == 0 then
      && n.state == b[Pos(h, k)].state
      && (k == Last(c) && k < |st.routines| && Height(st.routines[k]) == 0 && Stored(st.routines[k], 0) ==>
            n.left == Segment(c, k))
      && (Pos(h, k) in o ==> k < |st.routines| && !st.routines[k].Idle?)
    else
      var l, r := Pos(h - 1, 2 * k), Pos(h - 1, 2 * k + 1);
      && (Written(st, o, l) ==> n.left == Out(c, h - 1, 2 * k))
      && if Balanced(c, h, k) then
           && n.state == Arrivals(b[Pos(h, k)].state, Done(st, o, l), Done(st, o, r))
           && (Written(st, o, r) ==> n.right == Out(c, h - 1, 2 * k + 1))
           && (Done(st, o, l) && Done(st, o, r) ==> Stopped(st, o, l) != Stopped(st, o, r))
           && (Done(st, o, l) && !Done(st, o, r) ==> Stopped(st, o, l))
           && (Done(st, o, r) && !Done(st, o, l) ==> Stopped(st, o, r))
           && (Pos(h, k) in o ==> Done(st, o, l) && Done(st, o, r))
         else
           && n.state == b[Pos(h, k)].state
           && (Pos(h, k) in o ==> l in o)
  }

  predicate RoutineOk(c: Job, main: Main, j: nat, r: Routine)
    requires c.size > 0 && j <= Last(c)
  {
    match r
    case Idle => if j == Last(c) then !main.Receiving? else main.Writing? && main.next <= j
    case Sent => false
    case Waiting(at) =>
      && IsLaunched(c, main, j)
      && at.h > 0 && Below(c, at.h) && at.k == Ancestor(j, at.h) && Balanced(c, at.h, at.k)
    case Active(at, isLeft, s, i, d, pc) =>
      && IsLaunched(c, main, j)
      && Below(c, at.h) && at.k == Ancestor(j, at.h) && at.k <= Ancestor(Last(c), at.h)
      && (Last(c) == 0 ==> d == 0)
      && if at.h == 0 then
           if pc == HashLeaf || pc == EmitLeaf then
             && c.depth > 0 && |Segment(c, j)| > c.size
             && s == (if pc == HashLeaf then Segment(c, j) else Out(c, 0, j))
           else
             && j == Last(c) && isLeft && i == 2 * j && pc != Toggle
             && (|Segment(c, j)| <= c.size || j == 0)
             && s == (if pc == Emit then Out(c, 0, j) else Segment(c, j))
         else
           && pc != HashLeaf && pc != EmitLeaf
           && (pc == Toggle ==> Balanced(c, at.h, at.k))
           && (i == 0 ==> j == 0)
           && Ancestor(j, at.h - 1) <= Ancestor(Last(c), at.h - 1)
           && isLeft == (Ancestor(j, at.h - 1) % 2 == 0)
           && s == (if pc == Emit then Out(c, at.h, at.k) else Out(c, at.h - 1, Ancestor(j, at.h - 1)))
  }

  predicate IsLaunched(c: Job, main: Main, j: nat)
    requires c.size > 0
  {
    if j == Last(c) then main.Receiving? else main.Writing? ==> j < main.next
  }

  predicate MainOk(c: Job, main: Main)
    requires c.size > 0
  {
    match main
    case Writing(next) => next <= Last(c)
    case Finalising(at, isLeft, d) =>
      && Below(c, at.h) && at.k == Ancestor(Last(c), at.h) && at.h >= StartHeight(c)
      && isLeft == !Balanced(c, at.h, at.k)
      && (Last(c) == 0 ==> d == 0)
    case Launching(d) => Last(c) == 0 ==> d == 0
    case Receiving => true
    case _ => false
  }

  /** A tree as NewTree makes it and as every Sum must leave it. */
  ghost predicate Clean(depth: nat, b: map<Pos, Node>) {
    && (forall p {:trigger InTree(depth, p)} {:trigger p in b} :: InTree(depth, p) <==> p in b)
    && (forall p {:trigger CleanNode(depth, b, p)} :: p in b ==> CleanNode(depth, b, p))
  }

  predicate CleanNode(depth: nat, b: map<Pos, Node>, p: Pos) {
    && p in b && 0 <= b[p].state < MAX_INT32 && b[p].state % 2 == 0
    && !b[p].unbalanced && b[p].root == (p.h == depth)
  }

  /** Everything the invariant says about one node. */
  predicate NodeInv(c: Job, b: map<Pos, Node>, st: State, o: Owner, h: nat, k: nat)
    requires c.size > 0
  {
    && Pos(h, k) in st.nodes && CleanNode(c.depth, b, Pos(h, k))
    && FlagsOk(c, st, h, k)
    && (if k <= Ancestor(Last(c), h) then NodeOk(c, b, st, o, h, k)
        else st.nodes[Pos(h, k)].state == b[Pos(h, k)].state)
  }

  /** The tree holds every node the chunk needs. */
  ghost predicate Covers(c: Job, b: map<Pos, Node>)
    requires c.size > 0
  {
    forall h: nat, k: nat {:trigger Used(c, h, k)} :: Used(c, h, k) ==> Pos(h, k) in b
  }

  ghost predicate Inv(c: Job, b: map<Pos, Node>, st: State, o: Owner) {
    && Fits(c) && WellFormed(c, st) && Covers(c, b) && st.nodes.Keys == b.Keys
    && MainOk(c, st.main) && OwnerOk(c, st, o)
    && (forall j {:trigger st.routines[j]} | 0 <= j <= Last(c) :: RoutineOk(c, st.main, j, st.routines[j]))
    && (forall h: nat, k: nat {:trigger NodeInv(c, b, st, o, h, k)} | Pos(h, k) in b :: NodeInv(c, b, st, o, h, k))
  }

  // ----- Facts about positions -----

  lemma {:induction false} AncestorMono(i: nat, j: nat, h: nat)
    requires i <= j
    ensures Ancestor(i, h) <= Ancestor(j, h)
  {
    if h > 0 { AncestorMono(i, j, h - 1); }
  }

  lemma {:induction false} AncestorZero(j: nat, h: nat, g: nat)
    requires h <= g && Ancestor(j, h) == 0
    ensures Ancestor(j, g) == 0
    decreases g
  {
    if h < g { AncestorZero(j, h, g - 1); }
  }

  lemma {:induction false} AncestorBound(j: nat, h: nat, depth: nat)
    requires h <= depth && Ancestor(j, depth) == 0
    ensures Ancestor(j, h) < Pow2(depth - h)
    decreases depth - h
  {
    if h < depth { AncestorBound(j, h + 1, depth); }
  }

  lemma BelowDown(c: Job, h: nat)
    requires c.size > 0 && h > 0 && Below(c, h)
    ensures Below(c, h - 1)
  {}

  /** Every used node is in the tree. */
  lemma CleanCovers(c: Job, b: map<Pos, Node>)
    requires Fits(c) && Clean(c.depth, b)
    ensures Covers(c, b)
  {
    forall h: nat, k: nat | Used(c, h, k) ensures Pos(h, k) in b {
      if h > c.depth {
        AncestorZero(Last(c), c.depth, h - 1);
        assert false;
      }
      AncestorBound(Last(c), h, c.depth);
    }
  }

  // ----- Goroutine steps keep the invariant -----

  lemma PathEdgeDown(c: Job, b: map<Pos, Node>, st: State, o: Owner, h: nat)
    requires Inv(c, b, st, o) && Below(c, h) && Pos(h, Ancestor(Last(c), h)) in o
    ensures h == 0 ==> st.main.Receiving?
    ensures h > 0 ==> Below(c, h - 1) && Pos(h - 1, Ancestor(Last(c), h - 1)) in o
  {
    hide Out, Segment, Last, MainOk, FlagsOk;
    var m := Last(c);
    assert Used(c, h, Ancestor(m, h));
    assert NodeInv(c, b, st, o, h, Ancestor(m, h));
    if h == 0 {
      assert RoutineOk(c, st.main, m, st.routines[m]);
    } else {
      var a := Ancestor(m, h - 1);
      assert a == 2 * (a / 2) || a == 2 * (a / 2) + 1;
    }
  }

  /** Nothing leaves a node on the last segment's path before that segment is launched. */
  lemma {:induction false} LastIsLaunched(c: Job, b: map<Pos, Node>, st: State, o: Owner, h: nat)
    requires Inv(c, b, st, o) && Below(c, h) && Pos(h, Ancestor(Last(c), h)) in o
    ensures st.main.Receiving?
  {
    hide Inv;
    PathEdgeDown(c, b, st, o, h);
    if h > 0 { LastIsLaunched(c, b, st, o, h - 1); }
  }

  /** A goroutine at a node always sees the flag that describes the chunk. */
  lemma FlagIsBalance(c: Job, b: map<Pos, Node>, st: State, o: Owner, j: nat)
    requires Inv(c, b, st, o) && WellFormed(c, st) && j <= Last(c) && st.routines[j].Active?
    requires st.routines[j].pc !in {HashLeaf, EmitLeaf}
    ensures var at := st.routines[j].at;
            && at in st.nodes && at.k <= Ancestor(Last(c), at.h)
            && st.nodes[at].unbalanced == !Balanced(c, at.h, at.k)
  {
    hide Out, Segment, Last, MainOk, NodeOk;
    var at, m := st.routines[j].at, Last(c);
    assert RoutineOk(c, st.main, j, st.routines[j]);
    assert Used(c, at.h, at.k);
    assert NodeInv(c, b, st, o, at.h, at.k);
    if !Balanced(c, at.h, at.k) {
      assert at.k == Ancestor(m, at.h);
      if at.h > 0 {
        assert Ancestor(j, at.h - 1) == Ancestor(m, at.h - 1) == 2 * at.k;
        assert Pos(at.h - 1, Ancestor(j, at.h - 1)) in o;
        BelowDown(c, at.h);
        LastIsLaunched(c, b, st, o, at.h - 1);
      }
    }
  }

  /** A node that goroutine j is not at does not notice a step of j. */
  lemma NodeFrame(c: Job, b: map<Pos, Node>, st: State, st': State, o: Owner, j: nat, h: nat, k: nat)
    requires WellFormed(c, st) && WellFormed(c, st') && OwnerOk(c, st, o)
    requires j <= Last(c) && st.routines[j].Active?
    requires st'.routines == st.routines[j := st'.routines[j]] && st'.main == st.main
    requires (st'.routines[j].Active? || st'.routines[j].Waiting?) && st'.routines[j].at == st.routines[j].at
    requires st.routines[j].at.k == Ancestor(j, st.routines[j].at.h)
    requires Pos(h, k) in st'.nodes && Pos(h, k) != st.routines[j].at
    requires NodeInv(c, b, st, o, h, k) && st'.nodes[Pos(h, k)] == st.nodes[Pos(h, k)]
    ensures NodeInv(c, b, st', o, h, k)
  {
    if h > 0 {
      EdgeFrame(c, st, st', o, j, Pos(h - 1, 2 * k));
      EdgeFrame(c, st, st', o, j, Pos(h - 1, 2 * k + 1));
    }
  }

  lemma EdgeFrame(c: Job, st: State, st': State, o: Owner, j: nat, e: Pos)
    requires WellFormed(c, st) && WellFormed(c, st') && OwnerOk(c, st, o)
    requires j <= Last(c) && st.routines[j].Active?
    requires st'.routines == st.routines[j := st'.routines[j]]
    requires (st'.routines[j].Active? || st'.routines[j].Waiting?) && st'.routines[j].at == st.routines[j].at
    requires st.routines[j].at.k == Ancestor(j, st.routines[j].at.h)
    requires Parent(e) != st.routines[j].at
    ensures Done(st', o, e) == Done(st, o, e) && Written(st', o, e) == Written(st, o, e)
    ensures Stopped(st', o, e) == Stopped(st, o, e)
  {
    if e in o && o[e] == j {
      assert Ancestor(j, e.h + 1) == e.k / 2;
    }
  }

  lemma OwnerStays(c: Job, st: State, st': State, o: Owner, j: nat)
    requires WellFormed(c, st) && WellFormed(c, st') && OwnerOk(c, st, o) && j < |st.routines|
    requires st'.routines == st.routines[j := st'.routines[j]] && Height(st'.routines[j]) == Height(st.routines[j])
    ensures OwnerOk(c, st', o)
  {
    hide Last, Ancestor, Height;
    assert forall i :: 0 <= i < |st.routines| ==> Height(st'.routines[i]) == Height(st.routines[i]);
  }

  /** Steps that stay at a node: only that node and that goroutine need a look. */
  lemma StayKeeps(c: Job, b: map<Pos, Node>, st: State, st': State, o: Owner, j: nat)
    requires Inv(c, b, st, o) && WellFormed(c, st) && j <= Last(c) && st.routines[j].Active?
    requires st.routines[j].at in b
    requires |st'.routines| == |st.routines| && st'.main == st.main
    requires st'.routines == st.routines[j := st'.routines[j]]
    requires (st'.routines[j].Active? || st'.routines[j].Waiting?) && st'.routines[j].at == st.routines[j].at
    requires st.routines[j].at in st'.nodes && st'.nodes == st.nodes[st.routines[j].at := st'.nodes[st.routines[j].at]]
    requires RoutineOk(c, st'.main, j, st'.routines[j])
    requires NodeInv(c, b, st', o, st.routines[j].at.h, st.routines[j].at.k)
    ensures Inv(c, b, st', o)
  {
    hide Out, Segment, Last, NodeInv, MainOk, Covers, OwnerOk;
    assert RoutineOk(c, st.main, j, st.routines[j]);
    OwnerStays(c, st, st', o, j);
    forall h: nat, k: nat | Pos(h, k) in b ensures NodeInv(c, b, st', o, h, k) {
      assert NodeInv(c, b, st, o, h, k);
      if Pos(h, k) != st.routines[j].at { NodeFrame(c, b, st, st', o, j, h, k); }
    }
  }

  /** What the invariant says about the goroutine and the node it is at. */
  lemma Here(c: Job, b: map<Pos, Node>, st: State, o: Owner, j: nat)
    requires Inv(c, b, st, o) && WellFormed(c, st) && j <= Last(c) && st.routines[j].Active?
    ensures var r := st.routines[j];
            && r.at in b && r.at in st.nodes && RoutineOk(c, st.main, j, r)
            && NodeInv(c, b, st, o, r.at.h, r.at.k)
            && (r.at.h > 0 ==>
                  && (!r.isLeft ==> Ancestor(j, r.at.h - 1) > 0) &&
                  var e := Pos(r.at.h - 1, Ancestor(j, r.at.h - 1));
                  var f := Pos(e.h, if r.isLeft then e.k + 1 else e.k - 1);
                  && e in o && o[e] == j && Parent(e) == r.at && (f in o ==> o[f] != j)
                  && e.k == if r.isLeft then 2 * r.at.k else 2 * r.at.k + 1)
  {
    hide Out, Segment, Last, NodeInv, MainOk;
    var r := st.routines[j];
    assert RoutineOk(c, st.main, j, r);
    assert Used(c, r.at.h, r.at.k);
    assert NodeInv(c, b, st, o, r.at.h, r.at.k);
  }

  lemma HashLeafKeeps(c: Job, b: map<Pos, Node>, st: State, o: Owner, j: nat)
    requires Inv(c, b, st, o) && WellFormed(c, st) && RoutineEnabled(c, st, j) && st.routines[j].pc == HashLeaf
    ensures Inv(c, b, RoutineStep(c, st, j), o)
  {
    hide Inv;
    Here(c, b, st, o, j);
    StayKeeps(c, b, st, RoutineStep(c, st, j), o, j);
  }

  lemma StoreKeeps(c: Job, b: map<Pos, Node>, st: State, o: Owner, j: nat)
    requires Inv(c, b, st, o) && WellFormed(c, st) && RoutineEnabled(c, st, j) && st.routines[j].pc == Store
    ensures Inv(c, b, RoutineStep(c, st, j), o)
  {
    hide Inv;
    Here(c, b, st, o, j);
    FlagIsBalance(c, b, st, o, j);
    var st', at := RoutineStep(c, st, j), st.routines[j].at;
    assert NodeInv(c, b, st', o, at.h, at.k);
    StayKeeps(c, b, st, st', o, j);
  }

  lemma TestKeeps(c: Job, b: map<Pos, Node>, st: State, o: Owner, j: nat)
    requires Inv(c, b, st, o) && WellFormed(c, st) && RoutineEnabled(c, st, j) && st.routines[j].pc == Test
    ensures Inv(c, b, RoutineStep(c, st, j), o)
  {
    hide Inv;
    Here(c, b, st, o, j);
    FlagIsBalance(c, b, st, o, j);
    StayKeeps(c, b, st, RoutineStep(c, st, j), o, j);
  }

  lemma ToggleKeeps(c: Job, b: map<Pos, Node>, st: State, o: Owner, j: nat)
    requires Inv(c, b, st, o) && WellFormed(c, st) && RoutineEnabled(c, st, j) && st.routines[j].pc == Toggle
    ensures Inv(c, b, RoutineStep(c, st, j), o)
  {
    hide Inv;
    Here(c, b, st, o, j);
    StayKeeps(c, b, st, RoutineStep(c, st, j), o, j);
  }

  lemma CombineKeeps(c: Job, b: map<Pos, Node>, st: State, o: Owner, j: nat)
    requires Inv(c, b, st, o) && WellFormed(c, st) && RoutineEnabled(c, st, j) && st.routines[j].pc == Combine
    ensures Inv(c, b, RoutineStep(c, st, j), o)
  {
    hide Inv;
    Here(c, b, st, o, j);
    FlagIsBalance(c, b, st, o, j);
    var st', r := RoutineStep(c, st, j), st.routines[j];
    var n := st.nodes[r.at];
    if !Balanced(c, r.at.h, r.at.k) {
      assert n.left + n.right == n.left;
      if r.i == 0 && r.at.h > 0 { AncestorZero(j, 0, r.at.h); }
    }
    assert st'.routines[j].s == Out(c, r.at.h, r.at.k);
    StayKeeps(c, b, st, st', o, j);
  }

  /** A finished node is marked as the root exactly when it covers the whole chunk. */
  lemma RootIsTop(c: Job, b: map<Pos, Node>, st: State, o: Owner, j: nat)
    requires Inv(c, b, st, o) && WellFormed(c, st) && j <= Last(c)
    requires st.routines[j].Active? && st.routines[j].pc in {EmitLeaf, Emit}
    ensures st.routines[j].at in st.nodes
    ensures st.nodes[st.routines[j].at].root <==> Ancestor(Last(c), st.routines[j].at.h) == 0
  {
    hide Out, Segment, Last, MainOk, Inv;
    assert Fits(c) by { FitsOfInv(c, b, st, o); }
    Here(c, b, st, o, j);
    var at, m := st.routines[j].at, Last(c);
    if Ancestor(m, at.h) == 0 && at.h > 0 {
      assert Balanced(c, at.h, at.k);
      BelowDown(c, at.h);
      LastIsLaunched(c, b, st, o, at.h - 1);
    }
  }

  lemma FitsOfInv(c: Job, b: map<Pos, Node>, st: State, o: Owner)
    requires Inv(c, b, st, o)
    ensures Fits(c)
  {}

  /** Whoever carried a node's value on had carried one of its children's values before. */
  lemma OwnerFacts(c: Job, b: map<Pos, Node>, st: State, o: Owner, p: Pos)
    requires Inv(c, b, st, o) && WellFormed(c, st) && p in o
    ensures o[p] <= Last(c) && Height(st.routines[o[p]]) > p.h && Ancestor(o[p], p.h) == p.k
    ensures p.h > 0 ==>
              var e := Pos(p.h - 1, Ancestor(o[p], p.h - 1));
              && e in o && o[e] == o[p] && e.k <= Ancestor(Last(c), e.h)
              && (e.k == 2 * p.k || e.k == 2 * p.k + 1)
  {
    hide Last, MainOk, Covers, NodeInv, RoutineOk;
    if p.h > 0 { AncestorMono(o[p], Last(c), p.h - 1); }
  }

  /** The value of a node is carried on only once. */
  lemma NotLeftYet(c: Job, b: map<Pos, Node>, st: State, o: Owner, j: nat)
    requires Inv(c, b, st, o) && WellFormed(c, st) && j <= Last(c)
    requires st.routines[j].Active? && st.routines[j].pc in {EmitLeaf, Emit}
    ensures st.routines[j].at !in o
  {
    hide Out, Segment, Last, FlagsOk, Inv;
    Here(c, b, st, o, j);
    var at := st.routines[j].at;
    if at in o { OwnerFacts(c, b, st, o, at); }
  }

  predicate Moves(c: Job, st: State, st': State, j: nat) {
    && WellFormed(c, st) && WellFormed(c, st') && j <= Last(c)
    && st.routines[j].Active? && st.routines[j].pc in {EmitLeaf, Emit}
    && st.routines[j].at.k == Ancestor(j, st.routines[j].at.h)
    && st' == st.(routines := st.routines[j := st'.routines[j]])
    && st'.routines[j].Active? && st'.routines[j].at == Parent(st.routines[j].at) && st'.routines[j].pc == Store
    && (st.routines[j].pc == EmitLeaf ==> st.routines[j].at.h == 0)
  }

  lemma MoveEdge(c: Job, st: State, st': State, o: Owner, j: nat, e: Pos)
    requires Moves(c, st, st', j) && OwnerOk(c, st, o) && st.routines[j].at !in o
    ensures var o' := o[st.routines[j].at := j];
            && Done(st', o', e) == Done(st, o, e) && Written(st', o', e) == Written(st, o, e)
            && Stopped(st', o', e) == Stopped(st, o, e)
  {
    hide Last;
  }

  lemma MoveNode(c: Job, b: map<Pos, Node>, st: State, st': State, o: Owner, j: nat, h: nat, k: nat)
    requires Moves(c, st, st', j) && OwnerOk(c, st, o) && st.routines[j].at !in o
    requires NodeInv(c, b, st, o, h, k)
    requires RoutineOk(c, st.main, j, st.routines[j])
    ensures NodeInv(c, b, st', o[st.routines[j].at := j], h, k)
  {
    hide Out, Segment, Last, OwnerOk;
    var o' := o[st.routines[j].at := j];
    if h > 0 {
      MoveEdge(c, st, st', o, j, Pos(h - 1, 2 * k));
      MoveEdge(c, st, st', o, j, Pos(h - 1, 2 * k + 1));
    }
    if Pos(h, k) == st.routines[j].at && h > 0 {
      assert OwnerOk(c, st, o);
      LeavesComplete(c, b, st, o, j);
    }
    assert FlagsOk(c, st', h, k);
  }

  /** A goroutine about to leave a node finds both of its children done. */
  lemma LeavesComplete(c: Job, b: map<Pos, Node>, st: State, o: Owner, j: nat)
    requires WellFormed(c, st) && OwnerOk(c, st, o) && j <= Last(c)
    requires st.routines[j].Active? && st.routines[j].pc == Emit && st.routines[j].at.h > 0
    requires RoutineOk(c, st.main, j, st.routines[j])
    requires NodeInv(c, b, st, o, st.routines[j].at.h, st.routines[j].at.k)
    ensures var at := st.routines[j].at;
            if Balanced(c, at.h, at.k) then Done(st, o, Pos(at.h - 1, 2 * at.k)) && Done(st, o, Pos(at.h - 1, 2 * at.k + 1))
            else Pos(at.h - 1, 2 * at.k) in o
  {
    hide Out, Segment, Last, FlagsOk;
    var at := st.routines[j].at;
    var e := Pos(at.h - 1, Ancestor(j, at.h - 1));
    assert e in o && o[e] == j;
    assert e.k == 2 * at.k || e.k == 2 * at.k + 1;
  }

  lemma MoveOwner(c: Job, st: State, st': State, o: Owner, j: nat)
    requires Moves(c, st, st', j) && OwnerOk(c, st, o) && st.routines[j].at !in o
    ensures OwnerOk(c, st', o[st.routines[j].at := j])
  {
    hide Last;
    var o' := o[st.routines[j].at := j];
    forall i: nat, h: nat | i <= Last(c) && h < Height(st'.routines[i])
      ensures Pos(h, Ancestor(i, h)) in o' && o'[Pos(h, Ancestor(i, h))] == i
    {
      if i != j || h < st.routines[j].at.h { assert Pos(h, Ancestor(i, h)) in o; }
    }
  }

  lemma MoveInv(c: Job, b: map<Pos, Node>, st: State, st': State, o: Owner, j: nat)
    requires Inv(c, b, st, o) && Moves(c, st, st', j) && st.routines[j].at !in o
    requires RoutineOk(c, st'.main, j, st'.routines[j])
    ensures Inv(c, b, st', o[st.routines[j].at := j])
  {
    hide RoutineOk, NodeInv, MainOk, Covers, Last;
    assert RoutineOk(c, st.main, j, st.routines[j]);
    MoveOwner(c, st, st', o, j);
    forall h: nat, k: nat | Pos(h, k) in b ensures NodeInv(c, b, st', o[st.routines[j].at := j], h, k) {
      assert NodeInv(c, b, st, o, h, k);
      MoveNode(c, b, st, st', o, j, h, k);
    }
  }

  lemma MoveKeeps(c: Job, b: map<Pos, Node>, st: State, o: Owner, j: nat)
    requires Inv(c, b, st, o) && WellFormed(c, st) && RoutineEnabled(c, st, j)
    requires st.routines[j].pc in {EmitLeaf, Emit} && !st.nodes[st.routines[j].at].root
    ensures Inv(c, b, RoutineStep(c, st, j), o[st.routines[j].at := j])
  {
    hide Out, Segment, Last, NodeInv, Inv;
    Here(c, b, st, o, j);
    NotLeftYet(c, b, st, o, j);
    RootIsTop(c, b, st, o, j);
    MoveInv(c, b, st, RoutineStep(c, st, j), o, j);
  }

  // ----- Main thread steps keep the invariant -----

  predicate Launches(c: Job, st: State, st': State, j: nat) {
    && WellFormed(c, st) && WellFormed(c, st') && j <= Last(c) && st.routines[j].Idle?
    && st'.nodes == st.nodes && st'.routines == st.routines[j := st'.routines[j]]
    && st'.routines[j].Active? && st'.routines[j].at.h == 0 && st'.routines[j].pc in {HashLeaf, Store}
    && ((st.main.Writing? && st'.main == Writing(j + 1) && j == st.main.next && j < Last(c))
        || (st.main.Launching? && st'.main.Receiving? && j == Last(c)))
  }

  lemma LaunchNode(c: Job, b: map<Pos, Node>, st: State, st': State, o: Owner, j: nat, h: nat, k: nat)
    requires Launches(c, st, st', j) && OwnerOk(c, st, o) && NodeInv(c, b, st, o, h, k)
    ensures NodeInv(c, b, st', o, h, k)
  {
    hide Out, Segment, Last, Below, Balanced;
    assert forall e :: e in o ==> o[e] != j;
  }

  /** Launching a goroutine changes no node. */
  lemma LaunchInv(c: Job, b: map<Pos, Node>, st: State, st': State, o: Owner, j: nat)
    requires Inv(c, b, st, o) && Launches(c, st, st', j) && RoutineOk(c, st'.main, j, st'.routines[j])
    requires MainOk(c, st'.main)
    ensures Inv(c, b, st', o)
  {
    hide Out, Segment, Last, Covers, NodeInv, Below, Balanced, MainOk;
    forall h: nat, k: nat | Pos(h, k) in b ensures NodeInv(c, b, st', o, h, k) {
      assert NodeInv(c, b, st, o, h, k);
      LaunchNode(c, b, st, st', o, j, h, k);
    }
  }

  lemma FullSegment(c: Job, j: nat)
    requires c.size > 0 && j < Last(c)
    ensures |Segment(c, j)| == 2 * c.size
  {
    SegmentBounds(c.size, c.data, j);
  }

  lemma LaunchKeeps(c: Job, b: map<Pos, Node>, st: State, o: Owner)
    requires Inv(c, b, st, o) && WellFormed(c, st) && MainEnabled(c, st)
    requires st.main.Launching? || (st.main.Writing? && st.main.next < Last(c))
    ensures Inv(c, b, MainStep(c, st), o)
  {
    hide Last, Segment, NodeInv, OwnerOk, Covers;
    var j := if st.main.Launching? then Last(c) else st.main.next;
    assert RoutineOk(c, st.main, j, st.routines[j]);
    assert Ancestor(j, 0) == j && Ancestor(Last(c), 0) == Last(c);
    if j < Last(c) { FullSegment(c, j); }
    LaunchInv(c, b, st, MainStep(c, st), o, j);
  }

  lemma SumKeeps(c: Job, b: map<Pos, Node>, st: State, o: Owner)
    requires Inv(c, b, st, o) && WellFormed(c, st) && MainEnabled(c, st)
    requires st.main.Writing? && st.main.next == Last(c)
    ensures Inv(c, b, MainStep(c, st), o)
  {
    hide Last, Segment, OwnerOk, Covers, Out, NodeOk;
    var st' := MainStep(c, st);
    assert Ancestor(Last(c), 0) == Last(c);
    assert Ancestor(Last(c), 1) == Last(c) / 2;
    forall h: nat, k: nat | Pos(h, k) in b ensures NodeInv(c, b, st', o, h, k) {
      assert NodeInv(c, b, st, o, h, k);
      NodeMain(c, b, st, st', o, h, k);
    }
    OwnerMain(c, st, st', o);
  }

  lemma NodeMain(c: Job, b: map<Pos, Node>, st: State, st': State, o: Owner, h: nat, k: nat)
    requires c.size > 0 && st' == st.(main := st'.main) && NodeInv(c, b, st, o, h, k)
    requires Finalised(c, st.main, h, k) == Finalised(c, st'.main, h, k)
    ensures NodeInv(c, b, st', o, h, k)
  {
    hide Out, Last, Segment, Finalised;
  }

  lemma OwnerMain(c: Job, st: State, st': State, o: Owner)
    requires WellFormed(c, st) && WellFormed(c, st') && st'.routines == st.routines && OwnerOk(c, st, o)
    ensures OwnerOk(c, st', o)
  {}

  /** One visit of finalise sets the flags of one node and no other. */
  lemma FinaliseFlags(c: Job, main: Main, main': Main, h: nat, k: nat)
    requires c.size > 0 && main.Finalising? && MainOk(c, main)
    requires if main.at.k == 0 then main'.Launching? else main'.Finalising? && main'.at == Parent(main.at)
    ensures Finalised(c, main', h, k) == (Finalised(c, main, h, k) || Pos(h, k) == main.at)
    ensures !Finalised(c, main, main.at.h, main.at.k)
  {
    hide Last, StartHeight, Balanced;
    if main.at.k == 0 && Below(c, h) && h > main.at.h { AncestorZero(Last(c), main.at.h, h - 1); }
  }

  lemma FinaliseNode(c: Job, b: map<Pos, Node>, st: State, o: Owner, h: nat, k: nat)
    requires WellFormed(c, st) && MainEnabled(c, st) && st.main.Finalising? && MainOk(c, st.main)
    requires NodeInv(c, b, st, o, h, k)
    requires st.main.at.h > 0 ==> Pos(st.main.at.h - 1, Ancestor(Last(c), st.main.at.h - 1)) !in o
    ensures NodeInv(c, b, MainStep(c, st), o, h, k)
  {
    hide Out, Last, Segment, Finalised, StartHeight;
    FinaliseFlags(c, st.main, MainStep(c, st).main, h, k);
  }

  lemma FinaliseKeeps(c: Job, b: map<Pos, Node>, st: State, o: Owner)
    requires Inv(c, b, st, o) && WellFormed(c, st) && MainEnabled(c, st) && st.main.Finalising?
    ensures Inv(c, b, MainStep(c, st), o)
  {
    hide Last, Segment, OwnerOk, Covers, Out, NodeInv, StartHeight;
    var st', at := MainStep(c, st), st.main.at;
    if Last(c) == 0 { AncestorZero(Last(c), 0, at.h); }
    if at.h > 0 && Pos(at.h - 1, Ancestor(Last(c), at.h - 1)) in o {
      BelowDown(c, at.h);
      LastIsLaunched(c, b, st, o, at.h - 1);
    }
    forall h: nat, k: nat | Pos(h, k) in b ensures NodeInv(c, b, st', o, h, k) {
      assert NodeInv(c, b, st, o, h, k);
      FinaliseNode(c, b, st, o, h, k);
    }
    OwnerMain(c, st, st', o);
  }

  // ----- Delivery -----

  /** Goroutine j is about to send the value of the node that covers the whole chunk. */
  ghost predicate AtTop(c: Job, b: map<Pos, Node>, st: State, o: Owner, j: nat) {
    && Inv(c, b, st, o) && WellFormed(c, st) && j <= Last(c)
    && st.routines[j].Active? && st.routines[j].pc in {EmitLeaf, Emit}
    && Ancestor(Last(c), st.routines[j].at.h) == 0
  }

  /** The top node has two children, and both have arrived. */
  lemma TopComplete(c: Job, b: map<Pos, Node>, st: State, o: Owner, j: nat)
    requires AtTop(c, b, st, o, j)
    ensures var h := st.routines[j].at.h;
            && st.routines[j].at.k == 0 && Below(c, h)
            && (h > 0 ==> Ancestor(Last(c), h - 1) == 1 && Balanced(c, h, 0)
                          && Done(st, o, Pos(h - 1, 0)) && Done(st, o, Pos(h - 1, 1)))
  {
    hide Out, Segment, Last, Inv, FlagsOk;
    Here(c, b, st, o, j);
  }

  /** Every node below the top has been left behind. */
  lemma {:induction false} AllLeft(c: Job, b: map<Pos, Node>, st: State, o: Owner, j: nat, h: nat, k: nat)
    requires AtTop(c, b, st, o, j) && h < st.routines[j].at.h && k <= Ancestor(Last(c), h)
    ensures Pos(h, k) in o
    decreases st.routines[j].at.h - h
  {
    hide Out, Segment, Last, Inv, FlagsOk;
    TopComplete(c, b, st, o, j);
    if h + 1 < st.routines[j].at.h {
      AllLeft(c, b, st, o, j, h + 1, k / 2);
      LeftNode(c, b, st, o, j, h + 1, k / 2);
    }
  }

  /** A node left behind has nothing outstanding. */
  lemma LeftNode(c: Job, b: map<Pos, Node>, st: State, o: Owner, j: nat, h: nat, k: nat)
    requires AtTop(c, b, st, o, j) && 0 < h < st.routines[j].at.h && k <= Ancestor(Last(c), h) && Pos(h, k) in o
    ensures Pos(h, k) in b && NodeInv(c, b, st, o, h, k)
    ensures Pos(h - 1, 2 * k) in o
    ensures Balanced(c, h, k) ==> Pos(h - 1, 2 * k + 1) in o
  {
    hide Out, Segment, Last, OwnerOk, MainOk, RoutineOk, FlagsOk;
    if Ancestor(Last(c), h - 1) == 0 {
      AncestorZero(Last(c), h - 1, st.routines[j].at.h - 1);
      TopComplete(c, b, st, o, j);
    }
    assert Used(c, h, k);
    assert NodeInv(c, b, st, o, h, k);
  }

  /** Of two goroutines that met at a complete node, the one that is not past it has stopped there. */
  lemma LoserStopped(c: Job, b: map<Pos, Node>, st: State, o: Owner, i: nat, g: nat)
    requires Inv(c, b, st, o) && WellFormed(c, st) && i <= Last(c) && g <= Last(c) && i != g
    requires st.routines[i].Active? && st.routines[i].at.h > 0
    requires Height(st.routines[g]) >= st.routines[i].at.h && !StoppedAt(st.routines[g], st.routines[i].at.h)
    requires Ancestor(g, st.routines[i].at.h) == st.routines[i].at.k
    ensures var at := st.routines[i].at;
            !(Balanced(c, at.h, at.k) && Done(st, o, Pos(at.h - 1, 2 * at.k)) && Done(st, o, Pos(at.h - 1, 2 * at.k + 1)))
  {
    hide Out, Segment, Last, MainOk, FlagsOk, RoutineOk;
    Here(c, b, st, o, i);
    var at := st.routines[i].at;
    var e := Pos(at.h - 1, Ancestor(g, at.h - 1));
    assert e in o && o[e] == g;
    assert e.k == 2 * at.k || e.k == 2 * at.k + 1;
  }

  /** When the result is sent, no other goroutine is still running. */
  lemma EveryoneWaits(c: Job, b: map<Pos, Node>, st: State, o: Owner, j: nat, i: nat)
    requires AtTop(c, b, st, o, j) && i <= Last(c) && i != j
    ensures st.routines[i].Waiting?
  {
    hide Out, Segment, Last, Inv, NodeInv, MainOk;
    TopComplete(c, b, st, o, j);
    var top := st.routines[j].at;
    assert Ancestor(Last(c), 0) == Last(c) && Ancestor(i, 0) == i;
    AllLeft(c, b, st, o, j, 0, i);
    OwnerFacts(c, b, st, o, Pos(0, i));
    var r := st.routines[i];
    if r.Active? {
      Here(c, b, st, o, i);
      Here(c, b, st, o, j);
      if r.at.h > top.h {
        AncestorZero(Last(c), top.h, r.at.h - 1);
        assert false;
      }
      if r.at.h == top.h {
        LoserStopped(c, b, st, o, i, j);
      } else {
        AllLeft(c, b, st, o, j, r.at.h, r.at.k);
        OwnerFacts(c, b, st, o, r.at);
        LeftBalanced(c, b, st, o, j, i);
        LoserStopped(c, b, st, o, i, o[r.at]);
      }
    }
  }

  lemma LeftBalanced(c: Job, b: map<Pos, Node>, st: State, o: Owner, j: nat, i: nat)
    requires AtTop(c, b, st, o, j) && i <= Last(c) && st.routines[i].Active?
    requires 0 < st.routines[i].at.h < st.routines[j].at.h && st.routines[i].at in o
    ensures var at := st.routines[i].at;
            Balanced(c, at.h, at.k) && Done(st, o, Pos(at.h - 1, 2 * at.k)) && Done(st, o, Pos(at.h - 1, 2 * at.k + 1))
  {
    hide Out, Segment, Last, Inv, FlagsOk;
    Here(c, b, st, o, i);
    OwnerFacts(c, b, st, o, st.routines[i].at);
  }

  /** Toggles come in pairs. */
  lemma StateSettled(c: Job, b: map<Pos, Node>, st: State, o: Owner, j: nat, h: nat, k: nat)
    requires AtTop(c, b, st, o, j) && Pos(h, k) in b
    ensures Pos(h, k) in st.nodes
    ensures st.nodes[Pos(h, k)].state in {b[Pos(h, k)].state, AddOne(AddOne(b[Pos(h, k)].state))}
  {
    hide Out, Segment, Last, OwnerOk, MainOk, RoutineOk, FlagsOk;
    assert NodeInv(c, b, st, o, h, k);
    var top := st.routines[j].at;
    TopComplete(c, b, st, o, j);
    if h > 0 && k <= Ancestor(Last(c), h) && Balanced(c, h, k) {
      if h > top.h {
        AncestorZero(Last(c), top.h, h - 1);
        assert false;
      }
      if h < top.h { AllLeft(c, b, st, o, j, h, k); }
    }
  }

  // ----- After delivery -----

  /** What the hash of the chunk has to be, by the tree of the hasher's own depth. */
  function Expected(c: Job): Bytes {
    if |c.data| <= c.size then c.H(c.data) else TreeHash(c.H, c.size, c.depth, c.data)
  }

  /** Only the path of the last segment still carries marks, from height `from` upwards. */
  predicate SettledNode(c: Job, b: map<Pos, Node>, nodes: map<Pos, Node>, from: nat, p: Pos)
    requires c.size > 0
  {
    && p in nodes && CleanNode(c.depth, b, p)
    && nodes[p].state in {b[p].state, AddOne(AddOne(b[p].state))}
    && (p.h == c.depth ==> nodes[p].root)
    && (p.k != Ancestor(Last(c), p.h) || p.h < from ==> !nodes[p].unbalanced && nodes[p].root == (p.h == c.depth))
  }

  ghost predicate AllSettled(c: Job, b: map<Pos, Node>, nodes: map<Pos, Node>, from: nat)
    requires c.size > 0
  {
    forall p {:trigger SettledNode(c, b, nodes, from, p)} | p in b :: SettledNode(c, b, nodes, from, p)
  }

  ghost predicate Settled(c: Job, b: map<Pos, Node>, st: State) {
    && Fits(c) && WellFormed(c, st) && st.nodes.Keys == b.Keys
    && (forall j | 0 <= j <= Last(c) :: st.routines[j].Waiting? || st.routines[j].Sent?)
    && match st.main
       case Releasing(at, result) =>
         && result == Expected(c) && at.h <= c.depth && at.k == Ancestor(Last(c), at.h)
         && AllSettled(c, b, st.nodes, at.h)
       case Finished(result) =>
         && result == Expected(c) && AllSettled(c, b, st.nodes, c.depth + 1)
       case _ => false
  }

  lemma SendKeeps(c: Job, b: map<Pos, Node>, st: State, o: Owner, j: nat)
    requires Inv(c, b, st, o) && WellFormed(c, st) && RoutineEnabled(c, st, j)
    requires st.routines[j].pc in {EmitLeaf, Emit} && st.nodes[st.routines[j].at].root
    ensures Settled(c, b, RoutineStep(c, st, j))
  {
    hide Out, Segment, Last, OwnerOk, MainOk, NodeOk, Expected;
    var st', r := RoutineStep(c, st, j), st.routines[j];
    RootIsTop(c, b, st, o, j);
    Here(c, b, st, o, j);
    assert r.at.k == 0;
    assert r.s == Out(c, r.at.h, 0);
    TopIsExpected(c, r.at.h);
    forall i | 0 <= i <= Last(c) && i != j ensures st'.routines[i].Waiting? { EveryoneWaits(c, b, st, o, j, i); }
    forall p | p in b ensures SettledNode(c, b, st'.nodes, 0, p) {
      assert NodeInv(c, b, st, o, p.h, p.k);
      StateSettled(c, b, st, o, j, p.h, p.k);
    }
  }

  lemma ReleaseKeeps(c: Job, b: map<Pos, Node>, st: State)
    requires Settled(c, b, st) && WellFormed(c, st) && MainEnabled(c, st) && st.main.Releasing?
    ensures Settled(c, b, MainStep(c, st))
  {
    hide Last, Expected;
    var st', at := MainStep(c, st), st.main.at;
    forall p | p in b ensures SettledNode(c, b, st'.nodes, at.h + 1, p) {
      assert SettledNode(c, b, st.nodes, at.h, p);
    }
  }

  // ----- The value at the top is the reference hash -----

  function Width(c: Job, h: nat): (w: nat)
    ensures h == 0 ==> w == 2 * c.size
  {
    assert h == 0 ==> Doubled(c.size, h + 1) == 2 * Doubled(c.size, h);
    Doubled(c.size, h + 1)
  }

  lemma {:induction false} TimesTwice(k: nat, w: nat)
    ensures Times(2 * k, w) == Times(k, 2 * w)
  {
    if k > 0 {
      TimesTwice(k - 1, w);
      assert Times(2 * k, w) == Times(2 * (k - 1), w) + w + w;
    }
  }

  /** A node is above the chunk exactly when its first byte is inside it. */
  lemma {:induction false} StartsInside(c: Job, h: nat, k: nat)
    requires c.size > 0 && |c.data| > 0
    ensures k <= Ancestor(Last(c), h) <==> Times(k, Width(c, h)) < |c.data|
  {
    if h == 0 {
      var w, m := 2 * c.size, Last(c);
      LastBlockBounds(|c.data|, w);
      if k <= m { TimesMono(k, m, w); } else { TimesMono(m, k, w); }
    } else {
      StartsInside(c, h - 1, 2 * k);
      TimesTwice(k, Width(c, h - 1));
    }
  }

  /** The bytes below node (h, k). */
  function Slice(c: Job, h: nat, k: nat): Bytes
    requires c.size > 0 && Times(k, Width(c, h)) <= |c.data|
  {
    Cut(c.data, Times(k, Width(c, h)), Width(c, h))
  }

  function Cut(d: Bytes, from: nat, w: nat): Bytes
    requires from <= |d|
  {
    if from + w <= |d| then d[from..from + w] else d[from..]
  }

  lemma CutHalves(d: Bytes, from: nat, half: nat)
    requires 0 < half && from + half < |d|
    ensures var all := Cut(d, from, 2 * half);
            && half < |all|
            && all[..half] == Cut(d, from, half) && all[half..] == Cut(d, from + half, half)
  {}

  lemma HalfSlices(c: Job, h: nat, k: nat)
    requires c.size > 0 && h > 0 && k <= Ancestor(Last(c), h) && |c.data| > 0
    ensures Times(k, Width(c, h)) < |c.data|
    ensures Times(2 * k, Width(c, h - 1)) < |c.data|
    ensures var d, half := Slice(c, h, k), Doubled(c.size, h);
            if Balanced(c, h, k) then
              && Times(2 * k + 1, Width(c, h - 1)) < |c.data| && half < |d|
              && d[..half] == Slice(c, h - 1, 2 * k) && d[half..] == Slice(c, h - 1, 2 * k + 1)
            else
              |d| <= half && d == Slice(c, h - 1, 2 * k)
  {
    StartsInside(c, h, k);
    StartsInside(c, h - 1, 2 * k);
    StartsInside(c, h - 1, 2 * k + 1);
    TimesTwice(k, Width(c, h - 1));
    hide Last, Ancestor;
    var half := Width(c, h - 1);
    assert Width(c, h) == 2 * half;
    assert Times(2 * k + 1, half) == Times(2 * k, half) + half;
    if Balanced(c, h, k) { CutHalves(c.data, Times(2 * k, half), half); }
  }

  lemma {:induction false} OutIsTreeHash(c: Job, h: nat, k: nat)
    requires c.size > 0 && Last(c) > 0 && k <= Ancestor(Last(c), h)
    ensures Times(k, Width(c, h)) <= |c.data|
    ensures Out(c, h, k) == TreeHash(c.H, c.size, h, Slice(c, h, k))
    decreases h
  {
    hide Slice, Last, Times, Segment, Width;
    LongChunk(c);
    if h == 0 {
      SegmentIsSlice(c, k);
    } else {
      HalfSlices(c, h, k);
      OutIsTreeHash(c, h - 1, 2 * k);
      if Balanced(c, h, k) { OutIsTreeHash(c, h - 1, 2 * k + 1); }
    }
  }

  lemma SegmentIsSlice(c: Job, k: nat)
    requires c.size > 0 && |c.data| > 0 && k <= Last(c)
    ensures Times(k, Width(c, 0)) <= |c.data| && Segment(c, k) == Slice(c, 0, k)
  {
    StartsInside(c, 0, k);
    SegmentBounds(c.size, c.data, k);
    LastBlockBounds(|c.data|, 2 * c.size);
  }

  lemma {:induction false} TallerTree(H: BaseHash, size: nat, h: nat, g: nat, d: Bytes)
    requires h <= g && |d| <= Doubled(size, h + 1)
    ensures TreeHash(H, size, g, d) == TreeHash(H, size, h, d)
    decreases g
  {
    if h < g {
      DoubledMono(size, h + 1, g);
      TallerTree(H, size, h, g - 1, d);
    }
  }

  /** The chunk lies below a node of height h when the last segment does. */
  lemma ChunkBelow(c: Job, h: nat)
    requires c.size > 0 && Ancestor(Last(c), h) == 0
    ensures |c.data| <= Doubled(c.size, h + 1)
  {
    if |c.data| > 0 {
      StartsInside(c, h, 1);
      assert Times(1, Width(c, h)) == Times(0, Width(c, h)) + Width(c, h);
    }
  }

  lemma TopOfOneSegment(c: Job, h: nat)
    requires c.size > 0 && Last(c) == 0 && Below(c, h)
    ensures h == 0 && Out(c, h, 0) == c.H(c.data)
  {
    if h > 0 {
      AncestorZero(0, 0, h - 1);
      assert false;
    }
    OnlySegment(c);
    hide Last, Segment;
    assert Out(c, 0, 0) == c.H(Segment(c, 0));
  }

  lemma OnlySegment(c: Job)
    requires c.size > 0 && Last(c) == 0
    ensures Segment(c, 0) == c.data
  {
    assert Times(0, 2 * c.size) == 0;
  }

  lemma WholeSlice(c: Job, h: nat)
    requires c.size > 0 && |c.data| <= Width(c, h)
    ensures Times(0, Width(c, h)) == 0 && Slice(c, h, 0) == c.data
  {}

  lemma TopIsExpected(c: Job, h: nat)
    requires Fits(c) && Below(c, h) && Ancestor(Last(c), h) == 0
    ensures Out(c, h, 0) == Expected(c)
  {
    hide Out, Last, Slice, Segment;
    ChunkBelow(c, h);
    if h > c.depth {
      AncestorZero(Last(c), c.depth, h - 1);
      assert false;
    }
    TallerTree(c.H, c.size, h, c.depth, c.data);
    if Last(c) == 0 {
      TopOfOneSegment(c, h);
    } else {
      LongChunk(c);
      OutIsTreeHash(c, h, 0);
      WholeSlice(c, h);
    }
  }

  lemma LongChunk(c: Job)
    requires c.size > 0 && Last(c) > 0
    ensures |c.data| > c.size
  {}

  lemma {:induction false} HalvingsReachZero(l: nat)
    ensures Ancestor(l, Halvings(l)) == 0
  {
    if l > 0 {
      HalvingsReachZero(l / 2);
      AncestorShift(l, Halvings(l / 2));
    }
  }

  lemma {:induction false} AncestorShift(j: nat, h: nat)
    ensures Ancestor(j, h + 1) == Ancestor(j / 2, h)
  {
    if h > 0 { AncestorShift(j, h - 1); }
  }

  /** The job Hasher works on after one Write of b. */
  function WrittenJob(H: BaseHash, size: nat, count: nat, b: Bytes): Job
    requires count > 0
  {
    Job(H, size, Depth(count), Truncate(b, size * count))
  }

  lemma LastWithinCount(size: nat, count: nat, l: nat)
    requires size > 0 && count > 0 && l <= size * count
    ensures LastBlock(l, 2 * size) <= (count - 1) / 2
  {
    var q, m := (count - 1) / 2, LastBlock(l, 2 * size);
    MulMono(count, 2 * (q + 1), size);
    assert size * (2 * (q + 1)) == (q + 1) * (2 * size);
    TimesIsMul(q + 1, 2 * size);
    if m > q {
      LastBlockBounds(l, 2 * size);
      TimesMono(q + 1, m, 2 * size);
    }
  }

  lemma TreeFits(H: BaseHash, size: nat, count: nat, b: Bytes)
    requires size > 0 && count > 0
    ensures Fits(WrittenJob(H, size, count, b))
  {
    hide Ancestor, LastBlock, Halvings;
    var c := WrittenJob(H, size, count, b);
    LastWithinCount(size, count, |c.data|);
    HalvingsReachZero((count - 1) / 2);
    AncestorMono(Last(c), (count - 1) / 2, c.depth);
  }

  lemma SpanCovers(size: nat, count: nat, e: nat)
    requires count <= 2 * Pow2(e)
    ensures size * count <= Doubled(size, e + 1)
  {
    DoubledIsPow2(size, e + 1);
    MulMono(count, Pow2(e + 1), size);
  }

  /** The expected value is the reference hasher's. */
  lemma ExpectedIsReference(H: BaseHash, size: nat, count: nat, b: Bytes)
    requires size > 0 && count > 0
    ensures Expected(WrittenJob(H, size, count, b)) == Reference(H, size, count, b)
  {
    hide Last, Ancestor, RefHash, TreeHash, Depth;
    var c := WrittenJob(H, size, count, b);
    TreeFits(H, size, count, b);
    ChunkBelow(c, c.depth);
    var e := SpanIsPow2(count);
    DoubledIsPow2(size, e);
    SpanCovers(size, count, e);
    if |c.data| <= size {
      RefShort(H, size, c.data, Doubled(size, e));
    } else {
      RefIsTreeHash(H, size, c.depth, e, c.data);
    }
  }
}
