/**
 The main results about the BMT hasher, over whole runs: a run that ends has
 delivered the reference hash and left the tree clean, no run can get stuck
 before that, and no run goes on for ever.
 */
module BmtTheorems {
  import opened BmtReference
  import opened BmtHasher
  import opened BmtRefinement

  /** The hasher right after Reset, with a tree from the pool. */
  ghost predicate Init(c: Job, b: map<Pos, Node>, st: State) {
    && Fits(c) && Clean(c.depth, b)
    && st.nodes == b && st.main == Writing(0)
    && |st.routines| == Last(c) + 1 && forall j :: 0 <= j < |st.routines| ==> st.routines[j].Idle?
  }

  ghost predicate Good(c: Job, b: map<Pos, Node>, st: State) {
    (exists o :: Inv(c, b, st, o)) || Settled(c, b, st)
  }

  /** A run: any interleaving of the main thread and the goroutines. */
  ghost predicate Run(c: Job, run: seq<State>) {
    |run| > 0 && forall i :: 0 <= i < |run| - 1 ==> Step(c, run[i], run[i + 1])
  }

  lemma InitIsGood(c: Job, b: map<Pos, Node>, st: State)
    requires Init(c, b, st)
    ensures Good(c, b, st)
  {
    hide Last, Segment;
    CleanCovers(c, b);
    forall h: nat, k: nat | Pos(h, k) in b ensures NodeInv(c, b, st, map[], h, k) {
      assert CleanNode(c.depth, b, Pos(h, k));
    }
    assert Inv(c, b, st, map[]);
  }

  lemma RoutineStepIsGood(c: Job, b: map<Pos, Node>, st: State, o: Owner, j: nat)
    requires Inv(c, b, st, o) && WellFormed(c, st) && RoutineEnabled(c, st, j)
    ensures Good(c, b, RoutineStep(c, st, j))
  {
    hide Inv, Settled;
    match st.routines[j].pc
    case HashLeaf => HashLeafKeeps(c, b, st, o, j);
    case Store => StoreKeeps(c, b, st, o, j);
    case Test => TestKeeps(c, b, st, o, j);
    case Toggle => ToggleKeeps(c, b, st, o, j);
    case Combine => CombineKeeps(c, b, st, o, j);
    case _ =>
      if st.nodes[st.routines[j].at].root { SendKeeps(c, b, st, o, j); } else { MoveKeeps(c, b, st, o, j); }
  }

  lemma MainStepIsGood(c: Job, b: map<Pos, Node>, st: State, o: Owner)
    requires Inv(c, b, st, o) && WellFormed(c, st) && MainEnabled(c, st)
    ensures Good(c, b, MainStep(c, st))
  {
    hide Settled, NodeInv, OwnerOk, RoutineOk, Last;
    match st.main
    case Writing(next) => if next < Last(c) { LaunchKeeps(c, b, st, o); } else { SumKeeps(c, b, st, o); }
    case Finalising(_, _, _) => FinaliseKeeps(c, b, st, o);
    case Launching(_) => LaunchKeeps(c, b, st, o);
  }

  lemma StepIsGood(c: Job, b: map<Pos, Node>, st: State, st': State)
    requires Good(c, b, st) && Step(c, st, st')
    ensures Good(c, b, st')
  {
    hide Inv;
    if o :| Inv(c, b, st, o) {
      if MainEnabled(c, st) && st' == MainStep(c, st) {
        MainStepIsGood(c, b, st, o);
      } else {
        var j :| RoutineEnabled(c, st, j) && st' == RoutineStep(c, st, j);
        RoutineStepIsGood(c, b, st, o, j);
      }
    } else {
      ReleaseKeeps(c, b, st);
    }
  }

  lemma {:induction false} RunIsGood(c: Job, b: map<Pos, Node>, run: seq<State>, n: nat)
    requires Run(c, run) && Init(c, b, run[0]) && n < |run|
    ensures Good(c, b, run[n])
  {
    hide Good, Step;
    if n == 0 {
      InitIsGood(c, b, run[0]);
    } else {
      RunIsGood(c, b, run, n - 1);
      StepIsGood(c, b, run[n - 1], run[n]);
    }
  }

  /** The counter of a node after a chunk: untouched, or toggled exactly twice. */
  predicate Reusable(depth: nat, p: Pos, before: Node, after: Node) {
    && after.state in {before.state, AddOne(AddOne(before.state))}
    && !after.unbalanced && after.root == (p.h == depth)
  }

  lemma StillWorking(c: Job, b: map<Pos, Node>, st: State, o: Owner)
    requires Inv(c, b, st, o)
    ensures !st.main.Finished?
  {}

  lemma NotAboveRoot(depth: nat, b: map<Pos, Node>, p: Pos)
    requires Clean(depth, b) && p in b
    ensures p.h <= depth
  {
    assert InTree(depth, p) <==> p in b;
  }

  lemma SettledIsReusable(c: Job, b: map<Pos, Node>, nodes: map<Pos, Node>, from: nat, p: Pos)
    requires c.size > 0 && AllSettled(c, b, nodes, from) && p in b && p.h <= c.depth < from
    ensures p in nodes && Reusable(c.depth, p, b[p], nodes[p])
  {
    hide Last;
    assert SettledNode(c, b, nodes, from, p);
  }

  /**
   Whatever the interleaving, when Sum has its result it is the reference hash
   of everything passed to Write, no goroutine is left running, and every node
   can be used again.
   */
  lemma HasherRefinesReference(H: BaseHash, size: nat, count: nat, data: Bytes, b: map<Pos, Node>, run: seq<State>)
    requires size > 0 && count > 0
    requires var c := WrittenJob(H, size, count, data);
             Run(c, run) && Init(c, b, run[0]) && run[|run| - 1].main.Finished?
    ensures var st := run[|run| - 1];
            && st.main.result == Reference(H, size, count, data)
            && (|data| <= size * count ==> st.main.result == RefHash(H, size, data, Span(count) * size))
            && (|data| >= size * count ==> st.main.result == RefHash(H, size, data[..size * count], Span(count) * size))
            && (forall j :: 0 <= j < |st.routines| ==> st.routines[j].Waiting? || st.routines[j].Sent?)
            && st.nodes.Keys == b.Keys
            && (forall p :: p in b ==> Reusable(Depth(count), p, b[p], st.nodes[p]))
  {
    hide Step, Last, Clean, AllSettled, Reusable, RefHash, Span;
    WholeChunk(data, size * count);
    var c := WrittenJob(H, size, count, data);
    var st := run[|run| - 1];
    RunIsGood(c, b, run, |run| - 1);
    if o :| Inv(c, b, st, o) { StillWorking(c, b, st, o); }
    ExpectedIsReference(H, size, count, data);
    forall p | p in b ensures Reusable(Depth(count), p, b[p], st.nodes[p]) {
      NotAboveRoot(c.depth, b, p);
      SettledIsReusable(c, b, st.nodes, c.depth + 1, p);
    }
  }

  // ----- Reuse of one tree -----

  ghost predicate UsedAtMost(b: map<Pos, Node>, n: nat) {
    forall p | p in b :: b[p].state <= 2 * n
  }

  /** What NewTree returns is clean and has hashed nothing. */
  lemma NewTreeIsClean(depth: nat, nodes: map<Pos, Node>)
    requires forall p :: p in nodes <==> InTree(depth, p)
    requires forall p :: p in nodes ==> nodes[p] == Node([], [], 0, false, p.h == depth)
    ensures Clean(depth, nodes) && UsedAtMost(nodes, 0)
  {
    forall p | p in nodes ensures CleanNode(depth, nodes, p) {
      assert nodes[p].state == 0;
    }
  }

  /** A tree that has hashed n chunks is clean after the next one, as long as the int32 counters last. */
  lemma StaysClean(depth: nat, b: map<Pos, Node>, b': map<Pos, Node>, n: nat)
    requires Clean(depth, b) && UsedAtMost(b, n) && 2 * n + 2 < MAX_INT32
    requires b'.Keys == b.Keys && forall p :: p in b ==> Reusable(depth, p, b[p], b'[p])
    ensures Clean(depth, b') && UsedAtMost(b', n + 1)
  {
    forall p | p in b' ensures CleanNode(depth, b', p) && b'[p].state <= 2 * (n + 1) {
      assert CleanNode(depth, b, p);
      assert Reusable(depth, p, b[p], b'[p]);
    }
  }

  /**
   The toggle tells the first arrival from the second exactly while the counter
   is not negative: past 2^31 - 1 it wraps, and Go's remainder of a negative odd
   number is -1, so that neither arrival waits.
   */
  lemma ToggleTellsArrivals(x: int)
    requires -MAX_INT32 - 1 <= x <= MAX_INT32 && x % 2 == 0
    ensures (ToggleWaits(x) && !ToggleWaits(AddOne(x))) <==> x >= 0
  {}

  lemma CounterWrapsAround()
    ensures AddOne(AddOne(MAX_INT32 - 1)) == -MAX_INT32 - 1
    ensures !ToggleWaits(-MAX_INT32 - 1) && !ToggleWaits(-MAX_INT32)
  {}

  // ----- No run gets stuck -----

  /** If nobody below a node is running, somebody has already left it. */
  lemma {:induction false} SomeoneLeft(c: Job, b: map<Pos, Node>, st: State, o: Owner, h: nat, k: nat)
    requires Inv(c, b, st, o) && WellFormed(c, st) && Used(c, h, k)
    requires forall j :: 0 <= j <= Last(c) ==> st.routines[j].Waiting?
    ensures Pos(h, k) in o
  {
    hide Inv, Out, Last, FlagsOk, Segment;
    if h == 0 {
      Stopped0(c, b, st, o, k);
    } else {
      BelowDown(c, h);
      SomeoneLeft(c, b, st, o, h - 1, 2 * k);
      OwnerFacts(c, b, st, o, Pos(h - 1, 2 * k));
      WaitsAbove(c, b, st, o, o[Pos(h - 1, 2 * k)], h);
      NodeAt(c, b, st, o, h, k);
      if Balanced(c, h, k) {
        SomeoneLeft(c, b, st, o, h - 1, 2 * k + 1);
        OwnerFacts(c, b, st, o, Pos(h - 1, 2 * k + 1));
        WaitsAbove(c, b, st, o, o[Pos(h - 1, 2 * k + 1)], h);
      }
    }
  }

  lemma Stopped0(c: Job, b: map<Pos, Node>, st: State, o: Owner, k: nat)
    requires Inv(c, b, st, o) && k <= Last(c) && st.routines[k].Waiting?
    ensures Pos(0, k) in o
  {
    hide Last, NodeInv, MainOk, Covers;
    assert RoutineOk(c, st.main, k, st.routines[k]);
    assert Pos(0, Ancestor(k, 0)) in o;
  }

  lemma NodeAt(c: Job, b: map<Pos, Node>, st: State, o: Owner, h: nat, k: nat)
    requires Inv(c, b, st, o) && Used(c, h, k)
    ensures NodeInv(c, b, st, o, h, k)
  {
    hide Last, NodeInv, MainOk, OwnerOk, RoutineOk;
  }

  /** A goroutine waits at a node with two children, and it owns the edges below it. */
  lemma WaitsAbove(c: Job, b: map<Pos, Node>, st: State, o: Owner, j: nat, h: nat)
    requires Inv(c, b, st, o) && WellFormed(c, st) && j <= Last(c) && st.routines[j].Waiting?
    ensures var at := st.routines[j].at;
            && Below(c, at.h) && Balanced(c, at.h, at.k) && at.k == Ancestor(j, at.h)
            && (h < at.h ==> Pos(h, Ancestor(j, h)) in o)
  {
    hide Last, NodeInv, MainOk, Covers;
    assert RoutineOk(c, st.main, j, st.routines[j]);
  }

  lemma AwakeIsActive(c: Job, b: map<Pos, Node>, st: State, o: Owner, j: nat)
    requires Inv(c, b, st, o) && WellFormed(c, st) && st.main.Receiving? && j <= Last(c) && !st.routines[j].Waiting?
    ensures st.routines[j].Active?
  {
    hide Last, NodeInv, MainOk, Covers, OwnerOk;
    assert RoutineOk(c, st.main, j, st.routines[j]);
  }

  lemma TopOf(c: Job, h: nat) returns (top: nat)
    requires Fits(c) && h <= c.depth && Below(c, h)
    ensures Below(c, top) && Ancestor(Last(c), top) == 0
    decreases c.depth - h
  {
    if Ancestor(Last(c), h) == 0 { top := h; } else { top := TopOf(c, h + 1); }
  }

  lemma SomeoneRuns(c: Job, b: map<Pos, Node>, st: State, o: Owner) returns (j: nat)
    requires Inv(c, b, st, o) && WellFormed(c, st) && st.main.Receiving?
    ensures j <= Last(c) && st.routines[j].Active? && st.routines[j].at in st.nodes
  {
    hide Inv, NodeInv, Last;
    FitsOfInv(c, b, st, o);
    var top := TopOf(c, 0);
    if forall i :: 0 <= i <= Last(c) ==> st.routines[i].Waiting? {
      SomeoneLeft(c, b, st, o, top, 0);
      OwnerFacts(c, b, st, o, Pos(top, 0));
      var g := o[Pos(top, 0)];
      WaitsAbove(c, b, st, o, g, top);
      AncestorZero(Last(c), top, st.routines[g].at.h - 1);
      assert false;
    } else {
      j :| 0 <= j <= Last(c) && !st.routines[j].Waiting?;
      AwakeIsActive(c, b, st, o, j);
      Here(c, b, st, o, j);
    }
  }

  lemma MainReady(c: Job, b: map<Pos, Node>, st: State, o: Owner)
    requires Inv(c, b, st, o) && WellFormed(c, st)
    ensures MainEnabled(c, st) || st.main.Receiving?
  {
    hide Last, NodeInv, OwnerOk, RoutineOk, Segment;
    if st.main.Finalising? { assert Used(c, st.main.at.h, st.main.at.k); }
  }

  lemma ReleaseReady(c: Job, b: map<Pos, Node>, st: State)
    requires Clean(c.depth, b) && Settled(c, b, st) && st.main.Releasing?
    ensures MainEnabled(c, st)
  {
    hide Last;
    AncestorBound(Last(c), st.main.at.h, c.depth);
    assert InTree(c.depth, st.main.at);
  }

  ghost predicate CanStep(c: Job, st: State) {
    exists st' :: Step(c, st, st')
  }

  /** Until Sum has returned, some step is always possible. */
  lemma NeverStuck(c: Job, b: map<Pos, Node>, run: seq<State>)
    requires Run(c, run) && Init(c, b, run[0]) && !run[|run| - 1].main.Finished?
    ensures CanStep(c, run[|run| - 1])
  {
    hide Inv, Last, Clean;
    var st := run[|run| - 1];
    RunIsGood(c, b, run, |run| - 1);
    if o :| Inv(c, b, st, o) {
      WellFormedOfInv(c, b, st, o);
      MainReady(c, b, st, o);
      if MainEnabled(c, st) {
        assert Step(c, st, MainStep(c, st));
      } else {
        var j := SomeoneRuns(c, b, st, o);
        assert RoutineEnabled(c, st, j);
        assert Step(c, st, RoutineStep(c, st, j));
      }
    } else {
      ReleaseReady(c, b, st);
      assert Step(c, st, MainStep(c, st));
    }
  }

  lemma WellFormedOfInv(c: Job, b: map<Pos, Node>, st: State, o: Owner)
    requires Inv(c, b, st, o)
    ensures WellFormed(c, st)
  {}

  // ----- No run goes on for ever -----

  function PcRank(pc: Pc): nat {
    match pc
    case HashLeaf => 6
    case EmitLeaf => 5
    case Store => 5
    case Test => 4
    case Toggle => 3
    case Combine => 2
    case Emit => 1
  }

  function RoutineRank(depth: nat, r: Routine): nat {
    match r
    case Idle => 7 * (depth + 2)
    case Active(at, _, _, _, _, pc) => if at.h <= depth then 7 * (depth + 1 - at.h) + PcRank(pc) else 0
    case _ => 0
  }

  function RanksOf(depth: nat, rs: seq<Routine>): nat {
    if rs == [] then 0 else RoutineRank(depth, rs[0]) + RanksOf(depth, rs[1..])
  }

  function MainRank(c: Job, main: Main): nat
    requires c.size > 0
  {
    var d := c.depth;
    match main
    case Writing(next) => 2 * d + 9 + (if next <= Last(c) then Last(c) - next else 0)
    case Finalising(at, _, _) => d + 6 + if at.h <= d then d + 1 - at.h else 0
    case Launching(_) => d + 5
    case Receiving => d + 4
    case Releasing(at, _) => 1 + if at.h <= d then d + 1 - at.h else 0
    case Finished(_) => 0
  }

  function Rank(c: Job, st: State): nat
    requires c.size > 0
  {
    MainRank(c, st.main) + RanksOf(c.depth, st.routines)
  }

  lemma {:induction false} RanksUpdate(depth: nat, rs: seq<Routine>, j: nat, r: Routine)
    requires j < |rs|
    ensures RanksOf(depth, rs[j := r]) == RanksOf(depth, rs) - RoutineRank(depth, rs[j]) + RoutineRank(depth, r)
  {
    if j > 0 {
      assert rs[j := r][1..] == rs[1..][j - 1 := r];
      RanksUpdate(depth, rs[1..], j - 1, r);
    } else {
      assert rs[0 := r][1..] == rs[1..];
    }
  }

  lemma LaunchesIdle(c: Job, b: map<Pos, Node>, st: State, o: Owner)
    requires Inv(c, b, st, o) && WellFormed(c, st) && (st.main.Writing? || st.main.Launching?)
    ensures st.main.Writing? ==> st.main.next <= Last(c) && st.routines[st.main.next].Idle?
    ensures st.main.Launching? ==> st.routines[Last(c)].Idle?
  {
    hide Last, NodeInv, OwnerOk, Covers;
    var j := if st.main.Writing? then st.main.next else Last(c);
    assert RoutineOk(c, st.main, j, st.routines[j]);
  }

  lemma MainStepCosts(c: Job, b: map<Pos, Node>, st: State, o: Owner)
    requires Inv(c, b, st, o) && WellFormed(c, st) && MainEnabled(c, st)
    requires forall p :: p in st.nodes ==> p.h <= c.depth
    ensures MainStep(c, st).nodes.Keys == st.nodes.Keys && Rank(c, MainStep(c, st)) < Rank(c, st)
  {
    hide Last, RanksOf, Segment, Inv;
    if st.main.Writing? || st.main.Launching? {
      LaunchesIdle(c, b, st, o);
      var j := if st.main.Writing? then st.main.next else Last(c);
      RanksUpdate(c.depth, st.routines, j, MainStep(c, st).routines[j]);
    }
  }

  lemma RoutineStepCosts(c: Job, st: State, j: nat)
    requires WellFormed(c, st) && RoutineEnabled(c, st, j)
    requires forall p :: p in st.nodes ==> p.h <= c.depth
    ensures RoutineStep(c, st, j).nodes.Keys == st.nodes.Keys && Rank(c, RoutineStep(c, st, j)) < Rank(c, st)
  {
    hide Last, RanksOf;
    RanksUpdate(c.depth, st.routines, j, RoutineStep(c, st, j).routines[j]);
  }

  /** Every step uses up some of a fixed budget. */
  lemma StepCosts(c: Job, b: map<Pos, Node>, st: State, st': State)
    requires Good(c, b, st) && Step(c, st, st') && forall p :: p in st.nodes ==> p.h <= c.depth
    ensures st'.nodes.Keys == st.nodes.Keys && Rank(c, st') < Rank(c, st)
  {
    if MainEnabled(c, st) && st' == MainStep(c, st) {
      if o :| Inv(c, b, st, o) {
        hide Last, RanksOf, Inv, MainStep, Rank;
        MainStepCosts(c, b, st, o);
      } else {
        hide Last, RanksOf, Inv;
      }
    } else {
      hide Last, RanksOf, Inv, Settled, RoutineStep, Rank;
      var j: nat :| RoutineEnabled(c, st, j) && st' == RoutineStep(c, st, j);
      RoutineStepCosts(c, st, j);
    }
  }

  /** No run is longer than the rank of its first state. */
  lemma {:induction false} RunsEnd(c: Job, b: map<Pos, Node>, run: seq<State>, n: nat)
    requires Run(c, run) && Init(c, b, run[0]) && n < |run|
    ensures n + Rank(c, run[n]) <= Rank(c, run[0]) && run[n].nodes.Keys == run[0].nodes.Keys
  {
    hide Step, Rank, Good;
    if n > 0 {
      RunsEnd(c, b, run, n - 1);
      RunIsGood(c, b, run, n - 1);
      forall p | p in run[n - 1].nodes ensures p.h <= c.depth { assert InTree(c.depth, p); }
      StepCosts(c, b, run[n - 1], run[n]);
    }
  }
}
