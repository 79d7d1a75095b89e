/**
 The concurrent BMT hasher of bmt/bmt.go as a step system.

 A chunk is cut into double segments. The main thread launches one goroutine
 per double segment (`Write`, `writeSegment`), marks the path of the last one
 (`finalise`), launches that one too, waits for the result and cleans the path
 (`releaseTree`). Goroutines climb one shared tree; at a node with two children
 the first to arrive stops and the second goes on, told apart only by the
 node's toggle. Storing a half, testing the flag, toggling, reading the halves
 and deciding whether to send are steps of their own, and so is every node that
 `finalise` or `releaseTree` visits; a step may touch several fields of its one
 node. Runs of the system are the interleavings of these steps.

 Nodes are addressed by their height above the leaves and their index in the
 row; `Ancestor(j, h)` is the index of the node of height h above leaf j.
 */
module BmtHasher {
  import opened Basics
  import opened BmtReference

  // ----- The shared tree -----

  const MAX_INT32 := 0x7fff_ffff

  datatype Pos = Pos(h: nat, k: nat)
  datatype Node = Node(left: Bytes, right: Bytes, state: int, unbalanced: bool, root: bool)

  /** atomic.AddInt32(&state, 1) */
  function AddOne(state: int): int {
    if state == MAX_INT32 then -MAX_INT32 - 1 else state + 1
  }

  /** Go's remainder takes the sign of the dividend. */
  function GoMod2(x: int): int {
    if x >= 0 then x % 2 else -((-x) % 2)
  }

  /** Node.toggle: true when the caller is the one that has to wait. */
  predicate ToggleWaits(state: int) {
    GoMod2(AddOne(state)) == 1
  }

  /** depth(n) */
  function Depth(n: nat): nat
    requires n > 0
  {
    Halvings((n - 1) / 2)
  }

  function Halvings(l: nat): nat {
    if l > 0 then 1 + Halvings(l / 2) else 0
  }

  method ComputeDepth(n: nat) returns (d: nat)
    requires n > 0
    ensures d == Depth(n)
  {
    d := 0;
    var l := (n - 1) / 2;
    while l > 0
      invariant l >= 0 && d + Halvings(l) == Depth(n)
    {
      l := l / 2;
      d := d + 1;
    }
  }

  function Ancestor(j: nat, h: nat): nat {
    if h == 0 then j else Ancestor(j, h - 1) / 2
  }

  // ----- A chunk to be hashed -----

  datatype Job = Job(H: BaseHash, size: nat, depth: nat, data: Bytes)

  lemma {:induction false} TimesMono(a: nat, b: nat, w: nat)
    requires a <= b
    ensures Times(a, w) <= Times(b, w)
    ensures a < b ==> Times(a, w) + w <= Times(b, w)
    decreases b
  {
    if a < b { TimesMono(a, b - 1, w); }
  }

  /** Index of the last block when l bytes are cut into blocks of w. */
  function LastBlock(l: nat, w: nat): (q: nat)
    requires w > 0
  {
    if l <= w then 0 else 1 + LastBlock(l - w, w)
  }

  lemma {:induction false} LastBlockBounds(l: nat, w: nat)
    requires w > 0 && l > 0
    ensures Times(LastBlock(l, w), w) < l <= Times(LastBlock(l, w), w) + w
  {
    if l > w { LastBlockBounds(l - w, w); }
  }

  lemma LastBlockUnique(l: nat, w: nat, q: nat)
    requires w > 0
    requires Times(q, w) < l <= Times(q, w) + w
    ensures q == LastBlock(l, w)
  {
    var r := LastBlock(l, w);
    LastBlockBounds(l, w);
    if r < q { TimesMono(r, q, w); }
    if q < r { TimesMono(q, r, w); }
  }

  function Block(data: Bytes, j: nat, w: nat): Bytes
    requires Times(j, w) + w <= |data|
  {
    data[Times(j, w)..Times(j, w) + w]
  }

  function Blocks(data: Bytes, n: nat, w: nat): (r: seq<Bytes>)
    requires Times(n, w) <= |data|
    ensures |r| == n
  {
    if n == 0 then [] else Blocks(data, n - 1, w) + [Block(data, n - 1, w)]
  }

  function Joined(parts: seq<Bytes>): Bytes {
    if parts == [] then [] else Joined(parts[..|parts| - 1]) + parts[|parts| - 1]
  }

  lemma {:induction false} BlocksJoin(data: Bytes, n: nat, w: nat)
    requires Times(n, w) <= |data|
    ensures Joined(Blocks(data, n, w)) == data[..Times(n, w)]
    ensures forall j :: 0 <= j < n ==> |Blocks(data, n, w)[j]| == w
  {
    if n > 0 {
      BlocksJoin(data, n - 1, w);
      var parts := Blocks(data, n, w);
      assert parts[..n - 1] == Blocks(data, n - 1, w);
      assert data[..Times(n, w)] == data[..Times(n - 1, w)] + Block(data, n - 1, w);
    }
  }

  lemma {:induction false} BlocksAt(data: Bytes, l: nat, n: nat, w: nat, j: nat)
    requires j < n && Times(n, w) <= l <= |data|
    ensures Times(j, w) + w <= l && Blocks(data, n, w)[j] == Block(data[..l], j, w)
  {
    if j < n - 1 { BlocksAt(data, l, n - 1, w, j); }
  }

  /** Double segment j of the data; only the last one can be shorter. */
  function SegmentOf(size: nat, data: Bytes, j: nat): Bytes
    requires size > 0 && j <= LastBlock(|data|, 2 * size)
  {
    SegmentBounds(size, data, j);
    if j < LastBlock(|data|, 2 * size) then Block(data, j, 2 * size)
    else data[Times(j, 2 * size)..]
  }

  lemma SegmentBounds(size: nat, data: Bytes, j: nat)
    requires size > 0 && j <= LastBlock(|data|, 2 * size)
    ensures Times(j, 2 * size) <= |data|
    ensures j < LastBlock(|data|, 2 * size) ==> Times(j, 2 * size) + 2 * size <= |data|
  {
    if |data| > 0 {
      LastBlockBounds(|data|, 2 * size);
      TimesMono(j, LastBlock(|data|, 2 * size), 2 * size);
    }
  }

  /** Index of the last double segment, Hasher.cur when the chunk is written. */
  function Last(c: Job): nat
    requires c.size > 0
  {
    LastBlock(|c.data|, 2 * c.size)
  }

  function Segment(c: Job, j: nat): Bytes
    requires c.size > 0 && j <= Last(c)
  {
    SegmentOf(c.size, c.data, j)
  }

  /** The tree is tall enough for the chunk. */
  predicate Fits(c: Job) {
    c.size > 0 && Ancestor(Last(c), c.depth) == 0
  }

  /** The loop of Write, once the first `rest` bytes are in the open segment. */
  method WriteSegments(b: Bytes, size: nat, total: nat, width: nat, first: nat, pairs: nat)
    returns (launched: seq<Bytes>, segment: Bytes, cur: nat)
    requires 0 < size && 0 < total <= |b| && total <= Times(pairs, 2 * size)
    requires 0 < first <= 2 * size && (first == total || width == first == 2 * size < total)
    ensures cur == LastBlock(total, 2 * size) && segment == SegmentOf(size, b[..total], cur)
    ensures |launched| == cur && forall j :: 0 <= j < cur ==> launched[j] == SegmentOf(size, b[..total], j)
    ensures Joined(launched) + segment == b[..total] && 0 < |segment| <= 2 * size
    ensures forall j :: 0 <= j < cur ==> |launched[j]| == 2 * size
  {
    ghost var p := 2 * size;
    var need, step, rest := total - first, width, first;
    launched, segment, cur := [], b[..first], 0;
    while need > 0 && cur < pairs - 1
      invariant cur < pairs
      invariant Times(cur, p) < rest <= Times(cur, p) + p && rest <= total
      invariant need > 0 ==> step == p && rest == Times(cur, p) + p && need == total - rest
      invariant need <= 0 ==> rest == total
      invariant segment == b[Times(cur, p)..rest]
      invariant launched == Blocks(b, cur, p)
    {
      launched := launched + [segment];
      need := need - step;
      if need < 0 { step := step + need; }
      segment := b[rest..rest + step];
      rest := rest + step;
      cur := cur + 1;
    }
    assert cur == pairs - 1 ==> Times(pairs, p) == Times(cur, p) + p;
    LastBlockUnique(total, p, cur);
    BlocksJoin(b, cur, p);
    assert b[..total] == b[..Times(cur, p)] + b[Times(cur, p)..total];
    forall j | 0 <= j < cur ensures launched[j] == SegmentOf(size, b[..total], j) { BlocksAt(b, total, cur, p, j); }
  }

  lemma CapacityInPairs(size: nat, count: nat, pairs: nat)
    requires count <= 2 * pairs
    ensures count * size <= Times(pairs, 2 * size)
  {
    hide Times;
    TimesIsMul(pairs, 2 * size);
    MulMono(count, 2 * pairs, size);
    assert pairs * (2 * size) == size * (2 * pairs);
  }

  lemma CapacityIsEnough(size: nat, count: nat)
    requires count > 0
    ensures count * size == size * count >= size && (count > 1 ==> count * size >= 2 * size)
  {
    MulMono(1, count, size);
    if count > 1 { MulMono(2, count, size); }
  }

  lemma Nothing(size: nat)
    requires size > 0
    ensures LastBlock(0, 2 * size) == 0 && SegmentOf(size, [], 0) == [] && Joined([]) == []
  {}

  /**
   Write: what one call launches, what it keeps as the open segment, and the
   cursor. Together they are all bytes up to the capacity, cut into full double
   segments and a last one.
   */
  method Write(size: nat, count: nat, b: Bytes) returns (launched: seq<Bytes>, segment: Bytes, cur: nat)
    requires size > 0 && count > 0
    ensures var data := Truncate(b, size * count);
            && cur == LastBlock(|data|, 2 * size) && segment == SegmentOf(size, data, cur)
            && |launched| == cur && forall j :: 0 <= j < cur ==> launched[j] == SegmentOf(size, data, j)
    ensures Joined(launched) + segment == if |b| <= size * count then b else b[..size * count]
    ensures (forall j :: 0 <= j < cur ==> |launched[j]| == 2 * size) && |segment| <= 2 * size && (b != [] ==> segment != [])
  {
    hide Truncate, SegmentOf, LastBlock, Joined, Times;
    launched, segment, cur := [], [], 0;
    Nothing(size);
    WholeChunk(b, size * count);
    var l := |b|;
    if l <= 0 { return; }
    var pairs := (count + 1) / 2;
    var need := count * size;
    CapacityIsEnough(size, count);
    CapacityInPairs(size, count, pairs);
    var step := size;
    if need > step { step := 2 * step; }
    if l < need { need := l; }
    var rest := step;
    if need < rest { rest := need; }
    launched, segment, cur := WriteSegments(b, size, need, step, rest, pairs);
    assert b[..|b|] == b;
  }

  // ----- Goroutines and the main thread -----

  datatype Pc = HashLeaf | EmitLeaf | Store | Test | Toggle | Combine | Emit

  /** A goroutine: `i` and `d` are the arguments of `run` that its special case reads. */
  datatype Routine =
    | Idle
    | Active(at: Pos, isLeft: bool, s: Bytes, i: nat, d: nat, pc: Pc)
    | Waiting(at: Pos)
    | Sent

  datatype Main =
    | Writing(next: nat)
    | Finalising(at: Pos, isLeft: bool, d: nat)
    | Launching(d: nat)
    | Receiving
    | Releasing(at: Pos, result: Bytes)
    | Finished(result: Bytes)

  datatype State = State(nodes: map<Pos, Node>, routines: seq<Routine>, main: Main)

  function Parent(p: Pos): Pos { Pos(p.h + 1, p.k / 2) }

  /** NewTree: 2^(depth-h) nodes of height h. */
  predicate InTree(depth: nat, p: Pos) {
    p.h <= depth && p.k < Pow2(depth - p.h)
  }

  /** NewTree, level by level from the root; left and right start out empty. */
  method NewTree(count: nat) returns (nodes: map<Pos, Node>)
    requires count > 0
    ensures var depth := Depth(count);
            && (forall p :: p in nodes <==> InTree(depth, p))
            && (forall p :: p in nodes ==> nodes[p] == Node([], [], 0, false, p.h == depth))
  {
    var depth := ComputeDepth(count);
    nodes := map[Pos(depth, 0) := Node([], [], 0, false, true)];
    var width, d := 2, 1;
    while d <= depth
      invariant 1 <= d <= depth + 1 && width == Pow2(d)
      invariant forall p :: p in nodes <==> p.h <= depth && p.h > depth - d && p.k < Pow2(depth - p.h)
      invariant forall p :: p in nodes ==> nodes[p] == Node([], [], 0, false, p.h == depth)
    {
      var i := 0;
      while i < width
        invariant 0 <= i <= width == Pow2(d)
        invariant forall p :: p in nodes <==>
                    p.h <= depth && ((p.h > depth - d && p.k < Pow2(depth - p.h)) || (p.h == depth - d && p.k < i))
        invariant forall p :: p in nodes ==> nodes[p] == Node([], [], 0, false, p.h == depth)
      {
        nodes := nodes[Pos(depth - d, i) := Node([], [], 0, false, false)];
        i := i + 1;
      }
      d := d + 1;
      width := width * 2;
    }
  }

  /** writeSegment */
  function Launched(c: Job, j: nat, d: nat): Routine
    requires c.size > 0 && j <= Last(c)
  {
    if |Segment(c, j)| > c.size && c.depth > 0
    then Active(Pos(0, j), true, Segment(c, j), 0, d, HashLeaf)
    else Active(Pos(0, j), true, Segment(c, j), 2 * j, d, Store)
  }

  /** Where Sum starts `finalise`. */
  function FinaliseStart(c: Job): Main
    requires c.size > 0
  {
    var m := Last(c);
    if |Segment(c, m)| > c.size && m > 0 && c.depth > 0
    then Finalising(Pos(1, m / 2), m % 2 == 0, 0)
    else Finalising(Pos(0, m), true, 0)
  }

  predicate WellFormed(c: Job, st: State) {
    c.size > 0 && |st.routines| == Last(c) + 1
  }

  /** The main thread can take a step; in Receiving it waits for a goroutine. */
  predicate MainEnabled(c: Job, st: State)
    requires c.size > 0
  {
    match st.main
    case Writing(next) => next <= Last(c)
    case Finalising(at, _, _) => at in st.nodes
    case Launching(_) => true
    case Receiving => false
    case Releasing(at, _) => at in st.nodes
    case Finished(_) => false
  }

  function MainStep(c: Job, st: State): State
    requires WellFormed(c, st) && MainEnabled(c, st)
  {
    match st.main
    case Writing(next) =>
      if next < Last(c) then
        st.(routines := st.routines[next := Launched(c, next, c.depth)], main := Writing(next + 1))
      else
        st.(main := FinaliseStart(c))
    case Finalising(at, isLeft, d) =>
      var n := st.nodes[at].(unbalanced := isLeft, right := []);
      if at.k == 0 then
        st.(nodes := st.nodes[at := n.(root := true)], main := Launching(d))
      else
        st.(nodes := st.nodes[at := n], main := Finalising(Parent(at), at.k % 2 == 0, d + 1))
    case Launching(d) =>
      st.(routines := st.routines[Last(c) := Launched(c, Last(c), d)], main := Receiving)
    case Releasing(at, r) =>
      var n := st.nodes[at].(unbalanced := false);
      if at.h < c.depth then
        st.(nodes := st.nodes[at := n.(root := false)], main := Releasing(Parent(at), r))
      else
        st.(nodes := st.nodes[at := n], main := Finished(r))
  }

  predicate RoutineEnabled(c: Job, st: State, j: nat)
    requires WellFormed(c, st)
  {
    && j < |st.routines| && st.routines[j].Active?
    && st.routines[j].at in st.nodes
    && (st.routines[j].pc in {EmitLeaf, Emit} && st.nodes[st.routines[j].at].root ==> st.main.Receiving?)
  }

  /** One shared access of goroutine j; sending the result also wakes the main thread. */
  function RoutineStep(c: Job, st: State, j: nat): State
    requires WellFormed(c, st) && RoutineEnabled(c, st, j)
  {
    var r := st.routines[j];
    var n := st.nodes[r.at];
    match r.pc
    case HashLeaf =>
      st.(routines := st.routines[j := r.(s := c.H(r.s), pc := EmitLeaf)])
    case EmitLeaf =>
      if n.root then Send(c, st, j)
      else st.(routines := st.routines[j := Active(Parent(r.at), r.at.k % 2 == 0, r.s, r.at.k, r.d, Store)])
    case Store =>
      st.(nodes := st.nodes[r.at := if r.isLeft then n.(left := r.s) else n.(right := r.s)],
          routines := st.routines[j := r.(pc := Test)])
    case Test =>
      st.(routines := st.routines[j := r.(pc := if n.unbalanced then Combine else Toggle)])
    case Toggle =>
      st.(nodes := st.nodes[r.at := n.(state := AddOne(n.state))],
          routines := st.routines[j := if ToggleWaits(n.state) then Waiting(r.at) else r.(pc := Combine)])
    case Combine =>
      var s := if !n.unbalanced || !r.isLeft || (r.i == 0 && r.d == 0) then c.H(n.left + n.right) else n.left + n.right;
      st.(routines := st.routines[j := r.(s := s, pc := Emit)])
    case Emit =>
      if n.root then Send(c, st, j)
      else st.(routines := st.routines[j := Active(Parent(r.at), r.at.k % 2 == 0, r.s, r.i + 1, r.d, Store)])
  }

  function Send(c: Job, st: State, j: nat): State
    requires c.size > 0 && j < |st.routines| && st.routines[j].Active?
  {
    st.(routines := st.routines[j := Sent], main := Releasing(Pos(0, Last(c)), st.routines[j].s))
  }

  ghost predicate Step(c: Job, st: State, st': State) {
    && WellFormed(c, st)
    && ((MainEnabled(c, st) && st' == MainStep(c, st))
        || exists j :: RoutineEnabled(c, st, j) && st' == RoutineStep(c, st, j))
  }
}
