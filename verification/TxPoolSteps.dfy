/**
 The steps of the transaction pool on values: what promotion, demotion, cutting
 and eviction make of the lists, and why the pool's structures keep agreeing.
 */
module TxPoolSteps {
  import opened Basics
  import opened TxListSpec
  import opened TxPoolSpec
  import opened TxLists
  import opened TxPriced
  import opened TxPoolFairness

  /** The part of a pending list that is still executable at nonce c. */
  function Executable(l: Nonces, c: nat, over: Tx -> bool): Nonces {
    var kept := StrictKept(From(l, c), over);
    if c in kept then kept else map[]
  }

  /** The lists outside `todo` have been replaced by what is executable of them. */
  ghost predicate Demoting(p0: Senders, p: Senders, todo: set<nat>, chain: nat -> nat, balance: nat -> nat, maxGas: nat) {
    && todo <= p.Keys <= p0.Keys
    && (forall a :: a in todo ==> p[a] == p0[a])
    && (forall a :: a !in todo ==>
          ListOf(p, a) == if a in p0 then Executable(p0[a], chain(a), Over(balance(a), maxGas)) else map[])
    && (forall a :: a in p && a !in todo ==> p[a] != map[])
  }

  lemma SetListFrame(q: Senders, a: nat, l: Nonces)
    requires a in q
    ensures ListOf(SetList(q, a, l), a) == l && SetList(q, a, l).Keys <= q.Keys
    ensures forall b :: b != a ==> ListOf(SetList(q, a, l), b) == ListOf(q, b) && (b in SetList(q, a, l) <==> b in q)
    ensures a in SetList(q, a, l) <==> l != map[]
  {}

  lemma DemotionStep(p0: Senders, p: Senders, todo: set<nat>, chain: nat -> nat, balance: nat -> nat, maxGas: nat, a: nat)
    requires Demoting(p0, p, todo, chain, balance, maxGas) && a in todo
    ensures a in p
    ensures Demoting(p0, SetList(p, a, Executable(p[a], chain(a), Over(balance(a), maxGas))), todo - {a}, chain, balance,
                     maxGas)
  {
    hide SetList, Executable;
    SetListFrame(p, a, Executable(p[a], chain(a), Over(balance(a), maxGas)));
  }

  ghost predicate Unbroken(l: Nonces) {
    exists lo: nat, hi: nat :: Gapless(l, lo, hi)
  }

  /** Gap-free lists are what the fixed-head invariant keeps. */
  lemma RunsHaveNoHoles(p: Senders, q: Senders, chain: nat -> nat, pn: map<nat, nat>)
    requires Runs(p, q, chain, pn)
    ensures forall a :: a in p ==> Unbroken(p[a])
  {
    forall a | a in p ensures Unbroken(p[a]) {
      assert Run(p, chain, pn, a);
      assert Gapless(p[a], chain(a), NonceOf(chain, pn, a));
    }
  }

  /** What demotion keeps of an unbroken list is a run from the chain nonce. */
  lemma DemotedRun(l: Nonces, c: nat, over: Tx -> bool)
    requires Unbroken(l)
    ensures exists e: nat :: Gapless(Executable(l, c, over), c, e)
  {
    var lo: nat, hi: nat :| Gapless(l, lo, hi);
    var from := if c > lo then c else lo;
    if from <= hi {
      assert Gapless(From(l, c), from, hi);
      StrictKeptGapless(From(l, c), over, from, hi);
      var e: nat :| from <= e <= hi && Gapless(StrictKept(From(l, c), over), from, e);
      if c in StrictKept(From(l, c), over) {
        assert Gapless(Executable(l, c, over), c, e);
      } else {
        assert Gapless(Executable(l, c, over), c, c);
      }
    } else {
      assert forall n :: n in l ==> n < hi;
      assert From(l, c) == map[];
      assert Gapless(Executable(l, c, over), c, c);
    }
  }

  lemma GreatestOfRun(m: Nonces, lo: nat, e: nat)
    requires Gapless(m, lo, e) && lo < e
    ensures m != map[] && Greatest(m) + 1 == e
  {
    assert e - 1 in m;
  }

  lemma SyncedRun(p: Senders, chain: nat -> nat, pn: map<nat, nat>, a: nat)
    requires exists e: nat :: Gapless(ListOf(p, a), chain(a), e)
    requires a in p ==> p[a] != map[]
    requires NonceOf(chain, pn, a) == if a in p then Greatest(p[a]) + 1 else chain(a)
    ensures Run(p, chain, pn, a)
  {
    var e: nat :| Gapless(ListOf(p, a), chain(a), e);
    if a in p { GreatestOfRun(p[a], chain(a), e); } else { assert chain(a) !in ListOf(p, a); }
  }

  lemma JoinFrame(q: Senders, a: nat, m: Nonces)
    ensures forall b :: b != a ==> ListOf(JoinList(q, a, m), b) == ListOf(q, b)
  {}

  lemma NoneTotal()
    ensures Total(map[]) == 0
  {
    SumOfNone();
    assert Sizes(map[]) == map[];
  }

  /** The pooled transactions with the sender and nonce of tx: at most one. */
  ghost function Rivals(all: set<Tx>, tx: Tx): set<Tx> {
    set t | t in all && t.sender == tx.sender && t.nonce == tx.nonce
  }

  lemma OneRival(p: Senders, q: Senders, all: set<Tx>, tx: Tx)
    requires Agrees(p, q, all, {})
    ensures var l, k := ListOf(p, tx.sender), ListOf(q, tx.sender);
            Rivals(all, tx) == if tx.nonce in l then {l[tx.nonce]} else if tx.nonce in k then {k[tx.nonce]} else {}
  {
    var l, k := ListOf(p, tx.sender), ListOf(q, tx.sender);
    if tx.nonce in l { assert Holds(p, l[tx.nonce]); }
    if tx.nonce in k { assert Holds(q, k[tx.nonce]); }
  }

  lemma {:induction false} SetOfSeq(s: seq<Tx>)
    ensures |(set t | t in s)| <= |s|
  {
    if s != [] {
      var n := |s| - 1;
      SetOfSeq(s[..n]);
      assert s == s[..n] + [s[n]];
      var less := set t | t in s[..n];
      assert (set t | t in s) == less + {s[n]};
    }
  }

  ghost function Among(txs: seq<Tx>): set<Tx> {
    set t | t in txs
  }

  /** Whatever is new in the pool took the place of another transaction with its nonce. */
  ghost predicate OnlyRivals(before: set<Tx>, after: set<Tx>, known: set<Tx>) {
    forall t :: t in after && t !in before ==> Rivals(known - {t}, t) != {}
  }

  lemma NoRivals(all: set<Tx>, known: set<Tx>)
    ensures OnlyRivals(all, all, known)
  {}

  lemma MoreRivals(start: set<Tx>, before: set<Tx>, after: set<Tx>, known: set<Tx>, tx: Tx)
    requires OnlyRivals(start, before, known) && after <= before + {tx} && before <= known
    requires tx in after && tx !in before ==> Rivals(before, tx) != {}
    ensures OnlyRivals(start, after, known)
  {
    if tx in after && tx !in before {
      var t :| t in Rivals(before, tx);
      assert t in Rivals(known - {tx}, tx);
    }
  }

  lemma AmongStep(txs: seq<Tx>, i: nat)
    requires i < |txs|
    ensures Among(txs[..i + 1]) == Among(txs[..i]) + {txs[i]}
  {
    assert txs[..i + 1] == txs[..i] + [txs[i]];
  }

  lemma PendingKeyed(p: Senders, q: Senders, all: set<Tx>, a: nat)
    requires Agrees(p, q, all, {}) && a in p
    ensures Keyed(p[a])
  {}

  /** m can join list l of sender a without meeting any of its nonces. */
  predicate Movable(a: nat, m: Nonces, l: Nonces) {
    m.Keys !! l.Keys && forall n :: n in m ==> m[n].sender == a && m[n].nonce == n
  }

  lemma PartMoves(p: Senders, q: Senders, all: set<Tx>, a: nat, m: Nonces)
    requires Agrees(p, q, all, {}) && a in p && Part(m, p[a])
    ensures Movable(a, m, ListOf(q, a))
  {}

  lemma StrictParts(m: Nonces, over: Tx -> bool)
    ensures Part(Where(m, over), m) && Part(StrictInvalid(m, over), m) && Part(StrictKept(m, over), m)
  {}

  lemma DemotionKeys(l: Nonces, c: nat, over: Tx -> bool)
    ensures var low, high := Under(l, c), From(l, c);
            var drops, invalids, kept := Where(high, over), StrictInvalid(high, over), StrictKept(high, over);
            && Part(low, l) && Part(drops, l) && Part(invalids, l) && Part(kept, l)
            && l.Keys == low.Keys + drops.Keys + invalids.Keys + kept.Keys
            && low.Keys !! drops.Keys !! invalids.Keys !! kept.Keys
  {
    StrictPartition(From(l, c), over);
    StrictParts(From(l, c), over);
    hide Where, StrictInvalid, StrictKept;
    assert l.Keys == Under(l, c).Keys + From(l, c).Keys;
  }

  lemma TxsIn(m: Nonces, l: Nonces)
    requires Keyed(l) && Part(m, l)
    ensures forall t: Tx :: t in Txs(m) <==> t.nonce in m && l[t.nonce] == t
  {
    forall t: Tx | t.nonce in m && l[t.nonce] == t ensures t in Txs(m) { assert m[t.nonce] == t; }
  }

  lemma ThreeParts(l: Nonces, kept: Nonces, x: Nonces, y: Nonces, z: Nonces)
    requires Keyed(l) && Part(kept, l) && Part(x, l) && Part(y, l) && Part(z, l)
    requires l.Keys == x.Keys + y.Keys + z.Keys + kept.Keys && x.Keys !! y.Keys !! z.Keys !! kept.Keys
    ensures Txs(Rest(l, kept)) == Txs(x) + Txs(y) + Txs(z) && Txs(x) !! Txs(y) !! Txs(z)
  {
    TxsIn(x, l);
    TxsIn(y, l);
    TxsIn(z, l);
    TxsIn(Rest(l, kept), l);
  }

  /** Too old, too expensive, behind something too expensive, and kept: each transaction is one of these. */
  lemma DemotionParts(p: Senders, q: Senders, all: set<Tx>, a: nat, c: nat, over: Tx -> bool)
    requires Agrees(p, q, all, {}) && a in p
    ensures var low, high := Under(p[a], c), From(p[a], c);
            var drops, invalids, kept := Where(high, over), StrictInvalid(high, over), StrictKept(high, over);
            && Agrees(p[a := kept], q, all, Txs(low) + Txs(drops) + Txs(invalids))
            && Txs(low) !! Txs(drops) !! Txs(invalids)
            && Movable(a, invalids, ListOf(q, a)) && invalids.Keys !! kept.Keys
  {
    var l, low, high := p[a], Under(p[a], c), From(p[a], c);
    var drops, invalids, kept := Where(high, over), StrictInvalid(high, over), StrictKept(high, over);
    DemotionKeys(l, c, over);
    PartMoves(p, q, all, a, invalids);
    hide Under, From, Where, StrictInvalid, StrictKept, Agrees, Movable, Txs, Rest;
    PendingKeyed(p, q, all, a);
    ShrinkPending(p, q, all, {}, a, kept);
    ThreeParts(l, kept, low, drops, invalids);
    assert {} + Txs(Rest(l, kept)) == Txs(low) + Txs(drops) + Txs(invalids);
  }

  lemma GapInFront(p: Senders, q: Senders, all: set<Tx>, a: nat)
    requires Agrees(p, q, all, {}) && a in p
    ensures Agrees(p[a := map[]], q, all, Txs(p[a])) && Movable(a, p[a], ListOf(q, a))
  {
    ShrinkPending(p, q, all, {}, a, map[]);
    assert Rest(p[a], map[]) == p[a];
    assert {} + Txs(p[a]) == Txs(p[a]);
  }

  lemma NothingQueued(q: Senders, chain: nat -> nat, pn: map<nat, nat>, a: nat)
    requires ListOf(q, a) == map[]
    ensures Beyond(q, chain, pn, a)
  {}

  ghost predicate AllRun(p: Senders, chain: nat -> nat, pn: map<nat, nat>) {
    forall a {:trigger Run(p, chain, pn, a)} :: Run(p, chain, pn, a)
  }

  lemma RunsFromParts(p: Senders, q: Senders, chain: nat -> nat, pn: map<nat, nat>)
    requires AllRun(p, chain, pn) && forall a :: Beyond(q, chain, pn, a)
    ensures Runs(p, q, chain, pn)
  {}

  lemma ReplaceKeepsRuns(p: Senders, q: Senders, chain: nat -> nat, pn: map<nat, nat>, t: Tx)
    requires Runs(p, q, chain, pn) && t.nonce in ListOf(p, t.sender)
    ensures Runs(p[t.sender := With(p[t.sender], t)], q, chain, pn)
  {
    var p': Senders := p[t.sender := With(p[t.sender], t)];
    forall b ensures Run(p', chain, pn, b) && Beyond(q, chain, pn, b) {
      assert Run(p, chain, pn, b) && Beyond(q, chain, pn, b);
    }
  }

  lemma EnqueueKeepsRuns(p: Senders, q: Senders, chain: nat -> nat, pn: map<nat, nat>, t: Tx)
    requires Runs(p, q, chain, pn) && t.nonce !in ListOf(p, t.sender) && t.nonce >= chain(t.sender)
    ensures Runs(p, q[t.sender := ListOf(q, t.sender)[t.nonce := t]], chain, pn)
  {
    var q': Senders := q[t.sender := ListOf(q, t.sender)[t.nonce := t]];
    forall b ensures Run(p, chain, pn, b) && Beyond(q', chain, pn, b) {
      assert Run(p, chain, pn, b) && Beyond(q, chain, pn, b);
      assert b == t.sender ==> t.nonce >= NonceOf(chain, pn, b);
      assert ListOf(q', b) == if b == t.sender then ListOf(q, b)[t.nonce := t] else ListOf(q, b);
    }
  }

  lemma OneNonceLess(l: Nonces, n: nat)
    requires n in l
    ensures |l - {n}| == |l| - 1
  {
    assert l.Keys == (l - {n}).Keys + {n};
  }

  lemma WholeParts(q: Senders)
    ensures forall a :: InitialPart(ListOf(q, a), ListOf(q, a))
  {}

  lemma EmptyPart(l: Nonces)
    ensures InitialPart(map[], l)
  {}

  /** pool.beats[a], with the zero time for accounts never promoted. */
  function Beat(beats: map<nat, nat>, a: nat): nat { if a in beats then beats[a] else 0 }

  /** The accounts in `left` are untouched and no newer than the others, which are gone; the last may be cut. */
  ghost predicate Evicting(q0: Senders, q: Senders, when: map<nat, nat>, locals: set<nat>, left: set<nat>, drop: nat) {
    && (forall a :: InitialPart(ListOf(q, a), ListOf(q0, a)))
    && (forall a :: a in left ==> a !in locals)
    && (forall a :: a in locals || a in left ==> ListOf(q, a) == ListOf(q0, a))
    && (forall a :: a !in locals && a !in left && drop > 0 ==> ListOf(q, a) == map[])
    && (forall a, b :: b !in locals && Beat(when, a) < Beat(when, b) && ListOf(q, a) != ListOf(q0, a) ==>
          b !in left && ListOf(q, b) == map[])
  }

  lemma EvictionStarts(q: Senders, when: map<nat, nat>, locals: set<nat>, left: set<nat>, drop: nat)
    requires left == set a | a in q && a !in locals
    ensures Evicting(q, q, when, locals, left, drop)
  {}

  lemma Evict(q0: Senders, q: Senders, q': Senders, when: map<nat, nat>, locals: set<nat>, left: set<nat>,
              drop: nat, drop': nat, a: nat)
    requires Evicting(q0, q, when, locals, left, drop) && drop > 0
    requires a in left && forall b :: b in left ==> Beat(when, b) <= Beat(when, a)
    requires forall b :: b != a ==> ListOf(q', b) == ListOf(q, b)
    requires InitialPart(ListOf(q', a), ListOf(q, a)) && (drop' > 0 ==> ListOf(q', a) == map[])
    ensures Evicting(q0, q', when, locals, left - {a}, drop')
  {
    forall b ensures InitialPart(ListOf(q', b), ListOf(q0, b)) {}
    forall x, b | b !in locals && Beat(when, x) < Beat(when, b) && ListOf(q', x) != ListOf(q0, x)
      ensures b !in left - {a} && ListOf(q', b) == map[]
    {
      if x == a { assert b !in left; }
    }
  }

  lemma EvictionEnds(q0: Senders, q: Senders, when: map<nat, nat>, locals: set<nat>, left: set<nat>, drop: nat)
    requires Evicting(q0, q, when, locals, left, drop)
    ensures drop > 0 && left == {} ==> forall a :: a !in locals ==> ListOf(q, a) == map[]
    ensures forall a :: InitialPart(ListOf(q, a), ListOf(q0, a))
    ensures forall a :: a in locals ==> ListOf(q, a) == ListOf(q0, a)
    ensures forall a, b :: b !in locals && Beat(when, a) < Beat(when, b) && ListOf(q, a) != ListOf(q0, a) ==>
              ListOf(q, b) == map[]
  {}

  lemma NewestExists(beats: map<nat, nat>, s: set<nat>)
    requires s != {}
    ensures exists x :: x in s && forall b :: b in s ==> Beat(beats, b) <= Beat(beats, x)
  {
    var x :| x in s;
    var seen := {x};
    while seen != s
      invariant seen <= s && x in seen && forall b :: b in seen ==> Beat(beats, b) <= Beat(beats, x)
      decreases s - seen
    {
      var y :| y in s && y !in seen;
      if Beat(beats, y) > Beat(beats, x) { x := y; }
      seen := seen + {y};
    }
  }

  lemma QueuedFacts(p: Senders, q: Senders, all: set<Tx>, a: nat, n: nat)
    requires Agrees(p, q, all, {}) && a in q && n in q[a]
    ensures q[a][n] in all && q[a][n].sender == a && q[a][n].nonce == n && n !in ListOf(p, a)
  {
    assert Holds(q, q[a][n]);
  }

  lemma EmptyLevel(p: Senders, e: nat)
    ensures Level(p, [], e)
  {}

  lemma StageStarts(p: Senders, locals: set<nat>, slots: nat)
    ensures Stage(p, p, locals, slots, set a | a in p && a !in locals && |p[a]| > slots, [], 0) && Even(p, [], 0)
  {}

  lemma SpammerFacts(p0: Senders, p: Senders, locals: set<nat>, slots: nat, spammers: set<nat>, s: seq<nat>, e: nat)
    requires Stage(p0, p, locals, slots, spammers, s, e)
    ensures Distinct(s) && Trimmed(p0, p)
    ensures forall b :: b in spammers ==> b in p && b in p0 && p[b] == p0[b] && b !in s
    ensures |s| > 0 ==> forall b :: b in spammers ==> Size(p, b) <= Size(p, s[|s| - 1])
  {}

  lemma StageFacts(p0: Senders, p: Senders, locals: set<nat>, slots: nat, spammers: set<nat>, s: seq<nat>, e: nat)
    requires Stage(p0, p, locals, slots, spammers, s, e) && |s| > 0
    ensures Distinct(s) && Trimmed(p0, p) && s[|s| - 1] in p && Size(p, s[|s| - 1]) > slots
  {
    assert s[|s| - 1] in s;
  }

  lemma CutKeepsRuns(p: Senders, q: Senders, chain: nat -> nat, pn: map<nat, nat>, a: nat, g: nat)
    requires Runs(p, q, chain, pn) && a in p && g in p[a] && forall x :: x in p[a] ==> x <= g
    ensures Runs(p[a := p[a] - {g}], q, chain, if NonceOf(chain, pn, a) > g then pn[a := g] else pn)
  {
    var p', pn' := p[a := p[a] - {g}], pn[a := g];
    assert Run(p, chain, pn, a) && Beyond(q, chain, pn, a);
    forall b ensures Run(p', chain, pn', b) && Beyond(q, chain, pn', b) {
      assert Run(p, chain, pn, b) && Beyond(q, chain, pn, b);
    }
  }

  ghost predicate Settled(q: Senders, chain: nat -> nat, pn: map<nat, nat>, a: nat, cap: Option<nat>, runs: bool) {
    && (runs ==> Beyond(q, chain, pn, a))
    && (a in q ==> q[a] != map[] && (cap.Some? ==> |q[a]| <= cap.value))
  }

  lemma StaysSettled(q: Senders, q': Senders, chain: nat -> nat, pn: map<nat, nat>, pn': map<nat, nat>,
                     a: nat, cap: Option<nat>, runs: bool)
    requires Settled(q, chain, pn, a, cap, runs)
    requires ListOf(q', a) == ListOf(q, a) && (a in q' <==> a in q) && NonceOf(chain, pn', a) == NonceOf(chain, pn, a)
    ensures Settled(q', chain, pn', a, cap, runs)
  {}

  ghost predicate PayableList(l: Nonces, c: nat, over: Tx -> bool) {
    forall n :: n in l ==> n >= c && !over(l[n])
  }

  ghost predicate AllPayable(p: Senders, chain: nat -> nat, balance: nat -> nat, maxGas: nat) {
    forall a {:trigger PayableList(ListOf(p, a), chain(a), Over(balance(a), maxGas))} ::
      PayableList(ListOf(p, a), chain(a), Over(balance(a), maxGas))
  }

  function Capped(l: Nonces, cap: Option<nat>): Nonces {
    if cap.Some? then Lowest(l, cap.value) else l
  }

  /** What Ready(start) takes out of l: nothing, or the unbroken run from its lowest nonce. */
  ghost predicate IsReadyRun(l: Nonces, start: nat, run: Nonces) {
    || (run == map[] && forall n :: n in l ==> n > start)
    || (exists lo: nat :: IsLeast(l, lo) && lo <= start && run == RunFrom(l, lo))
  }

  /** What becomes of a queued list in one round: `run` is promoted and `rest` stays. */
  ghost predicate IsPromotion(l: Nonces, chain: nat, over: Tx -> bool, start: nat, cap: Option<nat>,
                              run: Nonces, rest: Nonces)
  {
    var payable := WhereNot(From(l, chain), over);
    && IsReadyRun(payable, start, run) && Part(run, payable)
    && rest == Capped(Rest(payable, run), cap)
  }

  /** What is promoted can be paid for. */
  lemma PromotionPays(p: Senders, l: Nonces, chain: nat -> nat, balance: nat -> nat, maxGas: nat, a: nat, start: nat,
                      cap: Option<nat>, run: Nonces, rest: Nonces)
    requires IsPromotion(l, chain(a), Over(balance(a), maxGas), start, cap, run, rest)
    ensures AllPayable(p, chain, balance, maxGas) ==> AllPayable(JoinList(p, a, run), chain, balance, maxGas)
  {
    var over := Over(balance(a), maxGas);
    assert PayableList(run, chain(a), over) by {
      var payable := WhereNot(From(l, chain(a)), over);
      assert Part(run, payable) by { hide Capped, IsReadyRun; }
    }
    hide Over, IsPromotion;
    if AllPayable(p, chain, balance, maxGas) {
      var p' := JoinList(p, a, run);
      forall b ensures PayableList(ListOf(p', b), chain(b), Over(balance(b), maxGas)) {
        assert PayableList(ListOf(p, b), chain(b), Over(balance(b), maxGas));
        assert ListOf(p', b) == if b == a then ListOf(p, a) + run else ListOf(p, b);
      }
    }
  }

  datatype Config = Config(priceBump: nat, accountSlots: nat, globalSlots: nat, accountQueue: nat, globalQueue: nat)

  /**
   What the pending limit does: nothing unless it is exceeded; then large remote
   lists are cut from the top, evenly, not below the guaranteed slots, and by
   less than one transaction per account more than necessary.
   */
  ghost predicate PendingCut(p1: Senders, p: Senders, locals: set<nat>, config: Config) {
    && Spares(p1, p, locals, config.accountSlots) && Fair(p1, p, locals)
    && (Total(p1) <= config.globalSlots ==> p == p1)
    && (Total(p1) > config.globalSlots ==> Total(p) + |p1| > config.globalSlots)
    && (|| Total(p) <= config.globalSlots
        || forall a :: a in p && a !in locals ==> Size(p, a) <= config.accountSlots)
  }

  /** The pending nonce of a list cut from l to k falls back to the lowest nonce cut, if that is lower. */
  ghost predicate Lowered(l: Nonces, k: Nonces, was: nat, now: nat) {
    && now <= was && (forall n :: n in l && n !in k ==> now <= n)
    && (now == was || (now in l && now !in k))
  }

  ghost predicate NoncesCut(chain: nat -> nat, p0: Senders, p: Senders, pn0: map<nat, nat>, pn: map<nat, nat>) {
    forall a {:trigger Lowered(ListOf(p0, a), ListOf(p, a), NonceOf(chain, pn0, a), NonceOf(chain, pn, a))} ::
      Lowered(ListOf(p0, a), ListOf(p, a), NonceOf(chain, pn0, a), NonceOf(chain, pn, a))
  }

  lemma NothingCut(chain: nat -> nat, p: Senders, pn: map<nat, nat>)
    ensures NoncesCut(chain, p, p, pn, pn)
  {}

  /** One more nonce is cut. */
  lemma CutMore(chain: nat -> nat, p0: Senders, p: Senders, pn0: map<nat, nat>, pn: map<nat, nat>, a: nat, g: nat)
    requires NoncesCut(chain, p0, p, pn0, pn) && a in p && g in p[a] && g in ListOf(p0, a)
    ensures NoncesCut(chain, p0, p[a := p[a] - {g}], pn0, if NonceOf(chain, pn, a) > g then pn[a := g] else pn)
  {
    var p', pn' := p[a := p[a] - {g}], if NonceOf(chain, pn, a) > g then pn[a := g] else pn;
    forall b ensures Lowered(ListOf(p0, b), ListOf(p', b), NonceOf(chain, pn0, b), NonceOf(chain, pn', b)) {
      assert Lowered(ListOf(p0, b), ListOf(p, b), NonceOf(chain, pn0, b), NonceOf(chain, pn, b));
    }
  }

  lemma TrimPays(p0: Senders, p: Senders, locals: set<nat>, config: Config, chain: nat -> nat, balance: nat -> nat, maxGas: nat)
    requires PendingCut(p0, p, locals, config) && AllPayable(p0, chain, balance, maxGas)
    ensures AllPayable(p, chain, balance, maxGas)
  {
    hide Over;
    forall b ensures PayableList(ListOf(p, b), chain(b), Over(balance(b), maxGas)) {
      assert PayableList(ListOf(p0, b), chain(b), Over(balance(b), maxGas));
    }
  }

  /** Payable means: not behind the chain, affordable, and within the block's gas. */
  lemma PayableMeans(p: Senders, chain: nat -> nat, balance: nat -> nat, maxGas: nat, t: Tx)
    requires AllPayable(p, chain, balance, maxGas) && Holds(p, t)
    ensures chain(t.sender) <= t.nonce && t.cost <= balance(t.sender) && t.gas <= maxGas
  {
    assert PayableList(ListOf(p, t.sender), chain(t.sender), Over(balance(t.sender), maxGas));
  }

  lemma NonePays(c: nat, over: Tx -> bool)
    ensures PayableList(map[], c, over)
  {}

  /** What demotion drops of a list; everything else stays pooled. */
  ghost function Dropped(l: Nonces, c: nat, over: Tx -> bool): set<Tx> {
    Txs(Under(l, c)) + Txs(Where(From(l, c), over))
  }

  lemma DroppedAre(p: Senders, a: nat, c: nat, over: Tx -> bool)
    requires Filed(p) && a in p
    ensures forall t :: t in Dropped(p[a], c, over) <==> t.sender == a && Holds(p, t) && (t.nonce < c || over(t))
  {
    forall t: Tx | t.sender == a && Holds(p, t) && (t.nonce < c || over(t)) ensures t in Dropped(p[a], c, over) {
      if t.nonce < c {
        assert Under(p[a], c)[t.nonce] == t;
      } else {
        assert Where(From(p[a], c), over)[t.nonce] == t;
      }
    }
  }

  lemma FiledOf(p: Senders, q: Senders, all: set<Tx>)
    requires Agrees(p, q, all, {})
    ensures Filed(p)
  {}

  lemma DemotedPays(l: Nonces, c: nat, over: Tx -> bool)
    ensures PayableList(Executable(l, c, over), c, over)
  {
    StrictPartition(From(l, c), over);
  }

  lemma SameList(p: Senders, q: Senders, chain: nat -> nat, pn: map<nat, nat>,
                 p': Senders, q': Senders, pn': map<nat, nat>, b: nat)
    requires ListOf(p', b) == ListOf(p, b) && ListOf(q', b) == ListOf(q, b)
    requires NonceOf(chain, pn', b) == NonceOf(chain, pn, b)
    ensures Run(p', chain, pn', b) == Run(p, chain, pn, b) && Beyond(q', chain, pn', b) == Beyond(q, chain, pn, b)
  {}

  function AfterRun(pn: map<nat, nat>, a: nat, run: Nonces): map<nat, nat> {
    if run == map[] then pn else pn[a := Greatest(run) + 1]
  }

  lemma OthersKept(p: Senders, q: Senders, chain: nat -> nat, pn: map<nat, nat>, a: nat, run: Nonces, rest: Nonces)
    ensures var p', q', pn' := JoinList(p, a, run), SetList(q, a, rest), AfterRun(pn, a, run);
            && (forall b :: b != a ==> ListOf(p', b) == ListOf(p, b) && ListOf(q', b) == ListOf(q, b))
            && (forall b :: b != a ==> NonceOf(chain, pn', b) == NonceOf(chain, pn, b) && (b in q' <==> b in q))
            && (a in q' <==> rest != map[]) && (a in q' ==> q'[a] == rest)
  {}

  lemma LowestSize(m: Nonces, k: nat)
    ensures |Lowest(m, k)| <= k
  {
    var l := Lowest(m, k);
    if l != map[] {
      var g := Greatest(l);
      assert l.Keys - {g} <= NoncesBelow(m, g);
      SetSize(l.Keys - {g}, NoncesBelow(m, g));
    }
  }

  lemma RestFits(l: Nonces, low: nat, over: Tx -> bool, start: nat, cap: Option<nat>, run: Nonces, rest: Nonces)
    requires IsPromotion(l, low, over, start, cap, run, rest)
    ensures rest.Keys <= l.Keys && (cap.Some? ==> |rest| <= cap.value)
  {
    if cap.Some? { LowestSize(Rest(WhereNot(From(l, low), over), run), cap.value); }
  }

  /** On the lists alone: the pending run gets longer and leaves a gap behind it. */
  lemma RunGrows(l: Nonces, payable: Nonces, chain: nat, start: nat, run: Nonces)
    requires Gapless(l, chain, start) && (forall n :: n in payable ==> n >= start)
    requires IsReadyRun(payable, start, run) && Part(run, payable)
    ensures run == map[] ==> forall n :: n in payable ==> n > start
    ensures run != map[] ==>
              && Gapless(l + run, chain, Greatest(run) + 1)
              && forall n :: n in Rest(payable, run) ==> n > Greatest(run) + 1
  {
    if run != map[] {
      var lo: nat :| IsLeast(payable, lo) && lo <= start && run == RunFrom(payable, lo);
      var e := RunEnd(payable, lo);
      assert lo == start && lo < e;
      assert Gapless(run, lo, e);
      GreatestOfRun(run, lo, e);
    } else {
      forall lo: nat | IsLeast(payable, lo) ensures RunFrom(payable, lo) != map[] { assert lo in RunFrom(payable, lo); }
    }
  }

  /** Queued nonces that are neither old nor pending lie at or beyond the pending nonce. */
  lemma PayableBeyond(p: Senders, q: Senders, chain: nat -> nat, pn: map<nat, nat>, a: nat, over: Tx -> bool)
    requires Apart(p, q) && Run(p, chain, pn, a)
    ensures forall n :: n in WhereNot(From(ListOf(q, a), chain(a)), over) ==> n >= NonceOf(chain, pn, a)
  {
    forall n | n in WhereNot(From(ListOf(q, a), chain(a)), over) ensures n >= NonceOf(chain, pn, a) {
      assert n in ListOf(q, a) && n >= chain(a);
      assert n !in ListOf(p, a);
    }
  }

  lemma KeepParts(l: Nonces, t: nat, f: Tx -> bool, k: nat)
    ensures Part(From(l, t), l) && Part(WhereNot(l, f), l) && Part(Lowest(l, k), l)
  {}

  lemma PromotionRun(p: Senders, q: Senders, chain: nat -> nat, pn: map<nat, nat>, a: nat,
                     over: Tx -> bool, cap: Option<nat>, run: Nonces, rest: Nonces)
    requires Apart(p, q) && IsPromotion(ListOf(q, a), chain(a), over, NonceOf(chain, pn, a), cap, run, rest)
    requires Run(p, chain, pn, a)
    ensures var p', q', pn' := JoinList(p, a, run), SetList(q, a, rest), AfterRun(pn, a, run);
            && Run(p', chain, pn', a) && Beyond(q', chain, pn', a)
            && NonceOf(chain, pn', a) !in ListOf(q', a)
  {
    hide WhereNot, From, Lowest, IsReadyRun, Greatest, Apart;
    var start := NonceOf(chain, pn, a);
    var payable := WhereNot(From(ListOf(q, a), chain(a)), over);
    PayableBeyond(p, q, chain, pn, a, over);
    KeepParts(Rest(payable, run), 0, over, if cap.Some? then cap.value else 0);
    assert ListOf(SetList(q, a, rest), a) == rest;
    assert ListOf(JoinList(p, a, run), a) == ListOf(p, a) + run;
    RunGrows(ListOf(p, a), payable, chain(a), start, run);
  }

  /** One round of promotion touches one account and makes its run as long as it can be. */
  lemma PromotionEffect(p: Senders, q: Senders, chain: nat -> nat, pn: map<nat, nat>, a: nat,
                        over: Tx -> bool, cap: Option<nat>, run: Nonces, rest: Nonces)
    requires Apart(p, q) && IsPromotion(ListOf(q, a), chain(a), over, NonceOf(chain, pn, a), cap, run, rest)
    ensures var p', q', pn' := JoinList(p, a, run), SetList(q, a, rest), AfterRun(pn, a, run);
            && (forall b :: b != a ==> ListOf(p', b) == ListOf(p, b) && ListOf(q', b) == ListOf(q, b))
            && (forall b :: b != a ==> NonceOf(chain, pn', b) == NonceOf(chain, pn, b) && (b in q' <==> b in q))
            && q'.Keys <= q.Keys
            && (a in q' ==> q'[a] == rest != map[] && (cap.Some? ==> |rest| <= cap.value))
            && (Run(p, chain, pn, a) ==>
                  && Run(p', chain, pn', a) && Beyond(q', chain, pn', a)
                  && NonceOf(chain, pn', a) !in ListOf(q', a))
  {
    hide IsPromotion, Run, Beyond, JoinList, AfterRun, Apart, NonceOf, SetList;
    OthersKept(p, q, chain, pn, a, run, rest);
    RestFits(ListOf(q, a), chain(a), over, NonceOf(chain, pn, a), cap, run, rest);
    if Run(p, chain, pn, a) { PromotionRun(p, q, chain, pn, a, over, cap, run, rest); }
  }

  lemma PromotionStep(p: Senders, q: Senders, chain: nat -> nat, pn: map<nat, nat>, a: nat,
                      over: Tx -> bool, cap: Option<nat>, run: Nonces, rest: Nonces, runs: bool)
    requires Apart(p, q) && IsPromotion(ListOf(q, a), chain(a), over, NonceOf(chain, pn, a), cap, run, rest)
    requires runs ==> AllRun(p, chain, pn)
    ensures var p', q', pn' := JoinList(p, a, run), SetList(q, a, rest), AfterRun(pn, a, run);
            && (forall b :: b != a ==> ListOf(q', b) == ListOf(q, b) && (b in q' <==> b in q))
            && (forall b :: b != a ==> NonceOf(chain, pn', b) == NonceOf(chain, pn, b))
            && q'.Keys <= q.Keys
            && (runs ==> AllRun(p', chain, pn')) && (Runs(p, q, chain, pn) ==> Runs(p', q', chain, pn'))
            && Settled(q', chain, pn', a, cap, runs)
  {
    hide IsPromotion, SetList, JoinList, AfterRun, NonceOf, ListOf, Apart;
    PromotionEffect(p, q, chain, pn, a, over, cap, run, rest);
    var p', q', pn' := JoinList(p, a, run), SetList(q, a, rest), AfterRun(pn, a, run);
    forall b
      ensures Run(p, chain, pn, b) ==> Run(p', chain, pn', b)
      ensures Run(p, chain, pn, b) && Beyond(q, chain, pn, b) ==> Beyond(q', chain, pn', b)
    {
      hide Run, Beyond;
      if b != a { SameList(p, q, chain, pn, p', q', pn', b); }
    }
  }

  lemma UpdateTwice(q: Senders, a: nat, x: Nonces, y: Nonces)
    ensures q[a := x][a := y] == q[a := y]
  {}

  lemma DropUpdated(q: Senders, a: nat, x: Nonces)
    ensures q[a := x] - {a} == q - {a}
  {}

  lemma SetTwice(q: Senders, a: nat, x: Nonces, y: Nonces, l: Nonces)
    ensures SetList(q[a := x][a := y], a, l) == SetList(q, a, l)
  {
    assert q[a := x][a := y] - {a} == q - {a};
    assert q[a := x][a := y][a := l] == q[a := l];
  }

  lemma MakePromotion(l: Nonces, chain: nat, over: Tx -> bool, start: nat, cap: Option<nat>, payable: Nonces, run: Nonces)
    requires payable == WhereNot(From(l, chain), over) && IsReadyRun(payable, start, run) && Part(run, payable)
    ensures IsPromotion(l, chain, over, start, cap, run, Capped(Rest(payable, run), cap))
  {}

  lemma ApartOf(p: Senders, q: Senders, all: set<Tx>, f: set<Tx>)
    requires Agrees(p, q, all, f)
    ensures Apart(p, q)
  {}

  lemma NoRun(p: Senders, q: Senders, pn: map<nat, nat>, a: nat)
    requires a in q
    ensures JoinList(p, a, map[]) == p && q[a := Rest(q[a], map[])] == q && AfterRun(pn, a, map[]) == pn
  {
    assert Rest(q[a], map[]) == q[a];
  }

  lemma EmptyPromotion(p: Senders, q: Senders, pn: map<nat, nat>, a: nat, chain: nat, over: Tx -> bool, start: nat,
                       cap: Option<nat>)
    requires a !in q
    ensures IsPromotion(ListOf(q, a), chain, over, start, cap, map[], map[])
    ensures JoinList(p, a, map[]) == p && SetList(q, a, map[]) == q && AfterRun(pn, a, map[]) == pn
  {
    assert WhereNot(From(map[], chain), over) == map[];
    assert cap.Some? ==> Lowest(map[], cap.value) == map[];
  }

  lemma LeastExists(m: Nonces)
    requires m != map[]
    ensures exists lo :: IsLeast(m, lo)
  {
    var n: nat :| n in m;
    while exists x :: x in m && x < n
      invariant n in m
      decreases n
    {
      var x :| x in m && x < n;
      n := x;
    }
    assert IsLeast(m, n);
  }

  /** The run from the lowest queued nonce meets no pending nonce. */
  lemma ReadyPart(p: Senders, q: Senders, all: set<Tx>, a: nat, lo: nat)
    requires Agrees(p, q, all, {}) && a in q && IsLeast(q[a], lo)
    ensures var run, rest := RunFrom(q[a], lo), WithoutRun(q[a], lo);
            && Gapless(run, lo, RunEnd(q[a], lo)) && lo < RunEnd(q[a], lo)
            && Movable(a, run, rest) && run.Keys !! ListOf(p, a).Keys
            && Agrees(p, q[a := rest], all, Txs(run)) && rest == Rest(q[a], run) && Part(run, q[a])
            && run != map[] && Greatest(run) + 1 == RunEnd(q[a], lo)
  {
    var run, rest := RunFrom(q[a], lo), WithoutRun(q[a], lo);
    ShrinkQueue(p, q, all, {}, a, rest);
    assert Rest(q[a], rest) == run;
    assert {} + Txs(run) == Txs(run);
    GreatestOfRun(run, lo, RunEnd(q[a], lo));
  }

  lemma RunStarts(p: Senders, a: nat, run: Nonces, lo: nat, e: nat)
    requires Gapless(run, lo, e)
    ensures From(run, lo) == run && JoinList(p, a, Under(run, lo)) == p
  {
    assert Under(run, lo) == map[];
  }

  lemma RunEnds(a: nat, run: Nonces, lo: nat, e: nat)
    requires Gapless(run, lo, e)
    ensures Under(run, e) == run && Txs(From(run, e)) == {}
  {
    assert From(run, e) == map[];
  }

  lemma OneLess(a: nat, m: Nonces, left: Nonces, n: nat)
    requires Movable(a, m, map[]) && Part(left, m) && n in left
    ensures Txs(left) - {m[n]} == Txs(left - {n}) && m[n] in Txs(left)
  {
    forall t | t in Txs(left) && t != m[n] ensures t in Txs(left - {n}) {
      var x :| x in left && left[x] == t;
      assert (left - {n})[x] == t;
    }
    forall t | t in Txs(left - {n}) ensures t in Txs(left) && t != m[n] {
      var x :| x in left - {n} && left[x] == t;
      assert left[x].nonce == x;
    }
  }

  lemma RunStep(p0: Senders, a: nat, run: Nonces, n: nat)
    requires n in run && run.Keys !! ListOf(p0, a).Keys && Movable(a, run, map[])
    ensures var p: Senders := JoinList(p0, a, Under(run, n));
            && n !in ListOf(p, a)
            && JoinList(p0, a, Under(run, n + 1)) == p[a := ListOf(p, a)[n := run[n]]]
            && run[n] in Txs(From(run, n)) && Txs(From(run, n + 1)) == Txs(From(run, n)) - {run[n]}
  {
    var l: Nonces := ListOf(p0, a);
    assert Under(run, n + 1) == Under(run, n)[n := run[n]];
    assert l + Under(run, n)[n := run[n]] == (l + Under(run, n))[n := run[n]];
    assert Under(run, n) == map[] ==> l + Under(run, n) == l;
    assert From(run, n + 1) == From(run, n) - {n};
    assert n !in Under(run, n);
    OneLess(a, run, From(run, n), n);
    hide Under, From, Txs;
  }

  lemma RequeueStep(q0: Senders, a: nat, m: Nonces, left: Nonces, n: nat)
    requires Movable(a, m, ListOf(q0, a)) && Part(left, m) && n in left
    ensures var q := JoinList(q0, a, Rest(m, left));
            && n !in ListOf(q, a)
            && JoinList(q0, a, Rest(m, left - {n})) == q[a := ListOf(q, a)[n := m[n]]]
  {
    var l := ListOf(q0, a);
    assert Rest(m, left - {n}) == Rest(m, left)[n := m[n]];
    assert l + Rest(m, left)[n := m[n]] == (l + Rest(m, left))[n := m[n]];
    assert Rest(m, left) == map[] ==> l + Rest(m, left) == l;
  }

  lemma JoinNone(q: Senders, a: nat, m: Nonces)
    ensures JoinList(q, a, Rest(m, m)) == q
  {
    assert Rest(m, m) == map[];
  }

  lemma JoinWhole(m: Nonces, left: Nonces)
    requires left == map[]
    ensures Txs(left) == {} && Rest(m, left) == m
  {}

  /** A pooled transaction whose nonce is pending is the pending one. */
  lemma TakeFromPending(p: Senders, q: Senders, all: set<Tx>, t: Tx)
    requires Agrees(p, q, all, {}) && t in all && t.nonce in ListOf(p, t.sender)
    ensures var a := t.sender;
            && p[a][t.nonce] == t
            && Agrees(p[a := Under(p[a], t.nonce)], q, all - {t}, Txs(From(p[a], t.nonce + 1)))
            && Movable(a, From(p[a], t.nonce + 1), ListOf(q, a))
  {
    var a, n := t.sender, t.nonce;
    assert Holds(p, t);
    var l := Under(p[a], n);
    ShrinkPending(p, q, all, {}, a, l);
    assert {} + Txs(Rest(p[a], l)) == Txs(Rest(p[a], l));
    assert Txs(From(p[a], n + 1)) == Txs(Rest(p[a], l)) - {t};
    Forget(p[a := l], q, all, Txs(Rest(p[a], l)), {t});
  }

  lemma TakeFromQueue(p: Senders, q: Senders, all: set<Tx>, t: Tx)
    requires Agrees(p, q, all, {}) && t in all && t.nonce !in ListOf(p, t.sender)
    ensures t.sender in q && Agrees(p, q[t.sender := q[t.sender] - {t.nonce}], all - {t}, {})
  {
    var a, n := t.sender, t.nonce;
    assert Holds(q, t);
    var l := q[a] - {n};
    ShrinkQueue(p, q, all, {}, a, l);
    assert {} + Txs(Rest(q[a], l)) == {t};
    Forget(p, q[a := l], all, {t}, {t});
    assert {t} - {t} == {};
  }

  lemma FloatsInAll(p: Senders, q: Senders, all: set<Tx>, f: set<Tx>, t: Tx)
    requires Agrees(p, q, all, f) && t in f
    ensures t in all
  {}

  lemma NotTheSame(p: Senders, q: Senders, all: set<Tx>, f: set<Tx>, t: Tx)
    requires Agrees(p, q, all, f) && t in f && t.nonce in ListOf(p, t.sender)
    ensures ListOf(p, t.sender)[t.nonce] != t
  {
    assert !Holds(p, t);
  }

  lemma Shrink(priced: PricedList, live: set<Tx>, less: set<Tx>)
    requires priced.Valid(live) && less <= live
    ensures priced.Valid(less)
  {}

  // ----- What survives promotion -----

  datatype World = World(chain: nat -> nat, balance: nat -> nat, maxGas: nat, locals: set<nat>, config: Config)

  /** How many queued transactions an account may have. */
  function CapOf(w: World, a: nat): Option<nat> {
    if a in w.locals then None else Some(w.config.accountQueue)
  }

  /**
   Account a was promoted from p and q to p1 and q1: a ready run moved over, the
   rest is what may stay, and the pending nonce is the one behind the run.
   */
  ghost predicate Promotes(w: World, pn: map<nat, nat>, p: Senders, q: Senders, pn1: map<nat, nat>, p1: Senders, q1: Senders,
                           a: nat) {
    exists run, rest ::
      && IsPromotion(ListOf(q, a), w.chain(a), Over(w.balance(a), w.maxGas), NonceOf(w.chain, pn, a), CapOf(w, a), run, rest)
      && ListOf(p1, a) == ListOf(p, a) + run && ListOf(q1, a) == rest
      && NonceOf(w.chain, pn1, a) == if run == map[] then NonceOf(w.chain, pn, a) else Greatest(run) + 1
  }

  /** Pending lists only grew. */
  ghost predicate Grew(p0: Senders, p: Senders) {
    forall b :: Part(ListOf(p0, b), ListOf(p, b))
  }

  /** The account has the lists and the pending nonce it had. */
  ghost predicate Untouched(w: World, pn0: map<nat, nat>, p0: Senders, q0: Senders, pn: map<nat, nat>, p: Senders,
                            q: Senders, b: nat) {
    && ListOf(p, b) == ListOf(p0, b) && ListOf(q, b) == ListOf(q0, b)
    && NonceOf(w.chain, pn, b) == NonceOf(w.chain, pn0, b)
  }

  /** The first i accounts were promoted: pending lists grew, and no other account changed. */
  ghost predicate Promoting(w: World, pn0: map<nat, nat>, p0: Senders, q0: Senders, pn: map<nat, nat>, p: Senders, q: Senders,
                            accounts: seq<nat>, i: nat) {
    && i <= |accounts| && Grew(p0, p)
    && (forall b :: b !in accounts[..i] ==> Untouched(w, pn0, p0, q0, pn, p, q, b))
    && (Distinct(accounts) ==> forall j :: 0 <= j < i ==> Promotes(w, pn0, p0, q0, pn, p, q, accounts[j]))
  }

  lemma PromotingStarts(w: World, pn: map<nat, nat>, p: Senders, q: Senders, accounts: seq<nat>)
    ensures Promoting(w, pn, p, q, pn, p, q, accounts, 0)
  {}

  lemma PromotingGrew(w: World, pn0: map<nat, nat>, p0: Senders, q0: Senders, pn: map<nat, nat>, p: Senders, q: Senders,
                      accounts: seq<nat>, i: nat)
    requires Promoting(w, pn0, p0, q0, pn, p, q, accounts, i)
    ensures Grew(p0, p)
  {}

  lemma OthersUntouched(w: World, pn0: map<nat, nat>, p0: Senders, q0: Senders, pn: map<nat, nat>, p: Senders, q: Senders,
                        a: nat, run: Nonces, rest: Nonces, b: nat)
    requires Untouched(w, pn0, p0, q0, pn, p, q, b) && b != a
    ensures Untouched(w, pn0, p0, q0, AfterRun(pn, a, run), JoinList(p, a, run), SetList(q, a, rest), b)
  {}

  lemma NowPromoted(w: World, pn0: map<nat, nat>, p0: Senders, q0: Senders, pn: map<nat, nat>, p: Senders, q: Senders,
                    a: nat, run: Nonces, rest: Nonces)
    requires Untouched(w, pn0, p0, q0, pn, p, q, a)
    requires IsPromotion(ListOf(q, a), w.chain(a), Over(w.balance(a), w.maxGas), NonceOf(w.chain, pn, a), CapOf(w, a), run,
                         rest)
    ensures Promotes(w, pn0, p0, q0, AfterRun(pn, a, run), JoinList(p, a, run), SetList(q, a, rest), a)
  {
    hide IsPromotion, Over, CapOf;
    assert ListOf(p, a) + map[] == ListOf(p, a);
    assert ListOf(JoinList(p, a, run), a) == ListOf(p0, a) + run && ListOf(SetList(q, a, rest), a) == rest;
  }

  lemma StillPromoted(w: World, pn0: map<nat, nat>, p0: Senders, q0: Senders, pn: map<nat, nat>, p: Senders, q: Senders, a: nat,
                      run: Nonces, rest: Nonces, b: nat)
    requires Promotes(w, pn0, p0, q0, pn, p, q, b) && b != a
    ensures Promotes(w, pn0, p0, q0, AfterRun(pn, a, run), JoinList(p, a, run), SetList(q, a, rest), b)
  {
    hide IsPromotion, Over, CapOf;
    assert ListOf(JoinList(p, a, run), b) == ListOf(p, b) && ListOf(SetList(q, a, rest), b) == ListOf(q, b);
  }

  lemma RunIsNew(p0: Senders, p: Senders, q: Senders, w: World, a: nat, start: nat, run: Nonces, rest: Nonces)
    requires Apart(p, q) && Grew(p0, p)
    requires IsPromotion(ListOf(q, a), w.chain(a), Over(w.balance(a), w.maxGas), start, CapOf(w, a), run, rest)
    ensures Grew(p0, JoinList(p, a, run))
  {
    assert run.Keys <= ListOf(q, a).Keys;
    hide IsPromotion;
    forall b ensures Part(ListOf(p0, b), ListOf(JoinList(p, a, run), b)) {
      assert Part(ListOf(p0, b), ListOf(p, b));
    }
  }

  lemma PromotingStep(w: World, pn0: map<nat, nat>, p0: Senders, q0: Senders, pn: map<nat, nat>, p: Senders, q: Senders,
                      accounts: seq<nat>, i: nat, run: Nonces, rest: Nonces)
    requires Promoting(w, pn0, p0, q0, pn, p, q, accounts, i) && i < |accounts| && Apart(p, q)
    requires var a := accounts[i];
             IsPromotion(ListOf(q, a), w.chain(a), Over(w.balance(a), w.maxGas), NonceOf(w.chain, pn, a), CapOf(w, a), run,
                         rest)
    ensures var a := accounts[i];
            Promoting(w, pn0, p0, q0, AfterRun(pn, a, run), JoinList(p, a, run), SetList(q, a, rest), accounts, i + 1)
  {
    hide IsPromotion, AfterRun, JoinList, SetList, NonceOf, Over, CapOf, Apart, ListOf, Promotes, Grew, Untouched;
    var a := accounts[i];
    var pn', p', q' := AfterRun(pn, a, run), JoinList(p, a, run), SetList(q, a, rest);
    RunIsNew(p0, p, q, w, a, NonceOf(w.chain, pn, a), run, rest);
    assert accounts[..i + 1] == accounts[..i] + [a];
    forall b | b !in accounts[..i + 1] ensures Untouched(w, pn0, p0, q0, pn', p', q', b) {
      OthersUntouched(w, pn0, p0, q0, pn, p, q, a, run, rest, b);
    }
    if Distinct(accounts) {
      assert a !in accounts[..i];
      NowPromoted(w, pn0, p0, q0, pn, p, q, a, run, rest);
      forall j | 0 <= j < i ensures Promotes(w, pn0, p0, q0, pn', p', q', accounts[j]) {
        StillPromoted(w, pn0, p0, q0, pn, p, q, a, run, rest, accounts[j]);
      }
    }
  }

  /** What held of all lists still holds, and the first i accounts have been handled. */
  ghost predicate RoundsKeep(w: World, runs: bool, contiguous: bool, payable: bool, pn: map<nat, nat>, p: Senders, q: Senders,
                             accounts: seq<nat>, i: nat) {
    && i <= |accounts|
    && (runs ==> AllRun(p, w.chain, pn))
    && (contiguous ==> Runs(p, q, w.chain, pn))
    && (payable ==> AllPayable(p, w.chain, w.balance, w.maxGas))
    && (forall j :: 0 <= j < i ==> Settled(q, w.chain, pn, accounts[j], CapOf(w, accounts[j]), runs))
  }

  lemma RoundsStart(w: World, runs: bool, contiguous: bool, payable: bool, pn: map<nat, nat>, p: Senders, q: Senders,
                    accounts: seq<nat>)
    requires (runs ==> AllRun(p, w.chain, pn)) && (contiguous ==> Runs(p, q, w.chain, pn))
    requires payable ==> AllPayable(p, w.chain, w.balance, w.maxGas)
    ensures RoundsKeep(w, runs, contiguous, payable, pn, p, q, accounts, 0)
  {}

  lemma RoundKeeps(w: World, runs: bool, contiguous: bool, payable: bool, pn: map<nat, nat>, p: Senders, q: Senders,
                   accounts: seq<nat>, i: nat, run: Nonces, rest: Nonces)
    requires RoundsKeep(w, runs, contiguous, payable, pn, p, q, accounts, i) && i < |accounts| && Apart(p, q)
    requires var a := accounts[i];
             IsPromotion(ListOf(q, a), w.chain(a), Over(w.balance(a), w.maxGas), NonceOf(w.chain, pn, a), CapOf(w, a), run,
                         rest)
    ensures var a := accounts[i];
            && RoundsKeep(w, runs, contiguous, payable, AfterRun(pn, a, run), JoinList(p, a, run), SetList(q, a, rest),
                          accounts, i + 1)
            && SetList(q, a, rest).Keys <= q.Keys
  {
    hide IsPromotion, SetList, JoinList, AfterRun, AllRun, Runs, Settled, Apart, Over, NonceOf, AllPayable, CapOf, ListOf;
    var a := accounts[i];
    PromotionStep(p, q, w.chain, pn, a, Over(w.balance(a), w.maxGas), CapOf(w, a), run, rest, runs);
    PromotionPays(p, ListOf(q, a), w.chain, w.balance, w.maxGas, a, NonceOf(w.chain, pn, a), CapOf(w, a), run, rest);
    forall j | 0 <= j < i && accounts[j] != a
      ensures Settled(SetList(q, a, rest), w.chain, AfterRun(pn, a, run), accounts[j], CapOf(w, accounts[j]), runs)
    {
      StaysSettled(q, SetList(q, a, rest), w.chain, pn, AfterRun(pn, a, run), accounts[j], CapOf(w, accounts[j]), runs);
    }
  }

  lemma RoundsEnd(w: World, runs: bool, contiguous: bool, payable: bool, pn: map<nat, nat>, p: Senders, q: Senders,
                  accounts: seq<nat>)
    requires RoundsKeep(w, runs, contiguous, payable, pn, p, q, accounts, |accounts|)
    ensures (runs ==> AllRun(p, w.chain, pn)) && (contiguous ==> Runs(p, q, w.chain, pn))
    ensures payable ==> AllPayable(p, w.chain, w.balance, w.maxGas)
    ensures forall a :: a in accounts ==> Settled(q, w.chain, pn, a, CapOf(w, a), runs)
  {
    hide AllRun, Runs, AllPayable, Settled, CapOf;
  }

  /** All accounts asked for were promoted, the others are as before. */
  ghost predicate PromotedAll(w: World, pn: map<nat, nat>, p: Senders, q: Senders, pn1: map<nat, nat>, p1: Senders, q1: Senders,
                              accounts: Option<seq<nat>>) {
    forall a {:trigger Promotes(w, pn, p, q, pn1, p1, q1, a)} ::
      if accounts.None? || a in accounts.value then Promotes(w, pn, p, q, pn1, p1, q1, a)
      else Untouched(w, pn, p, q, pn1, p1, q1, a)
  }

  /** An account without a queue is promoted by leaving it alone. */
  lemma NothingToPromote(w: World, pn0: map<nat, nat>, p0: Senders, q0: Senders, pn: map<nat, nat>, p: Senders, q: Senders,
                         a: nat)
    requires a !in q0 && Untouched(w, pn0, p0, q0, pn, p, q, a)
    ensures Promotes(w, pn0, p0, q0, pn, p, q, a)
  {
    hide IsPromotion, Over, CapOf, NonceOf;
    EmptyPromotion(p0, q0, pn0, a, w.chain(a), Over(w.balance(a), w.maxGas), NonceOf(w.chain, pn0, a), CapOf(w, a));
    assert ListOf(p, a) == ListOf(p0, a) + map[];
  }

  lemma PromotingEnds(w: World, pn0: map<nat, nat>, p0: Senders, q0: Senders, pn: map<nat, nat>, p: Senders, q: Senders,
                      accs: seq<nat>, accounts: Option<seq<nat>>)
    requires Promoting(w, pn0, p0, q0, pn, p, q, accs, |accs|)
    requires accounts.Some? ==> accs == accounts.value
    requires accounts.None? ==> Distinct(accs) && forall a :: a in q0 <==> a in accs
    ensures Grew(p0, p)
    ensures accounts.None? || Distinct(accounts.value) ==> PromotedAll(w, pn0, p0, q0, pn, p, q, accounts)
  {
    hide Promotes, Untouched, Grew;
    assert accs[..|accs|] == accs;
    if Distinct(accs) {
      forall a ensures if a in accs then Promotes(w, pn0, p0, q0, pn, p, q, a)
                       else Untouched(w, pn0, p0, q0, pn, p, q, a) {}
      if accounts.None? {
        forall a | a !in accs ensures Promotes(w, pn0, p0, q0, pn, p, q, a) {
          NothingToPromote(w, pn0, p0, q0, pn, p, q, a);
        }
      }
    }
  }

  lemma OnlyOnce(r: seq<nat>, i: nat, j: nat)
    requires i < j < |r| && multiset(r)[r[i]] <= 1
    ensures r[i] != r[j]
  {
    assert r == r[..i] + [r[i]] + r[i + 1..];
    assert r[i + 1..][j - i - 1] == r[j];
    assert r[j] in multiset(r[i + 1..]);
  }

  lemma SetListed(s: set<nat>, r: seq<nat>)
    requires multiset(r) == multiset(s)
    ensures Distinct(r) && forall a :: a in s <==> a in r
  {
    forall i, j | 0 <= i < j < |r| ensures r[i] != r[j] {
      assert multiset(r)[r[i]] <= 1;
      OnlyOnce(r, i, j);
    }
    forall a ensures a in s <==> a in r { assert a in r <==> a in multiset(r); }
  }

  lemma KeysListed(q: Senders, accs: seq<nat>)
    requires multiset(accs) == multiset(q.Keys)
    ensures Distinct(accs) && forall a :: a in q <==> a in accs
  {
    SetListed(q.Keys, accs);
  }

  // ----- The two limits -----

  lemma {:induction false} DistinctSize(s: seq<nat>, keys: set<nat>)
    requires Distinct(s) && forall a :: a in s ==> a in keys
    ensures |s| <= |keys|
  {
    if s != [] {
      var n := |s| - 1;
      assert s == s[..n] + [s[n]];
      DistinctSize(s[..n], keys - {s[n]});
    }
  }

  lemma OffendersFit(p0: Senders, p: Senders, locals: set<nat>, slots: nat, spammers: set<nat>, s: seq<nat>, e: nat)
    requires Stage(p0, p, locals, slots, spammers, s, e)
    ensures |s| <= |p0|
  {
    DistinctSize(s, p0.Keys);
    assert |p0.Keys| == |p0|;
  }

  /**
   What the queue limit does: nothing unless it is exceeded; then remote queues
   go, the most recently active first and each from the top, until the limit is
   met exactly or no remote queue is left.
   */
  ghost predicate QueueCut(q1: Senders, q: Senders, when: map<nat, nat>, locals: set<nat>, config: Config) {
    && (Total(q1) <= config.globalQueue ==> q == q1)
    && (Total(q1) > config.globalQueue ==>
          && Total(q) >= config.globalQueue
          && (Total(q) == config.globalQueue || forall a :: a !in locals ==> ListOf(q, a) == map[]))
    && (forall a :: InitialPart(ListOf(q, a), ListOf(q1, a)))
    && (forall a :: a in locals ==> ListOf(q, a) == ListOf(q1, a))
    && (forall a, b :: b !in locals && Beat(when, a) < Beat(when, b) && ListOf(q, a) != ListOf(q1, a) ==>
          ListOf(q, b) == map[])
  }

  lemma {:induction false} EmptyTotal(q: Senders)
    requires forall a :: a in q ==> q[a] == map[]
    ensures Total(q) == 0
    decreases q.Keys
  {
    hide Total;
    if q == map[] {
      NoneTotal();
    } else {
      var a :| a in q;
      TotalSet(q, a, map[]);
      EmptyTotal(q - {a});
    }
  }

  lemma TwoLists(q: Senders, a: nat, b: nat)
    requires a != b && forall x :: x != a && x != b ==> ListOf(q, x) == map[]
    ensures Total(q) == Size(q, a) + Size(q, b)
  {
    hide Total;
    TotalSet(q, a, map[]);
    TotalSet(q - {a}, b, map[]);
    forall x | x in q - {a} - {b} ensures q[x] == map[] { assert ListOf(q, x) == map[]; }
    EmptyTotal(q - {a} - {b});
  }

  lemma LimitsKept(p1: Senders, p: Senders, q1: Senders, q: Senders, when: map<nat, nat>, locals: set<nat>, config: Config)
    requires PendingCut(p1, p, locals, config) && QueueCut(q1, q, when, locals, config)
    ensures || Total(p) <= config.globalSlots
            || forall a :: a in p && a !in locals ==> Size(p, a) <= config.accountSlots
    ensures Total(q) <= config.globalQueue || forall a :: a !in locals ==> ListOf(q, a) == map[]
  {}

  lemma PartSize(l: Nonces, m: Nonces)
    requires Part(l, m)
    ensures |l| <= |m|
  {
    SetSize(l.Keys, m.Keys);
    assert |l.Keys| == |l| && |m.Keys| == |m|;
  }

  /** Locals keep all they had pending, and nobody falls below the guaranteed slots. */
  lemma Survivors(p0: Senders, p1: Senders, p: Senders, locals: set<nat>, config: Config)
    requires PendingCut(p1, p, locals, config) && Grew(p0, p1)
    ensures forall a :: a in locals ==> Part(ListOf(p0, a), ListOf(p, a))
    ensures forall a :: Size(p, a) >= Size(p0, a) || Size(p, a) >= config.accountSlots
  {
    forall a ensures Size(p, a) >= Size(p0, a) || Size(p, a) >= config.accountSlots {
      PartSize(ListOf(p0, a), ListOf(p1, a));
    }
  }

  // ----- Why a transaction leaves -----

  predicate UselessTo(w: World, t: Tx) {
    t.nonce < w.chain(t.sender) || Over(w.balance(t.sender), w.maxGas)(t)
  }

  /** Exactly these transactions are useless. */
  lemma UselessMeans(w: World, t: Tx)
    ensures UselessTo(w, t) <==> t.nonce < w.chain(t.sender) || t.cost > w.balance(t.sender) || t.gas > w.maxGas
  {}

  /**
   Why promotion drops t: it is behind the chain or not payable, or it is remote
   and beyond its account's queue limit, cut from a large pending list when there
   are too many pending, or evicted from the queue when there are too many queued.
   */
  ghost predicate Leaves(w: World, p1: Senders, q1: Senders, t: Tx) {
    || UselessTo(w, t)
    || (&& t.sender !in w.locals
        && (|| (&& Size(q1, t.sender) == w.config.accountQueue
                && forall n :: n in ListOf(q1, t.sender) ==> n < t.nonce)
            || (&& Total(p1) > w.config.globalSlots && Size(p1, t.sender) > w.config.accountSlots
                && Holds(p1, t))
            || (Total(q1) > w.config.globalQueue && Holds(q1, t))))
  }

  lemma LowestAll(m: Nonces)
    ensures Lowest(m, |m|) == m
  {
    forall n | n in m ensures |NoncesBelow(m, n)| < |m| {
      assert NoncesBelow(m, n) < m.Keys by { assert n in m.Keys && n !in NoncesBelow(m, n); }
      SetSize(NoncesBelow(m, n), m.Keys);
    }
  }

  lemma SameBelow(m: Nonces, n: nat)
    requires n in m && n != Greatest(m)
    ensures NoncesBelow(m - {Greatest(m)}, n) == NoncesBelow(m, n)
  {}

  /** The greatest nonce of a list that is too long is not among the lowest. */
  lemma LowestWithout(m: Nonces, k: nat)
    requires m != map[] && k < |m|
    ensures Lowest(m, k) == Lowest(m - {Greatest(m)}, k)
  {
    hide NoncesBelow, Greatest;
    var g := Greatest(m);
    WithoutLast(m);
    forall n | n in m && n != g ensures NoncesBelow(m - {g}, n) == NoncesBelow(m, n) { SameBelow(m, n); }
  }

  lemma {:induction false} LowestCount(m: Nonces, k: nat)
    requires k <= |m|
    ensures |Lowest(m, k)| == k
    decreases |m|
  {
    hide Lowest, Greatest, NoncesBelow;
    if k == |m| {
      LowestAll(m);
    } else {
      WithoutLast(m);
      LowestCount(m - {Greatest(m)}, k);
      LowestWithout(m, k);
    }
  }

  /** A transaction that a cap takes out lies above as many as the cap allows. */
  lemma BeyondCap(m: Nonces, k: nat, n: nat)
    requires n in m && n !in Lowest(m, k)
    ensures |Lowest(m, k)| == k && forall x :: x in Lowest(m, k) ==> x < n
  {
    SetSize(NoncesBelow(m, n), m.Keys);
    assert |m.Keys| == |m|;
    LowestCount(m, k);
    forall x | x in Lowest(m, k) ensures x < n {
      if x >= n { SetSize(NoncesBelow(m, n), NoncesBelow(m, x)); }
    }
  }

  /** A queued transaction that promotion neither moves nor keeps. */
  lemma WhyPruned(l: Nonces, chain: nat, over: Tx -> bool, start: nat, cap: Option<nat>, run: Nonces, rest: Nonces, n: nat)
    requires IsPromotion(l, chain, over, start, cap, run, rest) && n in l && n !in run && n !in rest
    ensures || n < chain || over(l[n])
            || (cap.Some? && |rest| == cap.value && forall x :: x in rest ==> x < n)
  {
    var payable := WhereNot(From(l, chain), over);
    if n in payable && cap.Some? { BeyondCap(Rest(payable, run), cap.value, n); }
  }

  lemma PromotionParts(l: Nonces, chain: nat, over: Tx -> bool, start: nat, cap: Option<nat>, run: Nonces, rest: Nonces)
    requires IsPromotion(l, chain, over, start, cap, run, rest)
    ensures Part(run, l) && Part(rest, l)
  {
    hide IsReadyRun;
  }

  lemma PromotedHolds(w: World, pn: map<nat, nat>, p: Senders, q: Senders, pn1: map<nat, nat>, p1: Senders, q1: Senders, t: Tx)
    requires Promotes(w, pn, p, q, pn1, p1, q1, t.sender) && Holds(q, t)
    ensures || Holds(p1, t) || Holds(q1, t) || UselessTo(w, t)
            || (&& t.sender !in w.locals && Size(q1, t.sender) == w.config.accountQueue
                && forall n :: n in ListOf(q1, t.sender) ==> n < t.nonce)
  {
    var a := t.sender;
    var over, start, cap := Over(w.balance(a), w.maxGas), NonceOf(w.chain, pn, a), CapOf(w, a);
    var run, rest :| && IsPromotion(ListOf(q, a), w.chain(a), over, start, cap, run, rest)
                     && ListOf(p1, a) == ListOf(p, a) + run && ListOf(q1, a) == rest;
    PromotionParts(ListOf(q, a), w.chain(a), over, start, cap, run, rest);
    if t.nonce !in run && t.nonce !in rest {
      WhyPruned(ListOf(q, a), w.chain(a), over, start, cap, run, rest, t.nonce);
    }
  }

  lemma GoneFrom(p: Senders, q: Senders, all: set<Tx>, p2: Senders, q2: Senders, all2: set<Tx>, t: Tx)
    requires Agrees(p, q, all, {}) && Agrees(p2, q2, all2, {}) && t in all && t !in all2
    ensures (Holds(p, t) || Holds(q, t)) && !Holds(p2, t) && !Holds(q2, t)
  {}

  lemma CutFromPending(p1: Senders, p2: Senders, w: World, t: Tx)
    requires PendingCut(p1, p2, w.locals, w.config) && Holds(p1, t) && !Holds(p2, t)
    ensures Total(p1) > w.config.globalSlots && Size(p1, t.sender) > w.config.accountSlots && t.sender !in w.locals
  {
    hide Total;
  }

  lemma WhyGone(w: World, pn: map<nat, nat>, p: Senders, q: Senders, all: set<Tx>, pn1: map<nat, nat>, p1: Senders, q1: Senders,
                p2: Senders, q2: Senders, all2: set<Tx>, when: map<nat, nat>, accounts: Option<seq<nat>>, t: Tx)
    requires Agrees(p, q, all, {}) && Agrees(p2, q2, all2, {}) && t in all && t !in all2
    requires Grew(p, p1) && PromotedAll(w, pn, p, q, pn1, p1, q1, accounts)
    requires PendingCut(p1, p2, w.locals, w.config) && QueueCut(q1, q2, when, w.locals, w.config)
    ensures Leaves(w, p1, q1, t)
  {
    var a := t.sender;
    GoneFrom(p, q, all, p2, q2, all2, t);
    hide Agrees;
    if Holds(p1, t) {
      CutFromPending(p1, p2, w, t);
    } else if Holds(q1, t) {
      assert Total(q1) > w.config.globalQueue && a !in w.locals by { hide Total; }
    } else {
      hide PendingCut, QueueCut;
      assert Part(ListOf(p, a), ListOf(p1, a));
      assert Promotes(w, pn, p, q, pn1, p1, q1, a);
      PromotedHolds(w, pn, p, q, pn1, p1, q1, t);
    }
  }

  // ----- A new chain head -----

  lemma AllPays(p: Senders, p': Senders, chain: nat -> nat, balance: nat -> nat, maxGas: nat)
    requires forall a :: ListOf(p', a) == if a in p then Executable(p[a], chain(a), Over(balance(a), maxGas)) else map[]
    ensures AllPayable(p', chain, balance, maxGas)
  {
    hide Executable, PayableList, Over;
    forall a ensures PayableList(ListOf(p', a), chain(a), Over(balance(a), maxGas)) {
      if a in p {
        DemotedPays(p[a], chain(a), Over(balance(a), maxGas));
      } else {
        NonePays(chain(a), Over(balance(a), maxGas));
      }
    }
  }

  lemma SyncedRuns(p: Senders, p': Senders, chain: nat -> nat, balance: nat -> nat, maxGas: nat, pn: map<nat, nat>)
    requires forall a :: a in p ==> Unbroken(p[a])
    requires forall a :: ListOf(p', a) == if a in p then Executable(p[a], chain(a), Over(balance(a), maxGas)) else map[]
    requires forall a :: a in p' ==> p'[a] != map[]
    requires forall a :: NonceOf(chain, pn, a) == if a in p' then Greatest(p'[a]) + 1 else chain(a)
    ensures AllRun(p', chain, pn)
  {
    hide Executable, Over, Unbroken;
    forall a ensures Run(p', chain, pn, a) {
      if a in p {
        DemotedRun(p[a], chain(a), Over(balance(a), maxGas));
      } else {
        assert Gapless(ListOf(p', a), chain(a), chain(a));
      }
      SyncedRun(p', chain, pn, a);
    }
  }
}
