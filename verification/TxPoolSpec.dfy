/**
 What it means for the five overlapping structures of the transaction pool to
 agree, stated on values: per-sender lists `p` (pending) and `q` (queue), the
 set `all`, and, in the middle of an operation, the transactions `f` that are
 in `all` but have been taken out of their list.
 */
module TxPoolSpec {
  import opened Basics
  import opened TxListSpec

  type Senders = map<nat, Nonces>

  function ListOf(m: Senders, a: nat): Nonces { if a in m then m[a] else map[] }

  /** t is filed in m under its own sender and nonce. */
  predicate Holds(m: Senders, t: Tx) {
    t.sender in m && t.nonce in m[t.sender] && m[t.sender][t.nonce] == t
  }

  predicate Filed(m: Senders) {
    forall a, n :: a in m && n in m[a] ==> m[a][n].sender == a && m[a][n].nonce == n
  }

  /** No sender has the same nonce pending and queued. */
  predicate Apart(p: Senders, q: Senders) {
    forall a :: a in p && a in q ==> p[a].Keys !! q[a].Keys
  }

  ghost predicate Agrees(p: Senders, q: Senders, all: set<Tx>, f: set<Tx>) {
    && Filed(p) && Filed(q) && Apart(p, q)
    && (forall t :: t in all <==> Holds(p, t) || Holds(q, t) || t in f)
    && (forall t :: t in f ==> !Holds(p, t) && !Holds(q, t))
  }

  function Txs(m: Nonces): set<Tx> { set n | n in m :: m[n] }

  predicate Part(l: Nonces, m: Nonces) {
    forall n :: n in l ==> n in m && l[n] == m[n]
  }

  /** What m holds and l does not. */
  function Rest(m: Nonces, l: Nonces): Nonces { map n | n in m && n !in l :: m[n] }

  function SetList(m: Senders, a: nat, l: Nonces): Senders {
    if l == map[] then m - {a} else m[a := l]
  }

  // ----- How the agreement moves with the lists -----

  lemma ShrinkQueue(p: Senders, q: Senders, all: set<Tx>, f: set<Tx>, a: nat, l: Nonces)
    requires Agrees(p, q, all, f) && a in q && Part(l, q[a])
    ensures Agrees(p, q[a := l], all, f + Txs(Rest(q[a], l)))
  {
    var q' := q[a := l];
    forall t ensures Holds(q, t) <==> Holds(q', t) || t in Txs(Rest(q[a], l)) {
      if Holds(q, t) && t.sender == a && t.nonce !in l { assert Rest(q[a], l)[t.nonce] == t; }
    }
  }

  lemma ShrinkPending(p: Senders, q: Senders, all: set<Tx>, f: set<Tx>, a: nat, l: Nonces)
    requires Agrees(p, q, all, f) && a in p && Part(l, p[a])
    ensures Agrees(p[a := l], q, all, f + Txs(Rest(p[a], l)))
  {
    var p' := p[a := l];
    forall t ensures Holds(p, t) <==> Holds(p', t) || t in Txs(Rest(p[a], l)) {
      if Holds(p, t) && t.sender == a && t.nonce !in l { assert Rest(p[a], l)[t.nonce] == t; }
    }
  }

  lemma DropEmptyQueue(p: Senders, q: Senders, all: set<Tx>, f: set<Tx>, a: nat)
    requires Agrees(p, q, all, f) && a in q && q[a] == map[]
    ensures Agrees(p, q - {a}, all, f)
  {
    forall t ensures Holds(q - {a}, t) <==> Holds(q, t) {}
  }

  lemma DropEmptyPending(p: Senders, q: Senders, all: set<Tx>, f: set<Tx>, a: nat)
    requires Agrees(p, q, all, f) && a in p && p[a] == map[]
    ensures Agrees(p - {a}, q, all, f)
  {
    forall t ensures Holds(p - {a}, t) <==> Holds(p, t) {}
  }

  lemma Forget(p: Senders, q: Senders, all: set<Tx>, f: set<Tx>, gone: set<Tx>)
    requires Agrees(p, q, all, f) && gone <= f
    ensures Agrees(p, q, all - gone, f - gone)
  {}

  /** t moves into the queue, pushing out whatever had its nonce there. */
  lemma IntoQueue(p: Senders, q: Senders, all: set<Tx>, f: set<Tx>, t: Tx)
    requires Agrees(p, q, all, f) && (t in f || t !in all) && t.nonce !in ListOf(p, t.sender)
    ensures var l: Nonces := ListOf(q, t.sender);
            var out := if t.nonce in l then {l[t.nonce]} else {};
            Agrees(p, q[t.sender := l[t.nonce := t]], all - out + {t}, f - {t})
  {
    var l: Nonces := ListOf(q, t.sender);
    var q' := q[t.sender := l[t.nonce := t]];
    var out := if t.nonce in l then {l[t.nonce]} else {};
    assert !Holds(q, t);
    forall x ensures Holds(q', x) <==> (Holds(q, x) && x !in out) || x == t {}
  }

  lemma IntoPending(p: Senders, q: Senders, all: set<Tx>, f: set<Tx>, t: Tx)
    requires Agrees(p, q, all, f) && (t in f || t !in all) && t.nonce !in ListOf(q, t.sender)
    ensures var l: Nonces := ListOf(p, t.sender);
            var out := if t.nonce in l then {l[t.nonce]} else {};
            Agrees(p[t.sender := l[t.nonce := t]], q, all - out + {t}, f - {t})
  {
    var l: Nonces := ListOf(p, t.sender);
    var p' := p[t.sender := l[t.nonce := t]];
    var out := if t.nonce in l then {l[t.nonce]} else {};
    assert !Holds(p, t);
    forall x ensures Holds(p', x) <==> (Holds(p, x) && x !in out) || x == t {}
  }

  // ----- Counting -----

  ghost function Sizes(m: Senders): map<nat, int> {
    map a | a in m :: |m[a]|
  }

  /** How many transactions the lists hold together. */
  ghost function Total(m: Senders): nat {
    SumIsNat(Sizes(m));
    SumOf(Sizes(m))
  }

  lemma TotalSet(m: Senders, a: nat, l: Nonces)
    ensures Total(m[a := l]) == Total(m) - |ListOf(m, a)| + |l|
    ensures Total(m - {a}) == Total(m) - |ListOf(m, a)|
  {
    SumUpdate(Sizes(m), a, |l|);
    assert Sizes(m[a := l]) == Sizes(m)[a := |l|] && Sizes(m - {a}) == Sizes(m) - {a};
  }

  function JoinList(q: Senders, a: nat, m: Nonces): Senders {
    if m == map[] then q else q[a := ListOf(q, a) + m]
  }

  // ----- Gap-free pending lists -----

  function NonceOf(chain: nat -> nat, pn: map<nat, nat>, a: nat): nat {
    if a in pn then pn[a] else chain(a)
  }

  /** a's pending list is exactly the run from the chain nonce to the pending nonce. */
  ghost predicate Run(p: Senders, chain: nat -> nat, pn: map<nat, nat>, a: nat) {
    Gapless(ListOf(p, a), chain(a), NonceOf(chain, pn, a))
  }

  ghost predicate Beyond(q: Senders, chain: nat -> nat, pn: map<nat, nat>, a: nat) {
    forall n :: n in ListOf(q, a) ==> n >= NonceOf(chain, pn, a)
  }

  ghost predicate Runs(p: Senders, q: Senders, chain: nat -> nat, pn: map<nat, nat>) {
    forall a {:trigger Run(p, chain, pn, a)} {:trigger Beyond(q, chain, pn, a)} ::
      Run(p, chain, pn, a) && Beyond(q, chain, pn, a)
  }

  lemma RemovalKeepsRuns(p: Senders, q: Senders, chain: nat -> nat, pn: map<nat, nat>, a: nat, n: nat)
    requires Runs(p, q, chain, pn)
    ensures var l := ListOf(p, a);
            if n in l then
              Runs(SetList(p, a, Under(l, n)), JoinList(q, a, From(l, n + 1)), chain,
                   if NonceOf(chain, pn, a) > n then pn[a := n] else pn)
            else
              Runs(p, SetList(q, a, ListOf(q, a) - {n}), chain, pn)
  {
    var l := ListOf(p, a);
    if n in l {
      var p', q', pn' := SetList(p, a, Under(l, n)), JoinList(q, a, From(l, n + 1)), pn[a := n];
      assert Run(p, chain, pn, a) && Beyond(q, chain, pn, a);
      forall b ensures Run(p', chain, pn', b) && Beyond(q', chain, pn', b) {
        assert Run(p, chain, pn, b) && Beyond(q, chain, pn, b);
        if b == a {
          assert ListOf(p', a) == Under(l, n);
          assert Run(p', chain, pn', a);
          assert ListOf(q', a) == ListOf(q, a) + From(l, n + 1);
          assert Beyond(q', chain, pn', a);
        } else {
          assert ListOf(p', b) == ListOf(p, b) && ListOf(q', b) == ListOf(q, b);
        }
      }
    } else {
      var q' := SetList(q, a, ListOf(q, a) - {n});
      forall b ensures Run(p, chain, pn, b) && Beyond(q', chain, pn, b) {
        assert Run(p, chain, pn, b) && Beyond(q, chain, pn, b);
        assert ListOf(q', b) == if b == a then ListOf(q, a) - {n} else ListOf(q, b);
      }
    }
  }
}
