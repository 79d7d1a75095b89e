/**
 The arithmetic of the pending limit: what it means to trim lists from the top,
 and when a trimming is fair.
 */
module TxPoolFairness {
  import opened TxListSpec
  import opened TxPoolSpec

  function Size(p: Senders, a: nat): nat { |ListOf(p, a)| }

  /** l keeps the lowest nonces of m and nothing else. */
  predicate InitialPart(l: Nonces, m: Nonces) {
    Part(l, m) && forall n, x :: n in l && x in m && x <= n ==> x in l
  }

  /** Every list of p is the initial part of the list it was in p0. */
  predicate Trimmed(p0: Senders, p: Senders) {
    p.Keys == p0.Keys && forall a :: a in p0 ==> InitialPart(p[a], p0[a])
  }

  lemma GreatestExists(m: Nonces)
    requires m != map[]
    ensures exists n :: n in m && forall x :: x in m ==> x <= n
  {
    var n :| n in m;
    while exists x :: x in m && x > n
      invariant n in m
      decreases From(m, n).Keys
    {
      var x :| x in m && x > n;
      assert n in From(m, n) && n !in From(m, x);
      n := x;
    }
  }

  /** The last nonce of a list. */
  function Greatest(m: Nonces): (n: nat)
    requires m != map[]
    ensures n in m && forall x :: x in m ==> x <= n
  {
    GreatestExists(m);
    var n :| n in m && forall x :: x in m ==> x <= n;
    n
  }

  lemma SetSize(a: set<nat>, b: set<nat>)
    requires a <= b
    ensures |a| <= |b| && (a < b ==> |a| < |b|)
  {
    assert b == a + (b - a);
  }

  lemma WithoutLast(m: Nonces)
    requires m != map[]
    ensures |m| > 0 && |(m - {Greatest(m)}).Keys| == |m| - 1 && |m - {Greatest(m)}| == |m| - 1
    ensures NoncesBelow(m, Greatest(m)) == (m - {Greatest(m)}).Keys
  {
    var g := Greatest(m);
    assert m.Keys == (m - {g}).Keys + {g};
  }

  lemma BelowLast(m: Nonces, n: nat)
    requires n in m && n != Greatest(m)
    ensures |NoncesBelow(m, n)| < |m| - 1
  {
    WithoutLast(m);
    assert n in (m - {Greatest(m)}).Keys && n !in NoncesBelow(m, n);
    SetSize(NoncesBelow(m, n), (m - {Greatest(m)}).Keys);
  }

  /** Capping a list at one less than its length takes out its last nonce. */
  lemma CapByOne(m: Nonces)
    requires m != map[]
    ensures |m| > 0 && Lowest(m, |m| - 1) == m - {Greatest(m)} && |m - {Greatest(m)}| == |m| - 1
    ensures InitialPart(m - {Greatest(m)}, m)
  {
    hide NoncesBelow;
    WithoutLast(m);
    forall n | n in m && n != Greatest(m) ensures |NoncesBelow(m, n)| < |m| - 1 { BelowLast(m, n); }
  }

  lemma CutAgrees(p: Senders, q: Senders, all: set<Tx>, a: nat)
    requires Agrees(p, q, all, {}) && a in p && p[a] != map[]
    ensures var g := Greatest(p[a]);
            Agrees(p[a := p[a] - {g}], q, all - {p[a][g]}, {})
  {
    var g := Greatest(p[a]);
    var l, t := p[a] - {g}, p[a][g];
    ShrinkPending(p, q, all, {}, a, l);
    assert Rest(p[a], l) == map[g := t];
    assert {} + Txs(Rest(p[a], l)) == {t};
    Forget(p[a := l], q, all, {t}, {t});
    assert {t} - {t} == {};
  }

  lemma TrimMore(p0: Senders, p: Senders, a: nat, l: Nonces)
    requires Trimmed(p0, p) && a in p && InitialPart(l, p[a])
    ensures Trimmed(p0, p[a := l])
  {}

  lemma TrimmedPart(p0: Senders, p: Senders, a: nat)
    requires Trimmed(p0, p) && a in p
    ensures forall n :: n in p[a] ==> n in ListOf(p0, a)
  {}

  lemma TrimmedKeys(p0: Senders, p: Senders)
    requires Trimmed(p0, p)
    ensures p.Keys == p0.Keys
  {}

  lemma SameSize(p0: Senders, p: Senders, a: nat)
    requires a in p0 && a in p && p[a] == p0[a]
    ensures Size(p, a) == Size(p0, a)
  {}

  // ----- Fairness -----

  /** Nobody is cut below the guaranteed slots; locals and small accounts are left alone. */
  ghost predicate Spares(p0: Senders, p: Senders, locals: set<nat>, slots: nat) {
    && Trimmed(p0, p)
    && (forall a :: a in p0 && (a in locals || Size(p0, a) <= slots) ==> p[a] == p0[a])
    && (forall a :: a in p0 && Size(p0, a) > slots ==> Size(p, a) >= slots)
  }

  /** Whoever was cut ends up with at least as much as any other remote account. */
  ghost predicate Fair(p0: Senders, p: Senders, locals: set<nat>) {
    forall a, b :: a in p0 && b in p0 && b !in locals && Size(p, a) < Size(p0, a) ==> Size(p, b) <= Size(p, a)
  }

  ghost predicate Distinct(s: seq<nat>) {
    forall i, j :: 0 <= i < j < |s| ==> s[i] != s[j]
  }

  /** The accounts of s all have `size` transactions. */
  ghost predicate Level(p: Senders, s: seq<nat>, size: nat) {
    forall i :: 0 <= i < |s| ==> s[i] in p && Size(p, s[i]) == size
  }

  /** p' is p with one transaction less for each of the first k accounts of s. */
  ghost predicate CutFirst(p: Senders, p': Senders, s: seq<nat>, k: nat) {
    && k <= |s| && p'.Keys == p.Keys
    && (forall i :: 0 <= i < k ==> s[i] in p && Size(p', s[i]) == Size(p, s[i]) - 1)
    && (forall a :: a in p && a !in s[..k] ==> p'[a] == p[a])
  }

  lemma CutFirstStep(p: Senders, p': Senders, s: seq<nat>, i: nat)
    requires CutFirst(p, p', s, i) && Distinct(s) && i < |s| && s[i] in p && p[s[i]] != map[]
    ensures s[i] in p' && p'[s[i]] == p[s[i]]
    ensures var l := p[s[i]];
            |l| > 0 && CutFirst(p, p'[s[i] := l - {Greatest(l)}], s, i + 1)
  {
    hide Lowest, InitialPart, Greatest;
    var a := s[i];
    assert a !in s[..i];
    CapByOne(p[a]);
    assert forall b :: b in s[..i + 1] <==> b in s[..i] || b == a by { assert s[..i + 1] == s[..i] + [a]; }
  }

  // ----- The stages of the equalising loop -----

  /**
   s are the offenders so far, in the order they were taken, and `spammers` the
   large accounts not yet taken. All offenders but the last have e transactions.
   */
  ghost predicate Stage(p0: Senders, p: Senders, locals: set<nat>, slots: nat, spammers: set<nat>, s: seq<nat>, e: nat) {
    && Trimmed(p0, p) && Distinct(s)
    && (forall a :: a in spammers ==> a in p0 && a !in locals && a !in s)
    && (forall a :: a in s ==> a in p0 && a !in locals)
    && (forall a :: a in p0 && a !in locals ==> (Size(p0, a) > slots <==> a in spammers || a in s))
    && (forall a :: a in p0 && a !in s ==> p[a] == p0[a])
    && (|s| > 0 ==>
          var last := s[|s| - 1];
          && p[last] == p0[last] && e >= Size(p, last) && Level(p, s[..|s| - 1], e)
          && (forall b :: b in spammers ==> Size(p0, b) <= Size(p, last)))
  }

  /** All offenders have been brought down to the size of the last one. */
  ghost predicate Even(p: Senders, s: seq<nat>, e: nat) {
    |s| > 1 ==> e == Size(p, s[|s| - 1])
  }

  lemma EvenIsLevel(p0: Senders, p: Senders, locals: set<nat>, slots: nat, spammers: set<nat>, s: seq<nat>, e: nat)
    requires Stage(p0, p, locals, slots, spammers, s, e) && Even(p, s, e) && |s| > 0
    ensures Level(p, s, Size(p, s[|s| - 1]))
  {
    assert s == s[..|s| - 1] + [s[|s| - 1]];
    assert s[|s| - 1] in s;
    forall i | 0 <= i < |s| ensures s[i] in p && Size(p, s[i]) == Size(p, s[|s| - 1]) {
      if i < |s| - 1 { assert s[..|s| - 1][i] == s[i]; }
    }
  }

  /** The next spammer joins, and those before it have been cut down towards its size. */
  lemma StagePop(p0: Senders, p: Senders, p': Senders, locals: set<nat>, slots: nat, spammers: set<nat>,
                 s: seq<nat>, e: nat, x: nat, e': nat)
    requires Stage(p0, p, locals, slots, spammers, s, e) && x in spammers
    requires forall b :: b in spammers ==> Size(p0, b) <= Size(p0, x)
    requires Trimmed(p0, p') && (forall a :: a in p && a !in s ==> p'[a] == p[a])
    requires Level(p', s, e') && e' >= Size(p0, x)
    ensures Stage(p0, p', locals, slots, spammers - {x}, s + [x], e')
  {
    hide Trimmed, Level, Size, InitialPart;
    var s' := s + [x];
    assert s'[..|s'| - 1] == s;
    assert forall a :: a in s' <==> a in s || a == x;
    TrimmedKeys(p0, p);
    TrimmedKeys(p0, p');
    assert p'[x] == p[x] == p0[x];
    assert Size(p', x) == Size(p0, x) by { SameSize(p0, p', x); }
  }

  lemma StageSpares(p0: Senders, p: Senders, locals: set<nat>, slots: nat, spammers: set<nat>, s: seq<nat>, e: nat)
    requires Stage(p0, p, locals, slots, spammers, s, e)
    ensures Spares(p0, p, locals, slots) && Fair(p0, p, locals)
    ensures spammers == {} && s == [] ==> forall a :: a in p && a !in locals ==> Size(p, a) <= slots
  {
    forall a | a in p0 && a in s ensures Size(p, a) > slots && (a != s[|s| - 1] ==> Size(p, a) == e) {
      var i :| 0 <= i < |s| && s[i] == a;
      assert s[|s| - 1] in s;
      if i < |s| - 1 { assert s[..|s| - 1][i] == a; }
    }
  }

  /** Cutting all offenders down together keeps them level. */
  lemma LevelSpares(p0: Senders, p: Senders, p': Senders, locals: set<nat>, slots: nat, s: seq<nat>, e: nat, e': nat)
    requires Stage(p0, p, locals, slots, {}, s, e) && |s| > 0
    requires Trimmed(p0, p') && (forall a :: a in p && a !in s ==> p'[a] == p[a])
    requires Level(p', s, e') && slots <= e'
    ensures Spares(p0, p', locals, slots) && Fair(p0, p', locals)
    ensures e' == slots ==> forall a :: a in p' && a !in locals ==> Size(p', a) <= slots
  {
    forall a | a in s ensures Size(p', a) == e' {
      var i :| 0 <= i < |s| && s[i] == a;
    }
  }

  lemma RoundIsLevel(p: Senders, p': Senders, s: seq<nat>, e: nat)
    requires Level(p, s, e) && CutFirst(p, p', s, |s|) && e > 0
    ensures Level(p', s, e - 1) && forall a :: a in p && a !in s ==> p'[a] == p[a]
  {
    assert s[..|s|] == s;
  }

  lemma LargestExists(p: Senders, spammers: set<nat>)
    requires spammers != {}
    ensures exists x :: x in spammers && forall b :: b in spammers ==> Size(p, b) <= Size(p, x)
  {
    var x :| x in spammers;
    var seen := {x};
    while seen != spammers
      invariant seen <= spammers && x in seen && forall b :: b in seen ==> Size(p, b) <= Size(p, x)
      decreases spammers - seen
    {
      assert spammers - seen != {};
      var y :| y in spammers - seen;
      if Size(p, y) > Size(p, x) { x := y; }
      seen := seen + {y};
    }
  }
}
