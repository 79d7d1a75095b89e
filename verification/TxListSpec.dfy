/**
 What a nonce-sorted transaction list means: a map from nonces to transactions,
 and the parts of it that the list operations keep or take out.
 */
module TxListSpec {
  /** A transaction; `id` stands for whatever else its hash covers, so a transaction is its own hash. */
  datatype Tx = Tx(id: nat, sender: nat, nonce: nat, price: nat, gas: nat, cost: nat)

  type Nonces = map<nat, Tx>

  predicate Keyed(m: Nonces) {
    forall n :: n in m ==> m[n].nonce == n
  }

  function With(m: Nonces, t: Tx): Nonces { m[t.nonce := t] }

  function Under(m: Nonces, t: nat): Nonces { map n | n in m && n < t :: m[n] }

  function From(m: Nonces, t: nat): Nonces { map n | n in m && n >= t :: m[n] }

  function Where(m: Nonces, f: Tx -> bool): Nonces { map n | n in m && f(m[n]) :: m[n] }

  function WhereNot(m: Nonces, f: Tx -> bool): Nonces { map n | n in m && !f(m[n]) :: m[n] }

  // ----- The sorted listing of a map -----

  predicate Increasing(s: seq<Tx>) {
    forall i, j :: 0 <= i < j < |s| ==> s[i].nonce < s[j].nonce
  }

  /** s lists the transactions of m by increasing nonce. */
  predicate Listing(s: seq<Tx>, m: Nonces) {
    && Increasing(s)
    && (forall x :: x in s ==> x.nonce in m && m[x.nonce] == x)
    && (forall n :: n in m ==> m[n] in s)
  }

  lemma ListingWithoutLast(s: seq<Tx>, m: Nonces)
    requires Listing(s, m) && Keyed(m) && |s| > 0
    ensures var last := s[|s| - 1];
            last.nonce in m && Listing(s[..|s| - 1], m - {last.nonce}) && Keyed(m - {last.nonce})
  {
    var k := |s| - 1;
    assert s[k] in s;
    forall n | n in m && n != s[k].nonce ensures m[n] in s[..k] {
      var i :| 0 <= i < |s| && s[i] == m[n];
      assert s[..k][i] == m[n];
    }
  }

  lemma {:induction false} ListingSize(s: seq<Tx>, m: Nonces)
    requires Listing(s, m) && Keyed(m)
    ensures |s| == |m|
  {
    if s == [] {
      assert m == map[];
    } else {
      ListingWithoutLast(s, m);
      hide Listing, Keyed;
      var n := s[|s| - 1].nonce;
      ListingSize(s[..|s| - 1], m - {n});
      assert m.Keys == (m - {n}).Keys + {n};
    }
  }

  /** The low nonces are a prefix of the listing, the high ones the rest. */
  lemma ListingSplits(s: seq<Tx>, m: Nonces, k: nat, t: nat)
    requires Listing(s, m) && Keyed(m) && k <= |s|
    requires forall i :: 0 <= i < k ==> s[i].nonce < t
    requires forall i :: k <= i < |s| ==> s[i].nonce >= t
    ensures Listing(s[..k], Under(m, t)) && Listing(s[k..], From(m, t))
  {
    forall n | n in Under(m, t) ensures m[n] in s[..k] {
      var i :| 0 <= i < |s| && s[i] == m[n];
      assert s[..k][i] == m[n];
    }
    forall n | n in From(m, t) ensures m[n] in s[k..] {
      var i :| 0 <= i < |s| && s[i] == m[n];
      assert s[k..][i - k] == m[n];
    }
  }

  /** A listing determines where the nonces under t end. */
  lemma SplitPoint(s: seq<Tx>, m: Nonces, t: nat, low: seq<Tx>)
    requires Listing(s, m) && Keyed(m) && Listing(low, Under(m, t))
    ensures |low| <= |s| && Listing(s[|low|..], From(m, t))
  {
    var k := 0;
    while k < |s| && s[k].nonce < t
      invariant 0 <= k <= |s|
      invariant forall i :: 0 <= i < k ==> s[i].nonce < t
    {
      k := k + 1;
    }
    ListingSplits(s, m, k, t);
    ListingSize(s[..k], Under(m, t));
    ListingSize(low, Under(m, t));
  }

  // ----- Keeping the lowest nonces -----

  function NoncesBelow(m: Nonces, n: nat): set<nat> { set x | x in m && x < n }

  /** The k transactions of lowest nonce. */
  function Lowest(m: Nonces, k: nat): Nonces { map n | n in m && |NoncesBelow(m, n)| < k :: m[n] }

  function Highest(m: Nonces, k: nat): Nonces { map n | n in m && |NoncesBelow(m, n)| >= k :: m[n] }

  lemma NothingBetween(s: seq<Tx>, m: Nonces, i: nat, n: nat)
    requires Listing(s, m) && Keyed(m) && i < |s| && n in m && n < s[i].nonce
    ensures i > 0 && n <= s[i - 1].nonce
  {
    var j :| 0 <= j < |s| && s[j] == m[n];
  }

  lemma {:induction false} RankInListing(s: seq<Tx>, m: Nonces, i: nat)
    requires Listing(s, m) && Keyed(m) && i < |s|
    ensures |NoncesBelow(m, s[i].nonce)| == i
  {
    var below := NoncesBelow(m, s[i].nonce);
    forall n | n in below ensures i > 0 && n <= s[i - 1].nonce { NothingBetween(s, m, i, n); }
    if i == 0 {
      assert below == {};
    } else {
      RankInListing(s, m, i - 1);
      assert s[i - 1] in s;
      assert below == NoncesBelow(m, s[i - 1].nonce) + {s[i - 1].nonce};
    }
  }

  lemma Position(s: seq<Tx>, m: Nonces, n: nat) returns (i: nat)
    requires Listing(s, m) && Keyed(m) && n in m
    ensures i < |s| && s[i] == m[n] && |NoncesBelow(m, n)| == i
  {
    i :| 0 <= i < |s| && s[i] == m[n];
    RankInListing(s, m, i);
  }

  lemma PrefixLists(s: seq<Tx>, m: Nonces)
    requires Increasing(s)
    requires forall i :: 0 <= i < |s| ==> s[i].nonce in m && m[s[i].nonce] == s[i]
    requires forall n :: n in m ==> m[n] in s
    ensures Listing(s, m)
  {}

  lemma LowestListed(s: seq<Tx>, m: Nonces, k: nat)
    requires Listing(s, m) && Keyed(m) && k <= |s|
    ensures Listing(s[..k], Lowest(m, k))
  {
    hide NoncesBelow;
    var t, l := s[..k], Lowest(m, k);
    assert Increasing(t);
    forall i | 0 <= i < k ensures t[i].nonce in l && l[t[i].nonce] == t[i] {
      assert s[i] in s;
      RankInListing(s, m, i);
    }
    hide Listing, Keyed;
    forall n | n in l ensures l[n] in t {
      var i := Position(s, m, n);
      assert t[i] == l[n];
    }
    PrefixLists(t, l);
  }

  lemma HighestListed(s: seq<Tx>, m: Nonces, k: nat)
    requires Listing(s, m) && Keyed(m) && k <= |s|
    ensures Listing(s[k..], Highest(m, k))
  {
    hide NoncesBelow;
    var t, l := s[k..], Highest(m, k);
    assert Increasing(t);
    forall i | 0 <= i < |t| ensures t[i].nonce in l && l[t[i].nonce] == t[i] {
      assert s[k + i] in s;
      RankInListing(s, m, k + i);
    }
    hide Listing, Keyed;
    forall n | n in l ensures l[n] in t {
      var i := Position(s, m, n);
      assert t[i - k] == l[n];
    }
    PrefixLists(t, l);
  }

  lemma LowestIsPrefix(s: seq<Tx>, m: Nonces, k: nat)
    requires Listing(s, m) && Keyed(m) && k <= |s|
    ensures Listing(s[..k], Lowest(m, k)) && Listing(s[k..], Highest(m, k))
  {
    hide Listing, NoncesBelow, Keyed;
    LowestListed(s, m, k);
    HighestListed(s, m, k);
  }

  // ----- The run that is ready to go -----

  /** The first nonce at or after n that m does not hold. */
  function RunEnd(m: Nonces, n: nat): (e: nat)
    ensures e >= n && e !in m && forall x :: n <= x < e ==> x in m
    decreases From(m, n).Keys
  {
    if n in m then
      assert From(m, n + 1).Keys < From(m, n).Keys by { assert n in From(m, n) && n !in From(m, n + 1); }
      RunEnd(m, n + 1)
    else n
  }

  predicate IsLeast(m: Nonces, n: nat) {
    n in m && forall x :: x in m ==> n <= x
  }

  /** The unbroken run of nonces from lo. */
  function RunFrom(m: Nonces, lo: nat): Nonces {
    var e := RunEnd(m, lo);
    map n | n in m && lo <= n < e :: m[n]
  }

  function WithoutRun(m: Nonces, lo: nat): Nonces {
    var e := RunEnd(m, lo);
    map n | n in m && !(lo <= n < e) :: m[n]
  }

  // ----- Strict lists -----

  /** What survives a filter when nothing may follow a removed nonce. */
  function StrictKept(m: Nonces, f: Tx -> bool): Nonces {
    map n | n in m && (forall x :: x in m && x <= n ==> !f(m[x])) :: m[n]
  }

  /** What is not filtered out itself but follows something that is. */
  function StrictInvalid(m: Nonces, f: Tx -> bool): Nonces {
    map n | n in m && !f(m[n]) && (exists x :: x in m && x < n && f(m[x])) :: m[n]
  }

  /** Filtered, invalidated and kept transactions partition the list. */
  lemma StrictPartition(m: Nonces, f: Tx -> bool)
    ensures Where(m, f).Keys + StrictInvalid(m, f).Keys + StrictKept(m, f).Keys == m.Keys
    ensures Where(m, f).Keys !! StrictInvalid(m, f).Keys && Where(m, f).Keys !! StrictKept(m, f).Keys
    ensures StrictInvalid(m, f).Keys !! StrictKept(m, f).Keys
  {
    forall n | n in m ensures n in Where(m, f) || n in StrictInvalid(m, f) || n in StrictKept(m, f) {
      if !f(m[n]) && n !in StrictKept(m, f) {
        var x :| x in m && x <= n && f(m[x]);
      }
    }
  }

  /** The nonces of m are exactly lo, lo + 1, ..., hi - 1. */
  ghost predicate Gapless(m: Nonces, lo: nat, hi: nat) {
    lo <= hi && forall n :: n in m <==> lo <= n < hi
  }

  /** A gap-free list stays gap-free after a strict filter. */
  lemma StrictKeptGapless(m: Nonces, f: Tx -> bool, lo: nat, hi: nat)
    requires Gapless(m, lo, hi)
    ensures exists e: nat :: lo <= e <= hi && Gapless(StrictKept(m, f), lo, e)
  {
    var e := lo;
    while e < hi && !f(m[e])
      invariant lo <= e <= hi && forall x :: lo <= x < e ==> !f(m[x])
    {
      e := e + 1;
    }
    assert Gapless(StrictKept(m, f), lo, e);
  }
}
