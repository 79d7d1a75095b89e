/**
 The light client's transaction pool of light/txpool.go: local transactions
 move between pending and mined as the chain head moves.
 */
module LightPools {
  import opened Chains
  import opened Forks

  /** True means mined, false rolled back, no entry no change. */
  type Changes = map<Tx, bool>

  const TX_PERMANENT := 500

  function SetState(txc: Changes, t: Tx, mined: bool): Changes {
    if t in txc && txc[t] != mined then txc - {t} else txc[t := mined]
  }

  /** The net difference between two pending sets. */
  function Net(before: set<Tx>, after: set<Tx>): Changes {
    map t | t in (before - after) + (after - before) :: t in before
  }

  ghost predicate IsNet(txc: Changes, before: set<Tx>, after: set<Tx>) {
    txc == Net(before, after)
  }

  /** t occurs more than once. */
  ghost predicate Twice(s: seq<Tx>, t: Tx) {
    exists i, j :: 0 <= i < j < |s| && s[i] == t && s[j] == t
  }

  ghost predicate Distinct(s: seq<Tx>) {
    forall i, j :: 0 <= i < j < |s| ==> s[i] != s[j]
  }

  /** A mined transaction is on one list and not pending. */
  ghost predicate Separate(pending: set<Tx>, mined: map<Hash, seq<Tx>>) {
    && (forall h, t :: h in mined && t in mined[h] ==> t !in pending)
    && (forall h, g, t :: h in mined && g in mined && h != g && t in mined[h] ==> t !in mined[g])
  }

  /** No list names a transaction twice. */
  ghost predicate Unrepeated(mined: map<Hash, seq<Tx>>) {
    forall h :: h in mined ==> Distinct(mined[h])
  }

  function TxSet(s: seq<Tx>): set<Tx> {
    set t | t in s
  }

  /** All of list entered, one after the other. */
  function Marked(txc: Changes, list: seq<Tx>, mined: bool): Changes {
    if list == [] then txc else SetState(Marked(txc, list[..|list| - 1], mined), list[|list| - 1], mined)
  }

  lemma MarkedOne(txc: Changes, list: seq<Tx>, i: nat, mined: bool)
    requires i < |list|
    ensures Marked(txc, list[..i + 1], mined) == SetState(Marked(txc, list[..i], mined), list[i], mined)
    ensures TxSet(list[..i + 1]) == TxSet(list[..i]) + {list[i]}
  {
    assert list[..i + 1] == list[..i] + [list[i]];
  }

  lemma MarkedNone(txc: Changes, list: seq<Tx>, mined: bool)
    ensures Marked(txc, list[..0], mined) == txc && TxSet(list[..0]) == {} && list[..|list|] == list
  {}

  lemma TwiceMore(s: seq<Tx>, x: Tx, t: Tx)
    ensures Twice(s + [x], t) <==> Twice(s, t) || (t in s && x == t)
    ensures t in s + [x] <==> t in s || x == t
  {
    if t in s && x == t {
      var i :| 0 <= i < |s| && s[i] == t;
      assert (s + [x])[i] == t && (s + [x])[|s|] == t;
    } else if Twice(s, t) {
      var i, j :| 0 <= i < j < |s| && s[i] == t && s[j] == t;
      assert (s + [x])[i] == t && (s + [x])[j] == t;
    }
  }

  /**
   What entering a list as mined leaves for one transaction: nothing new if it is
   not on the list; else an entry, unless it was rolled back and is on it once.
   */
  lemma {:induction false} MarkedMined(txc: Changes, list: seq<Tx>, t: Tx)
    ensures var r := Marked(txc, list, true);
            if t !in list then (t in r <==> t in txc) && (t in txc ==> r[t] == txc[t])
            else if t in txc && !txc[t] && !Twice(list, t) then t !in r
            else t in r && r[t]
  {
    if list != [] {
      var n := |list| - 1;
      assert list == list[..n] + [list[n]];
      MarkedMined(txc, list[..n], t);
      TwiceMore(list[..n], list[n], t);
    }
  }

  /** Entering as rolled back what is not entered as mined enters exactly that, however often it is listed. */
  lemma {:induction false} MarkedRolledBack(txc: Changes, list: seq<Tx>, t: Tx)
    requires t in txc ==> !txc[t] || t !in list
    ensures var r := Marked(txc, list, false);
            && (t in r <==> t in txc || t in list)
            && (t in r ==> r[t] == (t in txc && txc[t]))
  {
    if list != [] {
      var n := |list| - 1;
      assert list == list[..n] + [list[n]];
      MarkedRolledBack(txc, list[..n], t);
    }
  }

  /** Those of txs that are pending, in order. */
  function Ours(txs: seq<Tx>, pending: set<Tx>): (r: seq<Tx>)
    ensures forall t :: t in r <==> t in txs && t in pending
  {
    if txs == [] then []
    else
      var n := |txs| - 1;
      assert txs == txs[..n] + [txs[n]];
      Ours(txs[..n], pending) + if txs[n] in pending then [txs[n]] else []
  }

  lemma {:induction false} OursNone(txs: seq<Tx>)
    ensures Ours(txs, {}) == []
  {
    if txs != [] { OursNone(txs[..|txs| - 1]); }
  }

  lemma {:induction false} OursTwice(txs: seq<Tx>, pending: set<Tx>, t: Tx)
    requires t in pending
    ensures Twice(Ours(txs, pending), t) <==> Twice(txs, t)
  {
    if txs != [] {
      var n := |txs| - 1;
      var few := Ours(txs[..n], pending);
      assert txs == txs[..n] + [txs[n]];
      OursTwice(txs[..n], pending, t);
      TwiceMore(txs[..n], txs[n], t);
      TwiceMore(few, txs[n], t);
      assert few + [] == few;
    }
  }

  lemma TwiceNone(s: seq<Tx>)
    ensures Distinct(s) <==> forall t :: !Twice(s, t)
  {
    if !Distinct(s) {
      var i, j :| 0 <= i < j < |s| && s[i] == s[j];
      assert Twice(s, s[i]);
    }
  }

  lemma NotTwice(s: seq<Tx>, t: Tx)
    requires t !in s
    ensures !Twice(s, t)
  {}

  lemma OursDistinct(txs: seq<Tx>, pending: set<Tx>)
    requires Distinct(txs)
    ensures Distinct(Ours(txs, pending))
  {
    hide Twice, Distinct;
    TwiceNone(txs);
    TwiceNone(Ours(txs, pending));
    var ours := Ours(txs, pending);
    forall t ensures !Twice(ours, t) {
      if t in pending { OursTwice(txs, pending, t); } else { NotTwice(ours, t); }
    }
  }

  function ListOf(mined: map<Hash, seq<Tx>>, h: Hash): seq<Tx> {
    if h in mined then mined[h] else []
  }

  /** hashes lists the hashes of c backwards, down to but not including height h. */
  ghost predicate HashedBack(hashOf: Block -> Hash, hashes: seq<Hash>, c: seq<Block>, h: int) {
    -1 <= h < |c| == |hashes| + 1 + h && forall k :: 0 <= k < |hashes| ==> hashes[k] == hashOf(c[|c| - 1 - k])
  }

  lemma HashedNone(hashOf: Block -> Hash, c: seq<Block>)
    ensures HashedBack(hashOf, [], c, |c| - 1)
  {}

  lemma HashedSize(hashOf: Block -> Hash, hashes: seq<Hash>, c: seq<Block>, h: int)
    requires HashedBack(hashOf, hashes, c, h)
    ensures |hashes| == |c| - 1 - h
  {}

  lemma HashedAt(hashOf: Block -> Hash, hashes: seq<Hash>, c: seq<Block>, h: int, i: nat)
    requires HashedBack(hashOf, hashes, c, h) && i < |hashes|
    ensures i < |c| && hashes[i] == hashOf(c[|c| - 1 - i])
  {}

  lemma HashedMore(hashOf: Block -> Hash, hashes: seq<Hash>, c: seq<Block>, h: nat)
    requires HashedBack(hashOf, hashes, c, h)
    ensures HashedBack(hashOf, hashes + [hashOf(c[h])], c, h - 1)
  {}

  ghost function HashesOf(hashOf: Block -> Hash, c: seq<Block>): set<Hash> {
    set b | b in c :: hashOf(b)
  }

  /** The hashes of the blocks from height lo up to hi. */
  ghost function HashesIn(hashOf: Block -> Hash, c: seq<Block>, lo: nat, hi: nat): set<Hash>
    requires lo <= hi <= |c|
  {
    HashesOf(hashOf, c[lo..hi])
  }

  /** The new chain is known down to the fork. */
  ghost predicate Connected(hashOf: Block -> Hash, store: Store, cn: seq<Block>, f: nat) {
    forall n :: 0 <= n && f - 1 <= n < |cn| - 1 ==> Stored(hashOf, store, cn[n])
  }

  /** Walking down the new chain from its end leads to height m: the fork, or else the lowest block before a gap. */
  ghost predicate LeadsTo(hashOf: Block -> Hash, store: Store, cn: seq<Block>, f: nat, m: nat) {
    && f <= m <= |cn| && (forall n :: m <= n < |cn| - 1 ==> Stored(hashOf, store, cn[n]))
    && (m > f ==> m < |cn| && !Stored(hashOf, store, cn[m - 1]))
  }

  lemma LeadsToFork(hashOf: Block -> Hash, store: Store, cn: seq<Block>, f: nat, m: nat)
    requires 0 < f && LeadsTo(hashOf, store, cn, f, m) && (f < |cn| ==> Stored(hashOf, store, cn[f - 1]))
    ensures m == f <==> Connected(hashOf, store, cn, f)
  {}

  /** What is filed as the parent of a chain's block is the chain's block below. */
  lemma ParentOnChain(hashOf: Block -> Hash, store: Store, c: seq<Block>, n: nat)
    requires Hashing(hashOf) && Keyed(hashOf, store) && IsChain(hashOf, c) && 0 < n < |c|
    ensures ParentKey(c[n]) in store <==> Stored(hashOf, store, c[n - 1])
    ensures ParentKey(c[n]) in store ==> store[ParentKey(c[n])] == c[n - 1]
  {}

  lemma SameHash(hashOf: Block -> Hash, a: Block, b: Block)
    requires Hashing(hashOf) && hashOf(a) == hashOf(b)
    ensures a == b
  {}

  lemma HashIn(hashOf: Block -> Hash, c: seq<Block>, lo: nat, hi: nat, n: nat)
    requires lo <= n < hi <= |c|
    ensures hashOf(c[n]) in HashesIn(hashOf, c, lo, hi)
  {
    assert c[lo..hi][n - lo] == c[n];
  }

  /** A hash of blocks lo..hi of a chain is that of a block at such a height. */
  lemma HashAt(hashOf: Block -> Hash, c: seq<Block>, lo: nat, hi: nat, h: Hash) returns (n: nat)
    requires lo <= hi <= |c| && h in HashesIn(hashOf, c, lo, hi)
    ensures lo <= n < hi && h == hashOf(c[n])
  {
    var b :| b in c[lo..hi] && h == hashOf(b);
    var i :| 0 <= i < hi - lo && c[lo..hi][i] == b;
    n := lo + i;
  }

  /** A new block's hash is none of the new blocks below it. */
  lemma HashesApart(hashOf: Block -> Hash, cn: seq<Block>, m: nat, k: nat)
    requires Hashing(hashOf) && IsChain(hashOf, cn) && m <= k < |cn|
    ensures hashOf(cn[k]) !in HashesIn(hashOf, cn, m, k) && hashOf(cn[k]) in HashesIn(hashOf, cn, m, |cn|)
  {
    HashIn(hashOf, cn, m, |cn|, k);
    assert cn[m..|cn|] == cn[m..];
    if hashOf(cn[k]) in HashesIn(hashOf, cn, m, k) {
      var n := HashAt(hashOf, cn, m, k, hashOf(cn[k]));
    }
  }

  /** The hashes of the blocks above height e. */
  lemma HashesAbove(hashOf: Block -> Hash, co: seq<Block>, e: nat, hashes: seq<Hash>)
    requires e < |co| && HashedBack(hashOf, hashes, co, e)
    ensures (set h | h in hashes) == HashesIn(hashOf, co, e + 1, |co|)
  {
    assert co[e + 1..] == co[e + 1..|co|];
    forall h | h in hashes ensures h in HashesIn(hashOf, co, e + 1, |co|) {
      var i :| 0 <= i < |hashes| && hashes[i] == h;
      HashIn(hashOf, co, e + 1, |co|, |co| - 1 - i);
    }
    forall h | h in HashesIn(hashOf, co, e + 1, |co|) ensures h in hashes {
      var n := HashAt(hashOf, co, e + 1, |co|, h);
      assert hashes[|co| - 1 - n] == h;
    }
  }

  /** The chain the pool's head is on after checking the new blocks from m up to k. */
  ghost function HeadChain(co: seq<Block>, e: nat, cn: seq<Block>, m: nat, k: nat): seq<Block>
    requires e < |co| && m <= k <= |cn|
  {
    if k == m then co[..e + 1] else cn[..k]
  }

  /** The canonical hashes of the heights from lo up to hi. */
  ghost function Canonical(canon: nat -> Hash, lo: nat, hi: int): set<Hash> {
    set i: nat | lo <= i < hi :: canon(i)
  }

  /** All lists but some stay. */
  ghost predicate Kept(was: map<Hash, seq<Tx>>, mined: map<Hash, seq<Tx>>, gone: set<Hash>) {
    mined == was - gone
  }

  lemma NothingCleared(mined: map<Hash, seq<Tx>>, canon: nat -> Hash, lo: nat, hi: int)
    ensures hi <= lo || mined == map[] ==> Kept(mined, mined, Canonical(canon, lo, hi))
  {}

  lemma OneCleared(was: map<Hash, seq<Tx>>, mined: map<Hash, seq<Tx>>, canon: nat -> Hash, lo: nat, hi: nat)
    requires lo <= hi && Kept(was, mined, Canonical(canon, lo, hi))
    ensures Kept(was, mined - {canon(hi)}, Canonical(canon, lo, hi + 1))
  {
    assert Canonical(canon, lo, hi + 1) == Canonical(canon, lo, hi) + {canon(hi)};
  }

  /** Some list of a block the old chain does not share with the new one is neither rolled back nor cleared. */
  ghost predicate LeftBehind(hashOf: Block -> Hash, co: seq<Block>, f: nat, e: nat, lists: set<Hash>, cleared: set<Hash>) {
    exists n :: f <= n <= e && n < |co| && hashOf(co[n]) in lists - cleared
  }

  lemma NotAbove(hashOf: Block -> Hash, co: seq<Block>, e: nat, n: nat)
    requires Hashing(hashOf) && IsChain(hashOf, co) && n <= e < |co|
    ensures hashOf(co[n]) !in HashesIn(hashOf, co, e + 1, |co|)
  {
    hide HashesOf, HashesIn;
    if hashOf(co[n]) in HashesIn(hashOf, co, e + 1, |co|) {
      assert co[e + 1..] == co[e + 1..|co|];
      var j := HashAt(hashOf, co, e + 1, |co|, hashOf(co[n]));
    }
  }

  lemma NotOnNew(hashOf: Block -> Hash, co: seq<Block>, cn: seq<Block>, k: nat, n: nat)
    requires Hashing(hashOf) && IsChain(hashOf, co) && IsChain(hashOf, cn) && Fork(co, cn) <= n < |co| && k <= |cn|
    ensures hashOf(co[n]) !in HashesIn(hashOf, cn, 0, k)
  {
    hide HashesOf, HashesIn, Fork;
    if hashOf(co[n]) in HashesIn(hashOf, cn, 0, k) {
      assert cn[..k] == cn[0..k];
      var j := HashAt(hashOf, cn, 0, k, hashOf(co[n]));
      BelowFork(hashOf, co, cn, n);
    }
  }

  lemma KeptOnChain(hashOf: Block -> Hash, co: seq<Block>, e: nat, cn: seq<Block>, m: nat, k: nat, was: set<Hash>,
                    cleared: set<Hash>, h: Hash)
    requires Hashing(hashOf) && IsChain(hashOf, co) && IsChain(hashOf, cn)
    requires e < |co| && e < m <= k <= |cn| && 0 < Fork(co, cn) <= e + 1 && was <= HashesOf(hashOf, co)
    requires k == m || !LeftBehind(hashOf, co, Fork(co, cn), e, was, cleared)
    requires h in was - HashesIn(hashOf, co, e + 1, |co|) + HashesIn(hashOf, cn, m, k) - cleared
    ensures h in HashesOf(hashOf, HeadChain(co, e, cn, m, k))
  {
    hide Fork, HashesOf, IsChain;
    assert co[0..|co|] == co && co[e + 1..|co|] == co[e + 1..] && co[0..e + 1] == co[..e + 1] && cn[0..k] == cn[..k];
    if h in HashesIn(hashOf, cn, m, k) {
      var n := HashAt(hashOf, cn, m, k, h);
      HashIn(hashOf, cn, 0, k, n);
    } else {
      var n := HashAt(hashOf, co, 0, |co|, h);
      if n > e {
        HashIn(hashOf, co, e + 1, |co|, n);
      } else if k == m {
        HashIn(hashOf, co, 0, e + 1, n);
      } else {
        PrefixAt(co, cn, Fork(co, cn));
        HashIn(hashOf, cn, 0, k, n);
      }
    }
  }

  /**
   The lists kept are all of the head's chain exactly if none was left behind
   between the fork and the height where the walk stopped, or no new block was checked.
   */
  lemma ListsOnChain(hashOf: Block -> Hash, co: seq<Block>, e: nat, cn: seq<Block>, m: nat, k: nat, was: set<Hash>,
                     cleared: set<Hash>, lists: set<Hash>)
    requires Hashing(hashOf) && IsChain(hashOf, co) && IsChain(hashOf, cn)
    requires e < |co| && e < m <= k <= |cn| && 0 < Fork(co, cn) <= e + 1 && was <= HashesOf(hashOf, co)
    requires was - HashesIn(hashOf, co, e + 1, |co|) - cleared <= lists
    requires lists <= was - HashesIn(hashOf, co, e + 1, |co|) + HashesIn(hashOf, cn, m, k) - cleared
    ensures lists <= HashesOf(hashOf, HeadChain(co, e, cn, m, k))
            <==> k == m || !LeftBehind(hashOf, co, Fork(co, cn), e, was, cleared)
  {
    hide Fork, HashesOf, Hashing, IsChain;
    assert cn[0..k] == cn[..k];
    var f := Fork(co, cn);
    if k > m && LeftBehind(hashOf, co, f, e, was, cleared) {
      var n :| f <= n <= e && n < |co| && hashOf(co[n]) in was - cleared;
      NotAbove(hashOf, co, e, n);
      NotOnNew(hashOf, co, cn, k, n);
    } else {
      forall h | h in lists ensures h in HashesOf(hashOf, HeadChain(co, e, cn, m, k)) {
        KeptOnChain(hashOf, co, e, cn, m, k, was, cleared, h);
      }
    }
  }

  /** No transaction of the blocks from m up to k is pending. */
  ghost predicate NonePending(cn: seq<Block>, m: nat, k: nat, pending: set<Tx>) {
    forall j, t :: m <= j < k <= |cn| && t in cn[j].txs ==> t !in pending
  }

  lemma NewStep(cn: seq<Block>, m: nat, k: nat, was: set<Tx>, pending: set<Tx>)
    requires m <= k < |cn| && NonePending(cn, m, k, was) && pending <= was - TxSet(cn[k].txs)
    ensures NonePending(cn, m, k + 1, pending)
  {}

  /** All transactions noted as mined in some block. */
  ghost function AllMined(mined: map<Hash, seq<Tx>>): set<Tx> {
    set h, t | h in mined && t in mined[h] :: t
  }

  /** All transactions the pool knows of. */
  ghost function Books(pending: set<Tx>, mined: map<Hash, seq<Tx>>): set<Tx> {
    pending + AllMined(mined)
  }

  /** The pool's two books. */
  datatype Lists = Lists(pending: set<Tx>, mined: map<Hash, seq<Tx>>)

  ghost predicate SameBooks(p: set<Tx>, m: map<Hash, seq<Tx>>, pending: set<Tx>, mined: map<Hash, seq<Tx>>) {
    Books(p, m) == Books(pending, mined)
  }

  lemma SameBooksAgain(p: set<Tx>, m: map<Hash, seq<Tx>>, p1: set<Tx>, m1: map<Hash, seq<Tx>>, p2: set<Tx>,
                       m2: map<Hash, seq<Tx>>)
    requires SameBooks(p, m, p1, m1) && SameBooks(p1, m1, p2, m2)
    ensures SameBooks(p, m, p2, m2)
  {}

  lemma MinedMore(mined: map<Hash, seq<Tx>>, h: Hash, ours: seq<Tx>)
    ensures AllMined(mined[h := ListOf(mined, h) + ours]) == AllMined(mined) + TxSet(ours)
  {
    var more := mined[h := ListOf(mined, h) + ours];
    forall t | t in AllMined(mined) ensures t in AllMined(more) {
      var g :| g in mined && t in mined[g];
      assert g in more && t in more[g];
    }
    forall t | t in TxSet(ours) ensures t in AllMined(more) { assert h in more && t in more[h]; }
    forall t | t in AllMined(more) && t !in TxSet(ours) ensures t in AllMined(mined) {
      var g :| g in more && t in more[g];
      assert g in mined && t in mined[g];
    }
  }

  lemma MinedLess(mined: map<Hash, seq<Tx>>, h: Hash)
    requires h in mined
    ensures AllMined(mined) == AllMined(mined - {h}) + TxSet(mined[h])
  {
    var less := mined - {h};
    forall t | t in AllMined(mined) && t !in TxSet(mined[h]) ensures t in AllMined(less) {
      var g :| g in mined && t in mined[g];
      assert g in less && t in less[g];
    }
    forall t | t in AllMined(less) ensures t in AllMined(mined) {
      var g :| g in less && t in less[g];
      assert g in mined && t in mined[g];
    }
    forall t | t in TxSet(mined[h]) ensures t in AllMined(mined) { assert h in mined && t in mined[h]; }
  }

  lemma MinedFewer(mined: map<Hash, seq<Tx>>, fewer: map<Hash, seq<Tx>>)
    requires fewer.Keys <= mined.Keys && forall h :: h in fewer ==> fewer[h] == mined[h]
    ensures AllMined(fewer) <= AllMined(mined)
  {
    forall t | t in AllMined(fewer) ensures t in AllMined(mined) {
      var g :| g in fewer && t in fewer[g];
      assert g in mined && t in mined[g];
    }
  }

  lemma StillSeparate(pending: set<Tx>, mined: map<Hash, seq<Tx>>, cleared: set<Hash>)
    ensures Separate(pending, mined) ==> Separate(pending, mined - cleared)
    ensures Unrepeated(mined) ==> Unrepeated(mined - cleared)
    ensures AllMined(mined - cleared) <= AllMined(mined)
  {
    MinedFewer(mined, mined - cleared);
  }

  /** No transaction occurs twice in a block from height m on. */
  ghost predicate NoRepeats(cn: seq<Block>, m: nat) {
    forall j :: m <= j < |cn| ==> Distinct(cn[j].txs)
  }

  // ----- What one block does -----

  /**
   A block with hash h and transactions txs is checked while p is pending: what is
   listed for it already, and what it holds of p, is marked as mined and listed.
   With nothing pending it is not looked at.
   */
  ghost predicate CheckStep(h: Hash, txs: seq<Tx>, p: set<Tx>, lists: map<Hash, seq<Tx>>, txc: Changes,
                            p': set<Tx>, lists': map<Hash, seq<Tx>>, r: Changes) {
    if p == {} then p' == p && lists' == lists && r == txc
    else
      var list := ListOf(lists, h) + Ours(txs, p);
      && p' == p - TxSet(list) && r == Marked(txc, list, true)
      && lists' == if list == [] then lists else lists[h := list]
  }

  lemma ListedIsMined(mined: map<Hash, seq<Tx>>, h: Hash, t: Tx)
    requires t in ListOf(mined, h)
    ensures t in AllMined(mined)
  {}

  /** Lists were added for some blocks and none dropped. */
  ghost predicate Grown(was: set<Hash>, lists: set<Hash>, added: set<Hash>) {
    was <= lists <= was + added
  }

  lemma CheckedBooks(h: Hash, txs: seq<Tx>, p: set<Tx>, lists: map<Hash, seq<Tx>>, txc: Changes,
                     p': set<Tx>, lists': map<Hash, seq<Tx>>, r: Changes)
    requires CheckStep(h, txs, p, lists, txc, p', lists', r)
    ensures p' <= p - TxSet(txs) && SameBooks(p, lists, p', lists') && Grown(lists.Keys, lists'.Keys, {h})
    ensures Separate(p, lists) ==> Separate(p', lists') && p' == p - TxSet(txs)
    ensures forall g :: g != h ==> ListOf(lists', g) == ListOf(lists, g)
  {
    hide Ours, AllMined, Marked;
    if p != {} {
      MinedMore(lists, h, Ours(txs, p));
      assert lists[h := ListOf(lists, h) + Ours(txs, p)] == lists' || ListOf(lists, h) + Ours(txs, p) == [];
      forall t | t in ListOf(lists, h) ensures t in AllMined(lists) { ListedIsMined(lists, h, t); }
    }
  }

  /** Something is reported as mined that was not pending before. */
  ghost predicate Wrong(txc: Changes, before: set<Tx>) {
    exists t :: t in txc && txc[t] && t !in before
  }

  lemma WrongIsNotNet(txc: Changes, before: set<Tx>, after: set<Tx>)
    requires Wrong(txc, before)
    ensures !IsNet(txc, before, after)
  {}

  lemma CheckedStaysWrong(h: Hash, txs: seq<Tx>, p: set<Tx>, lists: map<Hash, seq<Tx>>, txc: Changes,
                          p': set<Tx>, lists': map<Hash, seq<Tx>>, r: Changes, before: set<Tx>)
    requires CheckStep(h, txs, p, lists, txc, p', lists', r) && Wrong(txc, before)
    ensures Wrong(r, before)
  {
    hide Ours, Marked;
    var t :| t in txc && txc[t] && t !in before;
    if p != {} { MarkedMined(txc, ListOf(lists, h) + Ours(txs, p), t); }
    assert t in r && r[t];
  }

  /** The list of a block that repeats nothing repeats nothing. */
  lemma CheckedUnrepeated(h: Hash, txs: seq<Tx>, p: set<Tx>, lists: map<Hash, seq<Tx>>, txc: Changes,
                          p': set<Tx>, lists': map<Hash, seq<Tx>>, r: Changes)
    requires CheckStep(h, txs, p, lists, txc, p', lists', r)
    requires Separate(p, lists) && Unrepeated(lists) && Distinct(txs)
    ensures Unrepeated(lists')
  {
    OursDistinct(txs, p);
    hide Ours, Marked;
    var a, b := ListOf(lists, h), Ours(txs, p);
    forall i, j | 0 <= i < j < |a + b| ensures (a + b)[i] != (a + b)[j] {
      assert i < |a| ==> a[i] in a;
      assert j >= |a| ==> b[j - |a|] in b;
    }
  }

  /**
   A block makes the pool misreport if it is looked at and has a list from before, or
   repeats a pending transaction that has just been rolled back.
   */
  ghost predicate Misreports(list: seq<Tx>, txs: seq<Tx>, p: set<Tx>, before: set<Tx>) {
    p != {} && (list != [] || exists t :: t in p - before && Twice(txs, t))
  }

  lemma NotPending(p: set<Tx>, lists: map<Hash, seq<Tx>>, h: Hash, t: Tx)
    requires Separate(p, lists) && t in ListOf(lists, h)
    ensures t !in p
  {}

  lemma TwiceIsIn(s: seq<Tx>, t: Tx)
    requires Twice(s, t)
    ensures t in s
  {}

  lemma CheckedWrong(h: Hash, txs: seq<Tx>, p: set<Tx>, lists: map<Hash, seq<Tx>>, txc: Changes,
                     p': set<Tx>, lists': map<Hash, seq<Tx>>, r: Changes, before: set<Tx>)
    requires CheckStep(h, txs, p, lists, txc, p', lists', r)
    requires Separate(p, lists) && IsNet(txc, before, p)
    requires forall t :: t in ListOf(lists, h) ==> t !in before
    requires Misreports(ListOf(lists, h), txs, p, before)
    ensures Wrong(r, before)
  {
    hide Ours, Marked, Twice, Separate;
    var old', ours := ListOf(lists, h), Ours(txs, p);
    if old' != [] {
      var t := old'[0];
      NotPending(p, lists, h, t);
      MarkedMined(txc, old' + ours, t);
    } else {
      var t :| t in p - before && Twice(txs, t);
      OursTwice(txs, p, t);
      TwiceIsIn(ours, t);
      assert old' + ours == ours;
      MarkedMined(txc, ours, t);
    }
  }

  lemma CheckedNet(h: Hash, txs: seq<Tx>, p: set<Tx>, lists: map<Hash, seq<Tx>>, txc: Changes,
                   p': set<Tx>, lists': map<Hash, seq<Tx>>, r: Changes, before: set<Tx>)
    requires CheckStep(h, txs, p, lists, txc, p', lists', r) && IsNet(txc, before, p)
    requires !Misreports(ListOf(lists, h), txs, p, before)
    ensures IsNet(r, before, p')
  {
    hide Ours, Marked, Twice;
    if p != {} {
      var ours := Ours(txs, p);
      assert ListOf(lists, h) + ours == ours;
      var net := Net(before, p');
      forall t ensures (t in r <==> t in net) && (t in r ==> r[t] == net[t]) {
        MarkedMined(txc, ours, t);
        if t in ours { OursTwice(txs, p, t); }
      }
    }
  }

  // ----- What the rollback of one block does -----

  lemma RolledBackNet(p: set<Tx>, lists: map<Hash, seq<Tx>>, h: Hash, txc: Changes, before: set<Tx>)
    requires Separate(p, lists)
    ensures Separate(p + TxSet(ListOf(lists, h)), lists - {h})
    ensures Unrepeated(lists) ==> Unrepeated(lists - {h})
    ensures AllMined(lists) !! before && IsNet(txc, before, p) ==>
              && IsNet(Marked(txc, ListOf(lists, h), false), before, p + TxSet(ListOf(lists, h)))
              && AllMined(lists - {h}) !! before
  {
    hide Marked, AllMined;
    MinedFewer(lists, lists - {h});
    if AllMined(lists) !! before && IsNet(txc, before, p) {
      var list := ListOf(lists, h);
      var r, net := Marked(txc, list, false), Net(before, p + TxSet(list));
      forall t ensures (t in r <==> t in net) && (t in r ==> r[t] == net[t]) {
        if t in list { ListedIsMined(lists, h, t); }
        MarkedRolledBack(txc, list, t);
      }
    }
  }

  lemma RolledBackBooks(p: set<Tx>, lists: map<Hash, seq<Tx>>, h: Hash)
    ensures SameBooks(p, lists, p + TxSet(ListOf(lists, h)), lists - {h})
  {
    if h in lists { MinedLess(lists, h); } else { assert lists - {h} == lists; }
  }

  lemma NoDifference(p: set<Tx>, mined: map<Hash, seq<Tx>>)
    ensures IsNet(map[], p, p)
    ensures Separate(p, mined) ==> AllMined(mined) !! p
  {}

  lemma RolledBackNone(p: set<Tx>, lists: map<Hash, seq<Tx>>)
    ensures SameBooks(p, lists, p, lists)
  {}

  lemma NotLookedAt(h: Hash, txs: seq<Tx>, was: Lists, txc: Changes)
    requires was.pending == {}
    ensures CheckStep(h, txs, was.pending, was.mined, txc, was.pending, was.mined, txc)
  {}

  lemma NumberOnChain(hashOf: Block -> Hash, c: seq<Block>, n: nat)
    requires IsChain(hashOf, c) && n < |c|
    ensures c[n].number == n
  {}

  /** Lists of the old chain up to height e are for none of the new blocks above it. */
  lemma NoListAbove(hashOf: Block -> Hash, co: seq<Block>, e: nat, cn: seq<Block>, m: nat, lists: set<Hash>)
    requires Hashing(hashOf) && IsChain(hashOf, co) && IsChain(hashOf, cn) && e < |co| && e < m <= |cn|
    requires lists <= HashesOf(hashOf, co) - HashesIn(hashOf, co, e + 1, |co|)
    ensures lists !! HashesIn(hashOf, cn, m, |cn|)
  {
    hide HashesOf, Hashing, IsChain;
    assert cn[m..|cn|] == cn[m..] && co[0..|co|] == co && co[e + 1..|co|] == co[e + 1..];
    forall h | h in lists ensures h !in HashesIn(hashOf, cn, m, |cn|) {
      var n := HashAt(hashOf, co, 0, |co|, h);
      if n > e { HashIn(hashOf, co, e + 1, |co|, n); }
      NumberOnChain(hashOf, co, n);
      if h in HashesIn(hashOf, cn, m, |cn|) {
        var j := HashAt(hashOf, cn, m, |cn|, h);
        NumberOnChain(hashOf, cn, j);
        SameHash(hashOf, co[n], cn[j]);
      }
    }
  }

  lemma ForkIsShared(hashOf: Block -> Hash, store: Store, co: seq<Block>, cn: seq<Block>, m: nat)
    requires 0 < Fork(co, cn) && LeadsTo(hashOf, store, cn, Fork(co, cn), m)
    requires forall i :: 0 <= i && Fork(co, cn) - 1 <= i < |co| ==> Stored(hashOf, store, co[i])
    ensures m == Fork(co, cn) <==> Connected(hashOf, store, cn, Fork(co, cn))
  {
    hide Fork, LeadsTo, Connected;
    PrefixAt(co, cn, Fork(co, cn));
    LeadsToFork(hashOf, store, cn, Fork(co, cn), m);
  }

  // ----- Checking block after block -----

  /** What is still pending before block j, if p was when the blocks from m on began to be checked. */
  ghost function Unmined(p: set<Tx>, cn: seq<Block>, m: nat, j: nat): set<Tx>
    requires j <= |cn|
  {
    if j <= m then p else Unmined(p, cn, m, j - 1) - TxSet(cn[j - 1].txs)
  }

  ghost predicate MisreportsAt(hashOf: Block -> Hash, before: set<Tx>, cn: seq<Block>, m: nat, j: nat, was: Lists)
    requires j < |cn|
  {
    Misreports(ListOf(was.mined, hashOf(cn[j])), cn[j].txs, Unmined(was.pending, cn, m, j), before)
  }

  /** Some block from m up to k makes the pool misreport. */
  ghost predicate Misreported(hashOf: Block -> Hash, before: set<Tx>, cn: seq<Block>, m: nat, k: nat, was: Lists)
    requires k <= |cn|
  {
    exists j {:trigger MisreportsAt(hashOf, before, cn, m, j, was)} ::
      m <= j < k && MisreportsAt(hashOf, before, cn, m, j, was)
  }

  lemma MisreportedMore(hashOf: Block -> Hash, before: set<Tx>, cn: seq<Block>, m: nat, k: nat, was: Lists)
    requires m <= k < |cn|
    ensures Misreported(hashOf, before, cn, m, k + 1, was)
            <==> Misreported(hashOf, before, cn, m, k, was) || MisreportsAt(hashOf, before, cn, m, k, was)
    ensures Unmined(was.pending, cn, m, k + 1) == Unmined(was.pending, cn, m, k) - TxSet(cn[k].txs)
  {
    hide MisreportsAt;
  }

  /** Block j's list is what it was, and what was pending when it was reached and is in the block. */
  ghost predicate ListedAt(hashOf: Block -> Hash, cn: seq<Block>, m: nat, j: nat, was: Lists, lists: map<Hash, seq<Tx>>)
    requires j < |cn|
  {
    ListOf(lists, hashOf(cn[j])) == ListOf(was.mined, hashOf(cn[j])) + Ours(cn[j].txs, Unmined(was.pending, cn, m, j))
  }

  /** So are the lists of all blocks from m up to k that are not cleared. */
  ghost predicate AllListed(hashOf: Block -> Hash, cn: seq<Block>, m: nat, k: nat, was: Lists, lists: map<Hash, seq<Tx>>,
                            cleared: set<Hash>)
    requires k <= |cn|
  {
    forall j {:trigger ListedAt(hashOf, cn, m, j, was, lists)} ::
      m <= j < k && hashOf(cn[j]) !in cleared ==> ListedAt(hashOf, cn, m, j, was, lists)
  }

  lemma ListedMore(hashOf: Block -> Hash, cn: seq<Block>, m: nat, k: nat, was: Lists, last: Lists, txc: Changes, now: Lists,
                   r: Changes)
    requires Hashing(hashOf) && IsChain(hashOf, cn) && m <= k < |cn| && AllListed(hashOf, cn, m, k, was, last.mined, {})
    requires ListOf(last.mined, hashOf(cn[k])) == ListOf(was.mined, hashOf(cn[k]))
    requires last.pending == Unmined(was.pending, cn, m, k)
    requires CheckStep(hashOf(cn[k]), cn[k].txs, last.pending, last.mined, txc, now.pending, now.mined, r)
    ensures AllListed(hashOf, cn, m, k + 1, was, now.mined, {})
  {
    hide Unmined, Marked;
    OursNone(cn[k].txs);
    assert ListOf(now.mined, hashOf(cn[k])) == ListOf(last.mined, hashOf(cn[k])) + Ours(cn[k].txs, last.pending);
    forall j | m <= j < k + 1 ensures ListedAt(hashOf, cn, m, j, was, now.mined) {
      if j < k {
        assert cn[j].number != cn[k].number && ListedAt(hashOf, cn, m, j, was, last.mined);
        assert ListOf(now.mined, hashOf(cn[j])) == ListOf(last.mined, hashOf(cn[j]));
      }
    }
  }

  lemma ListedUncleared(hashOf: Block -> Hash, cn: seq<Block>, m: nat, k: nat, was: Lists, lists: map<Hash, seq<Tx>>,
                        cleared: set<Hash>)
    requires k <= |cn| && AllListed(hashOf, cn, m, k, was, lists, {})
    ensures AllListed(hashOf, cn, m, k, was, lists - cleared, cleared)
  {
    forall j | m <= j < k && hashOf(cn[j]) !in cleared ensures ListedAt(hashOf, cn, m, j, was, lists - cleared) {
      assert ListedAt(hashOf, cn, m, j, was, lists);
    }
  }

  /** The changes so far are exact, and lists, pending and what was pending before are apart. */
  ghost predicate Clean(before: set<Tx>, pending: set<Tx>, mined: map<Hash, seq<Tx>>, txc: Changes) {
    IsNet(txc, before, pending) && Separate(pending, mined) && AllMined(mined) !! before
  }

  /** What is pending so far is exact; so are the changes, unless a block made the pool misreport. */
  ghost predicate Marking(hashOf: Block -> Hash, before: set<Tx>, cn: seq<Block>, m: nat, k: nat, was: Lists, now: Lists,
                          txc: Changes)
    requires k <= |cn|
  {
    && Separate(now.pending, now.mined) && AllMined(was.mined) !! before
    && now.pending == Unmined(was.pending, cn, m, k) && AllListed(hashOf, cn, m, k, was, now.mined, {})
    && if Misreported(hashOf, before, cn, m, k, was) then Wrong(txc, before) else IsNet(txc, before, now.pending)
  }

  /** Lists and pending stay apart, and lists repeat nothing that blocks do not. */
  ghost predicate StillUnrepeated(cn: seq<Block>, m: nat, was: Lists, now: Lists) {
    && (Separate(was.pending, was.mined) ==> Separate(now.pending, now.mined))
    && (Separate(was.pending, was.mined) && Unrepeated(was.mined) && NoRepeats(cn, m) ==> Unrepeated(now.mined))
  }

  /** The lists of blocks not looked at are as before. */
  ghost predicate SameElsewhere(was: map<Hash, seq<Tx>>, now: map<Hash, seq<Tx>>, hashes: set<Hash>) {
    forall h :: h !in hashes ==> ListOf(now, h) == ListOf(was, h)
  }

  lemma ClearedElsewhere(was: map<Hash, seq<Tx>>, now: map<Hash, seq<Tx>>, hashes: set<Hash>, cleared: set<Hash>)
    requires SameElsewhere(was, now, hashes)
    ensures SameElsewhere(was - cleared, now - cleared, hashes)
  {
    forall h | h !in hashes ensures ListOf(now - cleared, h) == ListOf(was - cleared, h) {
      assert ListOf(now, h) == ListOf(was, h);
    }
  }

  /** What holds of the pool's books while the blocks from m up to k have been checked. */
  ghost predicate Checking(hashOf: Block -> Hash, before: set<Tx>, cn: seq<Block>, m: nat, k: nat, exact: bool, was: Lists,
                           now: Lists, txc: Changes) {
    && m <= k <= |cn| && SameBooks(was.pending, was.mined, now.pending, now.mined)
    && Grown(was.mined.Keys, now.mined.Keys, HashesIn(hashOf, cn, m, k))
    && SameElsewhere(was.mined, now.mined, HashesIn(hashOf, cn, m, k))
    && NonePending(cn, m, k, now.pending)
    && StillUnrepeated(cn, m, was, now)
    && (exact ==> Marking(hashOf, before, cn, m, k, was, now, txc))
  }

  lemma CheckingStart(hashOf: Block -> Hash, before: set<Tx>, cn: seq<Block>, m: nat, exact: bool, was: Lists, txc: Changes)
    requires m <= |cn|
    requires exact ==> Clean(before, was.pending, was.mined, txc)
    ensures Checking(hashOf, before, cn, m, m, exact, was, was, txc)
  {
    assert cn[m..m] == [];
  }

  lemma HashesMore(hashOf: Block -> Hash, cn: seq<Block>, m: nat, k: nat)
    requires m <= k < |cn|
    ensures HashesIn(hashOf, cn, m, k + 1) == HashesIn(hashOf, cn, m, k) + {hashOf(cn[k])}
  {
    assert cn[m..k + 1] == cn[m..k] + [cn[k]];
    assert cn[k] in cn[m..k + 1];
  }

  lemma MarkingStep(hashOf: Block -> Hash, before: set<Tx>, cn: seq<Block>, m: nat, k: nat, was: Lists, last: Lists,
                    txc: Changes, now: Lists, r: Changes)
    requires Hashing(hashOf) && IsChain(hashOf, cn) && m <= k < |cn| && Marking(hashOf, before, cn, m, k, was, last, txc)
    requires ListOf(last.mined, hashOf(cn[k])) == ListOf(was.mined, hashOf(cn[k]))
    requires CheckStep(hashOf(cn[k]), cn[k].txs, last.pending, last.mined, txc, now.pending, now.mined, r)
    ensures Marking(hashOf, before, cn, m, k + 1, was, now, r)
  {
    hide CheckStep, Wrong, IsNet, Separate, Unmined, Misreported, TxSet, AllMined, Misreports, AllListed, Hashing, IsChain;
    ListedMore(hashOf, cn, m, k, was, last, txc, now, r);
    var h, txs := hashOf(cn[k]), cn[k].txs;
    CheckedBooks(h, txs, last.pending, last.mined, txc, now.pending, now.mined, r);
    MisreportedMore(hashOf, before, cn, m, k, was);
    if Misreported(hashOf, before, cn, m, k, was) {
      CheckedStaysWrong(h, txs, last.pending, last.mined, txc, now.pending, now.mined, r, before);
    } else if MisreportsAt(hashOf, before, cn, m, k, was) {
      forall t | t in ListOf(last.mined, h) ensures t !in before { ListedIsMined(was.mined, h, t); }
      CheckedWrong(h, txs, last.pending, last.mined, txc, now.pending, now.mined, r, before);
    } else {
      CheckedNet(h, txs, last.pending, last.mined, txc, now.pending, now.mined, r, before);
    }
  }

  lemma CheckingStep(hashOf: Block -> Hash, before: set<Tx>, cn: seq<Block>, m: nat, k: nat, exact: bool, was: Lists,
                     last: Lists, txc: Changes, now: Lists, r: Changes)
    requires Hashing(hashOf) && IsChain(hashOf, cn) && k < |cn|
    requires Checking(hashOf, before, cn, m, k, exact, was, last, txc)
    requires CheckStep(hashOf(cn[k]), cn[k].txs, last.pending, last.mined, txc, now.pending, now.mined, r)
    ensures Checking(hashOf, before, cn, m, k + 1, exact, was, now, r)
  {
    hide Hashing, IsChain, SameBooks, NonePending, HashesOf, HashesIn, CheckStep, Separate, Marking, TxSet, ListOf, Unrepeated,
      Distinct;
    CheckedBooks(hashOf(cn[k]), cn[k].txs, last.pending, last.mined, txc, now.pending, now.mined, r);
    NewStep(cn, m, k, last.pending, now.pending);
    HashesApart(hashOf, cn, m, k);
    HashesMore(hashOf, cn, m, k);
    SameBooksAgain(was.pending, was.mined, last.pending, last.mined, now.pending, now.mined);
    if Separate(last.pending, last.mined) && Unrepeated(last.mined) && NoRepeats(cn, m) {
      CheckedUnrepeated(hashOf(cn[k]), cn[k].txs, last.pending, last.mined, txc, now.pending, now.mined, r);
    }
    if exact { MarkingStep(hashOf, before, cn, m, k, was, last, txc, now, r); }
  }

  /** The changes are the net difference exactly unless the condition holds; then something is reported wrongly. */
  ghost predicate NetUnless(condition: bool, txc: Changes, before: set<Tx>, after: set<Tx>) {
    (IsNet(txc, before, after) <==> !condition) && (condition ==> Wrong(txc, before))
  }

  lemma CheckingEnd(hashOf: Block -> Hash, before: set<Tx>, cn: seq<Block>, m: nat, k: nat, exact: bool, was: Lists,
                    now: Lists, txc: Changes)
    requires Checking(hashOf, before, cn, m, k, exact, was, now, txc)
    ensures SameBooks(was.pending, was.mined, now.pending, now.mined) && NonePending(cn, m, k, now.pending)
    ensures m <= k <= |cn| && Grown(was.mined.Keys, now.mined.Keys, HashesIn(hashOf, cn, m, k))
    ensures StillUnrepeated(cn, m, was, now)
    ensures SameElsewhere(was.mined, now.mined, HashesIn(hashOf, cn, m, k))
    ensures exact ==> now.pending == Unmined(was.pending, cn, m, k) && AllListed(hashOf, cn, m, k, was, now.mined, {})
    ensures exact ==> NetUnless(Misreported(hashOf, before, cn, m, k, was), txc, before, now.pending)
  {}

  /** The books after the blocks above height e have been rolled back. */
  ghost function RolledBack(hashOf: Block -> Hash, was: Lists, co: seq<Block>, e: nat): Lists
    requires e < |co|
  {
    var kept := was.mined - HashesIn(hashOf, co, e + 1, |co|);
    Lists(Books(was.pending, was.mined) - AllMined(kept), kept)
  }

  lemma RolledBackIs(hashOf: Block -> Hash, was: Lists, co: seq<Block>, e: nat, now: Lists)
    requires e < |co| && now.mined == was.mined - HashesIn(hashOf, co, e + 1, |co|)
    requires SameBooks(was.pending, was.mined, now.pending, now.mined)
    requires Separate(was.pending, was.mined) && Separate(now.pending, now.mined)
    ensures now == RolledBack(hashOf, was, co, e) && AllMined(now.mined) !! was.pending
  {
    hide HashesIn;
    assert now.pending !! AllMined(now.mined);
    assert now.pending == Books(was.pending, was.mined) - AllMined(now.mined);
  }

  /** While all lists are of the old chain and no block repeats a transaction, nothing is misreported. */
  lemma OnChainIsNet(hashOf: Block -> Hash, was: Lists, co: seq<Block>, e: nat, cn: seq<Block>, m: nat, k: nat)
    requires Hashing(hashOf) && IsChain(hashOf, co) && IsChain(hashOf, cn) && e < |co| && e < m <= k <= |cn|
    requires was.mined.Keys <= HashesOf(hashOf, co) && NoRepeats(cn, m)
    ensures !Misreported(hashOf, was.pending, cn, m, k, RolledBack(hashOf, was, co, e))
  {
    hide HashesOf, HashesIn, Hashing, IsChain, Books, AllMined, Distinct, Twice, Unmined;
    var kept := RolledBack(hashOf, was, co, e);
    NoListAbove(hashOf, co, e, cn, m, kept.mined.Keys);
    forall j | m <= j < k ensures !MisreportsAt(hashOf, was.pending, cn, m, j, kept) {
      HashesApart(hashOf, cn, m, j);
      TwiceNone(cn[j].txs);
    }
  }

  /** The last new block checked, or the head before. */
  ghost function HeadAfter(hashOf: Block -> Hash, was: Hash, cn: seq<Block>, m: nat, k: nat): Hash
    requires m <= k <= |cn|
  {
    if k == m then was else hashOf(cn[k - 1])
  }

  lemma HeadStays(hashOf: Block -> Hash, was: Hash, cn: seq<Block>, m: nat)
    requires m <= |cn|
    ensures HeadAfter(hashOf, was, cn, m, m) == was
  {}

  lemma HeadMoved(hashOf: Block -> Hash, was: Hash, cn: seq<Block>, m: nat, k: nat)
    requires m < k <= |cn|
    ensures HeadAfter(hashOf, was, cn, m, k) == hashOf(cn[k - 1])
  {}

  /** The blocks and the receipts that can be retrieved at the moment. */
  datatype Odr = Odr(blocks: Store, receipts: set<Key>)

  predicate Delivers(odr: Odr, key: Key) {
    key in odr.blocks && key in odr.receipts
  }

  lemma Retrieved(hashOf: Block -> Hash, blocks: Store, b: Block)
    requires Hashing(hashOf) && Keyed(hashOf, blocks)
    ensures Key(hashOf(b), b.number) in blocks ==> blocks[Key(hashOf(b), b.number)] == b
  {}

  /** What is cleared at the end: nothing after an error, else the canonical hashes old enough. */
  ghost function Clearing(canon: nat -> Hash, err: bool, number: nat, e: nat, clearIdx: nat): set<Hash> {
    if err then {} else Canonical(canon, if e < clearIdx then e else clearIdx, number - TX_PERMANENT)
  }

  class LightPool {
    const hashOf: Block -> Hash
    var head: Hash
    var pending: set<Tx>
    var mined: map<Hash, seq<Tx>>
    var clearIdx: nat

    constructor (hashOf: Block -> Hash, current: Block)
      ensures this.hashOf == hashOf && head == hashOf(current) && clearIdx == current.number
      ensures pending == {} && mined == map[]
    {
      this.hashOf, head, clearIdx, pending, mined := hashOf, hashOf(current), current.number, {}, map[];
    }

    /** A transaction of this client; it must not be pending, and it must be valid now. */
    method Add(t: Tx, valid: bool) returns (err: bool)
      modifies this`pending
      ensures err <==> t in old(pending) || !valid
      ensures pending == if err then old(pending) else old(pending) + {t}
      ensures !err && Separate(old(pending), mined) ==> (Separate(pending, mined) <==> t !in AllMined(mined))
    {
      if t in pending || !valid { return true; }
      pending := pending + {t};
      err := false;
    }

    /** Roll back the transactions mined in a block. */
    method RollbackTxs(hash: Hash, txc: Changes) returns (r: Changes)
      modifies this`pending, this`mined
      ensures mined == old(mined) - {hash}
      ensures pending == old(pending) + TxSet(ListOf(old(mined), hash))
      ensures r == Marked(txc, ListOf(old(mined), hash), false)
    {
      hide TxSet, Marked;
      r := txc;
      var list := ListOf(mined, hash);
      MarkedNone(txc, list, false);
      if hash in mined {
        for i := 0 to |list|
          invariant mined == old(mined) && pending == old(pending) + TxSet(list[..i])
          invariant r == Marked(txc, list[..i], false)
        {
          MarkedOne(txc, list, i, false);
          pending := pending + {list[i]};
          r := SetState(r, list[i], false);
        }
        mined := mined - {hash};
      } else {
        assert mined - {hash} == mined;
      }
    }

    /** Look for pending transactions in a new block; retrieving it or its receipts may fail. */
    method CheckMinedTxs(hash: Hash, number: nat, txc: Changes, odr: Odr) returns (err: bool, r: Changes)
      modifies this`pending, this`mined
      ensures err <==>
                && old(pending) != {}
                && (|| Key(hash, number) !in odr.blocks
                    || (&& ListOf(old(mined), hash) + Ours(odr.blocks[Key(hash, number)].txs, old(pending)) != []
                        && Key(hash, number) !in odr.receipts))
      ensures err || old(pending) == {} ==> pending == old(pending) && mined == old(mined) && r == txc
      ensures !err && Key(hash, number) in odr.blocks ==>
                CheckStep(hash, odr.blocks[Key(hash, number)].txs, old(pending), old(mined), txc, pending, mined, r)
    {
      hide TxSet, Ours, Marked;
      r := txc;
      if pending == {} { return false, r; }
      if Key(hash, number) !in odr.blocks { return true, r; }
      var txs := odr.blocks[Key(hash, number)].txs;
      var list := ListOf(mined, hash) + Ours(txs, pending);
      MarkedNone(txc, list, true);
      if list == [] { return false, r; }
      if Key(hash, number) !in odr.receipts { return true, r; }
      for i := 0 to |list|
        invariant mined == old(mined) && pending == old(pending) - TxSet(list[..i]) && r == Marked(txc, list[..i], true)
      {
        MarkedOne(txc, list, i, true);
        pending := pending - {list[i]};
        r := SetState(r, list[i], true);
      }
      mined := mined[hash := list];
      err := false;
    }

    /**
     Find the last block of the old chain that is also on the new one, unless
     the new one turns out to have a gap, and the hashes above it on both sides.
     */
    method FindAncestor(store: Store, oldHeader: Block, newHeader: Block, ghost co: seq<Block>, ghost cn: seq<Block>)
      returns (base: Block, oldHashes: seq<Hash>, newHashes: seq<Hash>)
      requires Hashing(hashOf) && Keyed(hashOf, store) && IsChain(hashOf, co) && IsChain(hashOf, cn)
      requires |co| > 0 && |cn| > 0 && co[|co| - 1] == oldHeader && cn[|cn| - 1] == newHeader && co[0] == cn[0]
      requires forall i :: 0 <= i && Fork(co, cn) - 1 <= i < |co| ==> Stored(hashOf, store, co[i])
      ensures var e, m := base.number, |cn| - |newHashes|;
              && 0 < Fork(co, cn) <= e + 1 <= m && LeadsTo(hashOf, store, cn, Fork(co, cn), m)
              && e == (if |co| < m then |co| else m) - 1 && base == co[e]
              && HashedBack(hashOf, oldHashes, co, e) && HashedBack(hashOf, newHashes, cn, m - 1)
    {
      hide Fork, HashedBack, Hashing, IsChain;
      HashedNone(hashOf, co);
      HashedNone(hashOf, cn);
      var oldh, newh := oldHeader, newHeader;
      oldHashes, newHashes := [], [];
      ghost var o: nat, n: nat, f: nat, gap := |co| - 1, |cn| - 1, Fork(co, cn), false;
      BelowFork(hashOf, co, cn, 0);
      while hashOf(oldh) != hashOf(newh)
        invariant o < |co| && n < |cn| && oldh == co[o] && newh == (if gap then oldh else cn[n])
        invariant 0 < f <= o + 1 && f <= n + 1
        invariant !gap ==> (o == |co| - 1 || o == n || o > n == |cn| - 1) && (n < |cn| - 1 ==> o <= n)
        invariant gap ==> o == (if |co| < n then |co| else n) - 1 && n > f && !Stored(hashOf, store, cn[n - 1])
        invariant forall j :: n <= j < |cn| - 1 ==> Stored(hashOf, store, cn[j])
        invariant HashedBack(hashOf, oldHashes, co, o) && HashedBack(hashOf, newHashes, cn, if gap then n - 1 else n)
        decreases o + n + if gap then 0 else 1
      {
        assert co[o] != cn[n];
        AboveFork(hashOf, co, cn, o, n);
        NumberOnChain(hashOf, co, o);
        NumberOnChain(hashOf, cn, n);
        if oldh.number >= newh.number {
          HashedMore(hashOf, oldHashes, co, o);
          ParentOnChain(hashOf, store, co, o);
          oldHashes := oldHashes + [hashOf(oldh)];
          oldh := store[Key(oldh.parentHash, oldh.number - 1)];
          o := o - 1;
        }
        if oldh.number < newh.number {
          HashedMore(hashOf, newHashes, cn, n);
          newHashes := newHashes + [hashOf(newh)];
          ParentOnChain(hashOf, store, cn, n);
          if Key(newh.parentHash, newh.number - 1) in store {
            newh := store[Key(newh.parentHash, newh.number - 1)];
            n := n - 1;
          } else {
            gap := true;
            newh := oldh;
          }
        }
      }
      base := oldh;
      HashedSize(hashOf, newHashes, cn, if gap then n - 1 else n);
      NumberOnChain(hashOf, co, o);
      if !gap {
        SameHash(hashOf, co[o], cn[n]);
        NumberOnChain(hashOf, cn, n);
        BelowFork(hashOf, co, cn, o);
      }
    }

    /** Roll back all blocks the head leaves behind. */
    method RollbackAll(oldHashes: seq<Hash>) returns (txc: Changes)
      modifies this`pending, this`mined
      ensures mined == old(mined) - (set h | h in oldHashes) && SameBooks(old(pending), old(mined), pending, mined)
      ensures Separate(old(pending), old(mined)) ==>
                && Separate(pending, mined) && IsNet(txc, old(pending), pending) && AllMined(mined) !! old(pending)
                && (Unrepeated(old(mined)) ==> Unrepeated(mined))
    {
      hide Separate, SameBooks, IsNet, Marked, TxSet, Unrepeated, ListOf, AllMined;
      txc := map[];
      NoDifference(pending, mined);
      RolledBackNone(pending, mined);
      for i := 0 to |oldHashes|
        invariant mined == old(mined) - (set h | h in oldHashes[..i]) && SameBooks(old(pending), old(mined), pending, mined)
        invariant Separate(old(pending), old(mined)) ==>
                    && Separate(pending, mined) && IsNet(txc, old(pending), pending) && AllMined(mined) !! old(pending)
                    && (Unrepeated(old(mined)) ==> Unrepeated(mined))
      {
        assert oldHashes[..i + 1] == oldHashes[..i] + [oldHashes[i]];
        ghost var p, lists := pending, mined;
        if Separate(p, lists) { RolledBackNet(p, lists, oldHashes[i], txc, old(pending)); }
        RolledBackBooks(p, lists, oldHashes[i]);
        txc := RollbackTxs(oldHashes[i], txc);
        SameBooksAgain(old(pending), old(mined), p, lists, pending, mined);
      }
      assert oldHashes[..|oldHashes|] == oldHashes;
    }

    /** Check the new block at height k and move the head there. */
    method CheckNext(hash: Hash, k: nat, txc: Changes, odr: Odr, ghost before: set<Tx>, ghost cn: seq<Block>, ghost m: nat,
                     ghost exact: bool, ghost was: Lists, ghost start: Hash)
      returns (err: bool, r: Changes)
      requires Hashing(hashOf) && IsChain(hashOf, cn) && Keyed(hashOf, odr.blocks)
      requires m <= k < |cn| && hash == hashOf(cn[k])
      requires Checking(hashOf, before, cn, m, k, exact, was, Lists(pending, mined), txc)
      requires head == HeadAfter(hashOf, start, cn, m, k)
      modifies this`pending, this`mined, this`head
      ensures var end := if err then k else k + 1;
              && head == HeadAfter(hashOf, start, cn, m, end) && (err ==> !Delivers(odr, KeyOf(hashOf, cn[k])))
              && Checking(hashOf, before, cn, m, end, exact, was, Lists(pending, mined), r)
    {
      assert KeyOf(hashOf, cn[k]) == Key(hash, k);
      assert Delivers(odr, Key(hash, k)) <==> Key(hash, k) in odr.blocks && Key(hash, k) in odr.receipts;
      hide *;
      NumberOnChain(hashOf, cn, k);
      Retrieved(hashOf, odr.blocks, cn[k]);
      ghost var last := Lists(pending, mined);
      err, r := CheckMinedTxs(hash, k, txc, odr);
      if !err {
        if last.pending == {} { NotLookedAt(hash, cn[k].txs, last, txc); }
        CheckingStep(hashOf, before, cn, m, k, exact, was, last, txc, Lists(pending, mined), r);
        HeadMoved(hashOf, start, cn, m, k + 1);
        head := hash;
      }
    }

    /**
     Check the new blocks in ascending order, stopping at the first that cannot
     be had. The changes stay exact unless a block makes the pool misreport.
     */
    method CheckAll(newHashes: seq<Hash>, newHeader: Block, txc: Changes, odr: Odr,
                    ghost before: set<Tx>, ghost cn: seq<Block>, ghost m: nat)
      returns (err: bool, r: Changes, ghost k: nat)
      requires Hashing(hashOf) && IsChain(hashOf, cn) && 0 < m <= |cn|
      requires cn[|cn| - 1] == newHeader && HashedBack(hashOf, newHashes, cn, m - 1)
      requires Keyed(hashOf, odr.blocks)
      modifies this`pending, this`mined, this`head
      ensures StillUnrepeated(cn, m, Lists(old(pending), old(mined)), Lists(pending, mined))
      ensures m <= k <= |cn| && (!err <==> k == |cn|) && (err ==> !Delivers(odr, KeyOf(hashOf, cn[k])))
      ensures head == HeadAfter(hashOf, old(head), cn, m, k)
      ensures Grown(old(mined).Keys, mined.Keys, HashesIn(hashOf, cn, m, k))
      ensures NonePending(cn, m, k, pending)
      ensures SameBooks(old(pending), old(mined), pending, mined)
      ensures SameElsewhere(old(mined), mined, HashesIn(hashOf, cn, m, k))
      ensures Clean(before, old(pending), old(mined), txc) ==>
                && pending == Unmined(old(pending), cn, m, k)
                && AllListed(hashOf, cn, m, k, Lists(old(pending), old(mined)), mined, {})
                && NetUnless(Misreported(hashOf, before, cn, m, k, Lists(old(pending), old(mined))), r, before, pending)
    {
      hide *;
      ghost var exact := Clean(before, pending, mined, txc);
      ghost var was := Lists(pending, mined);
      CheckingStart(hashOf, before, cn, m, exact, was, txc);
      r, err := txc, false;
      var i := |newHashes|;
      k := m;
      HashedSize(hashOf, newHashes, cn, m - 1);
      NumberOnChain(hashOf, cn, |cn| - 1);
      HeadStays(hashOf, head, cn, m);
      while i > 0
        invariant m <= k <= |cn| && i == |cn| - k
        invariant Checking(hashOf, before, cn, m, k, exact, was, Lists(pending, mined), r)
        invariant head == HeadAfter(hashOf, old(head), cn, m, k)
      {
        i := i - 1;
        var hash := newHashes[i];
        HashedAt(hashOf, newHashes, cn, m - 1, i);
        err, r := CheckNext(hash, newHeader.number - i, r, odr, before, cn, m, exact, was, old(head));
        if err { break; }
        k := k + 1;
      }
      CheckingEnd(hashOf, before, cn, m, k, exact, was, Lists(pending, mined), r);
    }

    /** Forget the mined lists of blocks too old to be rolled back. */
    method ClearOld(number: nat, canon: nat -> Hash)
      modifies this`mined, this`clearIdx
      ensures Kept(old(mined), mined, Canonical(canon, old(clearIdx), number - TX_PERMANENT))
      ensures clearIdx == if number > old(clearIdx) + TX_PERMANENT then number - TX_PERMANENT else old(clearIdx)
    {
      hide Canonical, Kept;
      NothingCleared(mined, canon, clearIdx, number - TX_PERMANENT);
      if number > clearIdx + TX_PERMANENT {
        var idx2 := number - TX_PERMANENT;
        if mined != map[] {
          NothingCleared(mined, canon, clearIdx, clearIdx);
          for i := clearIdx to idx2
            invariant clearIdx == old(clearIdx) && Kept(old(mined), mined, Canonical(canon, clearIdx, i))
          {
            OneCleared(old(mined), mined, canon, clearIdx, i);
            mined := mined - {canon(i)};
          }
        }
        clearIdx := idx2;
      }
    }

    /**
     Roll back and check blocks until the head is on the new chain. Whatever can
     be retrieved, no transaction is lost and the books stay separate.
     */
    method MoveHead(store: Store, oldHeader: Block, newHeader: Block, odr: Odr,
                    ghost co: seq<Block>, ghost cn: seq<Block>)
      returns (err: bool, txc: Changes, ghost e: nat, ghost m: nat, ghost k: nat)
      requires Hashing(hashOf) && Keyed(hashOf, store) && IsChain(hashOf, co) && IsChain(hashOf, cn)
      requires |co| > 0 && |cn| > 0 && co[|co| - 1] == oldHeader && cn[|cn| - 1] == newHeader && co[0] == cn[0]
      requires forall i :: 0 <= i && Fork(co, cn) - 1 <= i < |co| ==> Stored(hashOf, store, co[i])
      requires head == hashOf(oldHeader)
      requires Keyed(hashOf, odr.blocks)
      modifies this
      ensures 0 < Fork(co, cn) <= e + 1 <= m <= k <= |cn|
      ensures (!err <==> k == |cn|) && (err ==> !Delivers(odr, KeyOf(hashOf, cn[k])))
      ensures LeadsTo(hashOf, store, cn, Fork(co, cn), m) && e == (if |co| < m then |co| else m) - 1
      ensures head == hashOf(if k == m then co[e] else cn[k - 1])
      ensures clearIdx == if e < old(clearIdx) then e else old(clearIdx)
      ensures StillUnrepeated(cn, m, Lists(old(pending), old(mined)), Lists(pending, mined))
      ensures NonePending(cn, m, k, pending)
      ensures SameBooks(old(pending), old(mined), pending, mined)
      ensures Grown(old(mined).Keys - HashesIn(hashOf, co, e + 1, |co|), mined.Keys, HashesIn(hashOf, cn, m, k))
      ensures SameElsewhere(old(mined) - HashesIn(hashOf, co, e + 1, |co|), mined, HashesIn(hashOf, cn, m, k))
      ensures Separate(old(pending), old(mined)) ==>
                var kept := RolledBack(hashOf, Lists(old(pending), old(mined)), co, e);
                && pending == Unmined(kept.pending, cn, m, k)
                && AllListed(hashOf, cn, m, k, kept, mined, {})
                && NetUnless(Misreported(hashOf, old(pending), cn, m, k, kept), txc, old(pending), pending)
    {
      hide Fork, HashedBack, Hashing, Separate, HashesOf, HashesIn, NonePending, Books, IsChain, Unrepeated, NoRepeats, IsNet,
        LeadsTo, AllMined, SameBooks, NetUnless, Misreported, RolledBack, Wrong, SameElsewhere,
        Unmined, AllListed;
      var base, oldHashes, newHashes := FindAncestor(store, oldHeader, newHeader, co, cn);
      e, m := base.number, |cn| - |newHashes|;
      if base.number < clearIdx { clearIdx := base.number; }
      txc := RollbackAll(oldHashes);
      HashesAbove(hashOf, co, e, oldHashes);
      assert mined == old(mined) - HashesIn(hashOf, co, e + 1, |co|);
      if Separate(old(pending), old(mined)) {
        RolledBackIs(hashOf, Lists(old(pending), old(mined)), co, e, Lists(pending, mined));
      }
      head := hashOf(base);
      ghost var p, lists := pending, mined;
      err, txc, k := CheckAll(newHashes, newHeader, txc, odr, old(pending), cn, m);
      SameBooksAgain(old(pending), old(mined), p, lists, pending, mined);
    }

    /**
     Move to a new head. Whatever can be retrieved, the books stay separate and
     no transaction is lost but by clearing. The mined lists kept are all for
     blocks of the head's chain if and only if none is left behind between the
     fork and the height where a gap in the new chain stopped the walk. The
     returned changes are the net difference of the pending set if and only if
     no new block checked with something pending has a list that survived the
     rollback or repeats a pending transaction that was rolled back.
     */
    method ReorgOnNewHead(store: Store, oldHeader: Block, newHeader: Block, odr: Odr,
                          canon: nat -> Hash, ghost co: seq<Block>, ghost cn: seq<Block>)
      returns (err: bool, txc: Changes, ghost e: nat, ghost m: nat, ghost k: nat)
      requires Hashing(hashOf) && Keyed(hashOf, store) && IsChain(hashOf, co) && IsChain(hashOf, cn)
      requires |co| > 0 && |cn| > 0 && co[|co| - 1] == oldHeader && cn[|cn| - 1] == newHeader && co[0] == cn[0]
      requires forall i :: 0 <= i && Fork(co, cn) - 1 <= i < |co| ==> Stored(hashOf, store, co[i])
      requires head == hashOf(oldHeader)
      requires Keyed(hashOf, odr.blocks)
      modifies this
      ensures 0 < Fork(co, cn) <= e + 1 <= m <= k <= |cn|
      ensures (!err <==> k == |cn|) && (err ==> !Delivers(odr, KeyOf(hashOf, cn[k])))
      ensures LeadsTo(hashOf, store, cn, Fork(co, cn), m) && e == (if |co| < m then |co| else m) - 1
      ensures head == hashOf(if k == m then co[e] else cn[k - 1])
      ensures StillUnrepeated(cn, m, Lists(old(pending), old(mined)), Lists(pending, mined))
      ensures NonePending(cn, m, k, pending)
      ensures var kept := old(mined) - HashesIn(hashOf, co, e + 1, |co|);
              var cleared := Clearing(canon, err, newHeader.number, e, old(clearIdx));
              && Grown(kept.Keys - cleared, mined.Keys, HashesIn(hashOf, cn, m, k))
              && SameElsewhere(kept - cleared, mined, HashesIn(hashOf, cn, m, k))
      ensures Books(pending, mined) <= Books(old(pending), old(mined))
      ensures var from := if e < old(clearIdx) then e else old(clearIdx);
              clearIdx == if !err && newHeader.number > from + TX_PERMANENT then newHeader.number - TX_PERMANENT else from
      ensures var cleared := Clearing(canon, err, newHeader.number, e, old(clearIdx));
              && (cleared == {} ==> SameBooks(old(pending), old(mined), pending, mined))
              && (old(mined).Keys <= HashesOf(hashOf, co) ==>
                    (mined.Keys <= HashesOf(hashOf, HeadChain(co, e, cn, m, k))
                     <==> k == m || !LeftBehind(hashOf, co, Fork(co, cn), e, old(mined).Keys, cleared)))
      ensures Connected(hashOf, store, cn, Fork(co, cn)) ==> m == Fork(co, cn) == e + 1
      ensures Separate(old(pending), old(mined)) ==>
                var kept := RolledBack(hashOf, Lists(old(pending), old(mined)), co, e);
                && pending == Unmined(kept.pending, cn, m, k)
                && AllListed(hashOf, cn, m, k, kept, mined, Clearing(canon, err, newHeader.number, e, old(clearIdx)))
                && NetUnless(Misreported(hashOf, old(pending), cn, m, k, kept), txc, old(pending), pending)
    {
      hide Fork, HashedBack, Hashing, Separate, HashesOf, HashesIn, NonePending, AllMined, IsChain, Unrepeated, NoRepeats,
        IsNet, LeadsTo, LeftBehind, HeadChain, Canonical, Connected, NetUnless, Misreported, RolledBack, Wrong, SameElsewhere,
        Unmined, AllListed;
      err, txc, e, m, k := MoveHead(store, oldHeader, newHeader, odr, co, cn);
      ForkIsShared(hashOf, store, co, cn, m);
      ghost var was := mined;
      if !err {
        StillSeparate(pending, mined, Canonical(canon, clearIdx, newHeader.number - TX_PERMANENT));
        ClearOld(newHeader.number, canon);
      }
      ghost var cleared := Clearing(canon, err, newHeader.number, e, old(clearIdx));
      assert mined == was - cleared;
      ghost var kept := RolledBack(hashOf, Lists(old(pending), old(mined)), co, e);
      if Separate(old(pending), old(mined)) { ListedUncleared(hashOf, cn, m, k, kept, was, cleared); }
      ClearedElsewhere(old(mined) - HashesIn(hashOf, co, e + 1, |co|), was, HashesIn(hashOf, cn, m, k), cleared);
      if cleared == {} { assert mined == was; }
      if old(mined).Keys <= HashesOf(hashOf, co) {
        ListsOnChain(hashOf, co, e, cn, m, k, old(mined).Keys, cleared, mined.Keys);
      }
    }
  }

  // ----- Runs -----

  lemma NoClearing(canon: nat -> Hash, err: bool, number: nat, e: nat, clearIdx: nat)
    requires number < TX_PERMANENT
    ensures Clearing(canon, err, number, e, clearIdx) == {}
  {}

  /** Where the walk down the new chain stops is determined. */
  lemma LeadsToOne(hashOf: Block -> Hash, store: Store, cn: seq<Block>, f: nat, m: nat, n: nat)
    requires LeadsTo(hashOf, store, cn, f, m) && LeadsTo(hashOf, store, cn, f, n)
    ensures m == n
  {}

  lemma KeptLists(hashOf: Block -> Hash, was: Lists, co: seq<Block>, e: nat)
    requires e < |co|
    ensures RolledBack(hashOf, was, co, e).mined == was.mined - HashesIn(hashOf, co, e + 1, |co|)
    ensures RolledBack(hashOf, was, co, e).mined == was.mined - HashesIn(hashOf, co, e + 1, |co|) - {}
  {}

  /** A move while nothing is old enough to be cleared and everything needed can be had. */
  method Move(pool: LightPool, store: Store, odr: Odr, oldHeader: Block, newHeader: Block, ghost co: seq<Block>,
              ghost cn: seq<Block>, ghost e: nat, ghost m: nat)
    returns (txc: Changes)
    requires Hashing(pool.hashOf) && Keyed(pool.hashOf, store) && IsChain(pool.hashOf, co) && IsChain(pool.hashOf, cn)
    requires |co| > 0 && |cn| > 0 && co[|co| - 1] == oldHeader && cn[|cn| - 1] == newHeader && co[0] == cn[0]
    requires forall i :: 0 <= i < |co| ==> Stored(pool.hashOf, store, co[i])
    requires LeadsTo(pool.hashOf, store, cn, Fork(co, cn), m) && e + 1 == if |co| < m then |co| else m
    requires Keyed(pool.hashOf, odr.blocks) && forall i :: m <= i < |cn| ==> Delivers(odr, KeyOf(pool.hashOf, cn[i]))
    requires pool.head == pool.hashOf(oldHeader) && Separate(pool.pending, pool.mined)
    requires m < |cn| < TX_PERMANENT
    modifies pool
    ensures pool.head == pool.hashOf(newHeader) && Separate(pool.pending, pool.mined)
    ensures SameBooks(old(pool.pending), old(pool.mined), pool.pending, pool.mined)
    ensures var kept := RolledBack(pool.hashOf, Lists(old(pool.pending), old(pool.mined)), co, e);
            && pool.pending == Unmined(kept.pending, cn, m, |cn|)
            && SameElsewhere(kept.mined, pool.mined, HashesIn(pool.hashOf, cn, m, |cn|))
            && NetUnless(Misreported(pool.hashOf, old(pool.pending), cn, m, |cn|, kept), txc, old(pool.pending), pool.pending)
  {
    hide Fork, Hashing, Keyed, IsChain, Separate, SameBooks, LeadsTo, LeftBehind, HashesOf, HashesIn, HeadChain, Clearing,
      Stored, KeyOf, Books, Connected, Unrepeated, NoRepeats, NetUnless, Misreported, Unmined, SameElsewhere, NonePending,
      AllMined, RolledBack, Grown, Delivers;
    NumberOnChain(pool.hashOf, cn, |cn| - 1);
    KeptLists(pool.hashOf, Lists(pool.pending, pool.mined), co, e);
    var canon := (n: nat) => ZERO_HASH;
    ghost var was, f := pool.clearIdx, Fork(co, cn);
    ghost var e', m', k;
    var err;
    err, txc, e', m', k := pool.ReorgOnNewHead(store, oldHeader, newHeader, odr, canon, co, cn);
    LeadsToOne(pool.hashOf, store, cn, f, m, m');
    NoClearing(canon, err, newHeader.number, e', was);
  }

  lemma NothingRolledBack(hashOf: Block -> Hash, was: Lists, co: seq<Block>, e: nat)
    requires e + 1 == |co| && Separate(was.pending, was.mined)
    ensures RolledBack(hashOf, was, co, e) == was
  {
    assert co[e + 1..|co|] == [];
    assert HashesIn(hashOf, co, e + 1, |co|) == {};
    assert was.mined - {} == was.mined && was.pending !! AllMined(was.mined);
  }

  lemma LastBlock(hashOf: Block -> Hash, p: set<Tx>, cn: seq<Block>, m: nat)
    requires m + 1 == |cn|
    ensures Unmined(p, cn, m, |cn|) == p - TxSet(cn[m].txs) && HashesIn(hashOf, cn, m, |cn|) == {hashOf(cn[m])}
  {
    assert cn[m..|cn|] == [cn[m]] && cn[m] in [cn[m]];
  }

  /** One new block is checked and none rolled back: the blocks of the old chain from the fork up stay listed. */
  method Ahead(pool: LightPool, store: Store, odr: Odr, oldHeader: Block, newHeader: Block, ghost co: seq<Block>,
               ghost cn: seq<Block>)
    requires Hashing(pool.hashOf) && Keyed(pool.hashOf, store) && IsChain(pool.hashOf, co) && IsChain(pool.hashOf, cn)
    requires 0 < |co| < |cn| < TX_PERMANENT && co[|co| - 1] == oldHeader && cn[|cn| - 1] == newHeader && co[0] == cn[0]
    requires forall i :: 0 <= i < |co| ==> Stored(pool.hashOf, store, co[i])
    requires LeadsTo(pool.hashOf, store, cn, Fork(co, cn), |cn| - 1)
    requires Keyed(pool.hashOf, odr.blocks) && Delivers(odr, KeyOf(pool.hashOf, newHeader))
    requires pool.head == pool.hashOf(oldHeader) && Separate(pool.pending, pool.mined)
    modifies pool
    ensures pool.head == pool.hashOf(newHeader) && Separate(pool.pending, pool.mined)
    ensures SameBooks(old(pool.pending), old(pool.mined), pool.pending, pool.mined)
    ensures pool.pending == old(pool.pending) - TxSet(newHeader.txs)
    ensures SameElsewhere(old(pool.mined), pool.mined, {pool.hashOf(newHeader)})
  {
    hide Fork, Hashing, Keyed, IsChain, Separate, SameBooks, LeadsTo, HashesOf, HashesIn, Stored, KeyOf, Books, RolledBack,
      NetUnless, Misreported, Unmined, SameElsewhere, AllMined, TxSet, Delivers;
    NothingRolledBack(pool.hashOf, Lists(pool.pending, pool.mined), co, |co| - 1);
    LastBlock(pool.hashOf, pool.pending, cn, |cn| - 1);
    var txc := Move(pool, store, odr, oldHeader, newHeader, co, cn, |co| - 1, |cn| - 1);
  }

  lemma Longer(hashOf: Block -> Hash, store: Store, c: seq<Block>, n: nat)
    requires Hashing(hashOf) && IsChain(hashOf, c) && 0 < n < |c| && Stored(hashOf, store, c[n - 1])
    ensures IsChain(hashOf, c[..n]) && IsChain(hashOf, c[..n + 1])
    ensures Fork(c[..n], c[..n + 1]) == n && LeadsTo(hashOf, store, c[..n + 1], n, n)
  {
    hide Fork;
    var d := c[..n + 1];
    assert d[..n] == c[..n] == c[..n][..n];
    ForkAt(c[..n], d, n);
  }

  /** The head moves up by one block. */
  method Advance(pool: LightPool, store: Store, odr: Odr, c: seq<Block>, n: nat)
    requires Hashing(pool.hashOf) && Keyed(pool.hashOf, store) && IsChain(pool.hashOf, c)
    requires 0 < n < |c| < TX_PERMANENT && forall i :: 0 <= i < n ==> Stored(pool.hashOf, store, c[i])
    requires Keyed(pool.hashOf, odr.blocks) && Delivers(odr, KeyOf(pool.hashOf, c[n]))
    requires pool.head == pool.hashOf(c[n - 1]) && Separate(pool.pending, pool.mined)
    modifies pool
    ensures pool.head == pool.hashOf(c[n]) && Separate(pool.pending, pool.mined)
    ensures SameBooks(old(pool.pending), old(pool.mined), pool.pending, pool.mined)
    ensures pool.pending == old(pool.pending) - TxSet(c[n].txs)
    ensures SameElsewhere(old(pool.mined), pool.mined, {pool.hashOf(c[n])})
  {
    Longer(pool.hashOf, store, c, n);
    hide Fork, Hashing, Keyed, IsChain, LeadsTo, Stored, KeyOf, Delivers, Separate, SameElsewhere, SameBooks, TxSet;
    Ahead(pool, store, odr, c[n - 1], c[n], c[..n], c[..n + 1]);
  }

  lemma FreshBooks(t: Tx)
    ensures AllMined(map[]) == {} && Separate({}, map[]) && Separate({t}, map[])
  {}

  lemma FirstMined(h: Hash, t: Tx, mined: map<Hash, seq<Tx>>)
    requires SameBooks({t}, map[], {}, mined) && SameElsewhere(map[], mined, {h})
    ensures t in ListOf(mined, h) && AllMined(mined) == {t}
  {
    assert t in Books({t}, map[]);
    var g :| g in mined && t in mined[g];
    assert ListOf(mined, g) == mined[g];
  }

  /** A transaction is added and mined in the first block after genesis. */
  method MinedInFirst(hashOf: Block -> Hash, store: Store, odr: Odr, a: seq<Block>) returns (pool: LightPool)
    requires Hashing(hashOf) && Keyed(hashOf, store) && Keyed(hashOf, odr.blocks)
    requires IsChain(hashOf, a) && 1 < |a| < TX_PERMANENT && a[1].txs == [7]
    requires Stored(hashOf, store, a[0]) && Delivers(odr, KeyOf(hashOf, a[1]))
    ensures fresh(pool) && pool.hashOf == hashOf && pool.head == hashOf(a[1]) && Separate(pool.pending, pool.mined)
    ensures pool.pending == {} && 7 in ListOf(pool.mined, hashOf(a[1])) && AllMined(pool.mined) == {7}
  {
    FreshBooks(7);
    hide Fork, Hashing, Keyed, IsChain, LeadsTo, Stored, KeyOf, Delivers, Separate, SameElsewhere, SameBooks, AllMined, ListOf;
    pool := new LightPool(hashOf, a[0]);
    var err := pool.Add(7, true);
    assert {} + {7} == {7};
    Advance(pool, store, odr, a, 1);
    assert pool.pending == {};
    FirstMined(hashOf(a[1]), 7, pool.mined);
  }

  /** A store of some blocks. */
  function Filed(hashOf: Block -> Hash, blocks: seq<Block>): (store: Store)
    requires Hashing(hashOf)
    ensures Keyed(hashOf, store) && forall b :: Stored(hashOf, store, b) <==> b in blocks
  {
    map b | b in blocks :: KeyOf(hashOf, b) := b
  }

  lemma AllDelivered(hashOf: Block -> Hash, store: Store, b: Block)
    requires Stored(hashOf, store, b)
    ensures Delivers(Odr(store, store.Keys), KeyOf(hashOf, b))
  {}

  function Child(hashOf: Block -> Hash, parent: Block, txs: seq<Tx>, extra: nat): Block {
    Block(parent.number + 1, hashOf(parent), 1, txs, extra)
  }

  const GENESIS := Block(0, ZERO_HASH, 1, [], 0)

  /** Three blocks on genesis, the first with the given transactions. */
  function Branch(hashOf: Block -> Hash, txs: seq<Tx>, extra: nat): (c: seq<Block>)
    ensures IsChain(hashOf, c) && |c| == 4 && c[0] == GENESIS
    ensures c[1].txs == txs && c[2].txs == c[3].txs == [] && forall i :: 0 < i < 4 ==> c[i].extra == extra
  {
    var c1 := Child(hashOf, GENESIS, txs, extra);
    var c2 := Child(hashOf, c1, [], extra);
    [GENESIS, c1, c2, Child(hashOf, c2, [], extra)]
  }

  lemma GapChains(hashOf: Block -> Hash, store: Store, a: seq<Block>, b: seq<Block>)
    requires Hashing(hashOf) && IsChain(hashOf, a) && IsChain(hashOf, b) && |a| == 4 && |b| == 4
    requires a[0] == b[0] && a[1].extra != b[1].extra && a[2].extra != b[2].extra
    requires forall c :: Stored(hashOf, store, c) <==> c in [a[0], a[1], a[2], b[3]]
    ensures IsChain(hashOf, a[..3]) && Fork(a[..3], b) == 1 && LeadsTo(hashOf, store, b, 1, 3)
    ensures hashOf(a[1]) !in HashesOf(hashOf, b) && hashOf(a[1]) != hashOf(a[2]) && hashOf(a[1]) != hashOf(b[3])
    ensures TxSet([]) == {}
  {
    hide Fork;
    assert a[..3][..1] == b[..1] && b[0..4] == b;
    ForkAt(a[..3], b, 1);
    NotOnNew(hashOf, a[..3], b, 4, 1);
    assert b[2].number == 2 && a[0].number == 0 && a[1].number == 1 && b[3].number == 3;
    assert !Stored(hashOf, store, b[2]);
  }

  /**
   Genesis, a1 and a2, with a transaction mined in a1, then a new head b3 on
   another branch of which only b3 itself is known: the walk stops at a2, the
   head becomes b3, and the list of a1 stays although a1 is not on b3's chain.
   */
  method GapLeavesList(hashOf: Block -> Hash) returns (pool: LightPool, a: seq<Block>, b: seq<Block>)
    requires Hashing(hashOf)
    ensures a == Branch(hashOf, [7], 0) && b == Branch(hashOf, [], 1)
    ensures fresh(pool) && pool.hashOf == hashOf && pool.head == hashOf(b[3]) && Separate(pool.pending, pool.mined)
    ensures pool.pending == {} && 7 in ListOf(pool.mined, hashOf(a[1])) && AllMined(pool.mined) == {7}
    ensures hashOf(a[1]) !in HashesOf(hashOf, b)
  {
    hide Branch, Fork, Hashing, Keyed, IsChain, LeadsTo, Stored, KeyOf, Delivers, Separate, AllMined, ListOf, Filed, HashesOf,
      TxSet;
    a, b := Branch(hashOf, [7], 0), Branch(hashOf, [], 1);
    var store := Filed(hashOf, [a[0], a[1], a[2], b[3]]);
    var odr := Odr(store, store.Keys);
    GapChains(hashOf, store, a, b);
    AllDelivered(hashOf, store, a[1]);
    AllDelivered(hashOf, store, a[2]);
    AllDelivered(hashOf, store, b[3]);
    pool := MinedInFirst(hashOf, store, odr, a);
    Advance(pool, store, odr, a, 2);
    Ahead(pool, store, odr, a[2], b[3], a[..3], b);
  }

  lemma Returns(hashOf: Block -> Hash, store: Store, co: seq<Block>, cn: seq<Block>)
    requires Hashing(hashOf) && IsChain(hashOf, co) && IsChain(hashOf, cn) && |co| > 1 && |cn| > 1
    requires co[0] == cn[0] && co[1] != cn[1] && forall i :: 0 <= i < |cn| ==> Stored(hashOf, store, cn[i])
    ensures Fork(co, cn) == 1 && LeadsTo(hashOf, store, cn, 1, 1)
    ensures hashOf(cn[1]) !in HashesIn(hashOf, co, 1, |co|)
  {
    hide Fork;
    assert co[..1] == cn[..1];
    ForkAt(co, cn, 1);
    if hashOf(cn[1]) in HashesIn(hashOf, co, 1, |co|) {
      var n := HashAt(hashOf, co, 1, |co|, hashOf(cn[1]));
    }
  }

  /** The head moves to another branch, all of which is known. */
  method Across(pool: LightPool, store: Store, odr: Odr, c: seq<Block>, d: seq<Block>) returns (txc: Changes)
    requires Hashing(pool.hashOf) && Keyed(pool.hashOf, store) && IsChain(pool.hashOf, c) && IsChain(pool.hashOf, d)
    requires 1 < |c| && 1 < |d| < TX_PERMANENT && c[0] == d[0] && c[1] != d[1]
    requires forall i :: 0 <= i < |c| ==> Stored(pool.hashOf, store, c[i])
    requires forall i :: 0 <= i < |d| ==> Stored(pool.hashOf, store, d[i])
    requires odr == Odr(store, store.Keys)
    requires pool.head == pool.hashOf(c[|c| - 1]) && Separate(pool.pending, pool.mined)
    modifies pool
    ensures pool.hashOf(d[1]) !in HashesIn(pool.hashOf, c, 1, |c|)
    ensures var kept := RolledBack(pool.hashOf, Lists(old(pool.pending), old(pool.mined)), c, 0);
            && pool.pending == Unmined(kept.pending, d, 1, |d|)
            && (MisreportsAt(pool.hashOf, old(pool.pending), d, 1, 1, kept) ==> Wrong(txc, old(pool.pending)))
  {
    hide Fork, Hashing, Keyed, IsChain, LeadsTo, Stored, KeyOf, Delivers, Separate, SameBooks, SameElsewhere, AllMined, TxSet,
      RolledBack, HashesOf, HashesIn, Unmined, Wrong, IsNet, MisreportsAt;
    Returns(pool.hashOf, store, c, d);
    forall i | 1 <= i < |d| ensures Delivers(odr, KeyOf(pool.hashOf, d[i])) { AllDelivered(pool.hashOf, store, d[i]); }
    txc := Move(pool, store, odr, c[|c| - 1], d[|d| - 1], c, d, 0, 1);
  }

  /** With 7 listed for d[1] and 8 pending, moving to d makes the pool misreport; 8 stays pending. */
  lemma ListedAgain(hashOf: Block -> Hash, was: Lists, c: seq<Block>, d: seq<Block>)
    requires |c| > 0 && |d| == 4 && d[1].txs == [7] && d[2].txs == d[3].txs == []
    requires was.pending == {8} && AllMined(was.mined) == {7} && Separate(was.pending, was.mined)
    requires 7 in ListOf(was.mined, hashOf(d[1])) && hashOf(d[1]) !in HashesIn(hashOf, c, 1, |c|)
    ensures var kept := RolledBack(hashOf, was, c, 0);
            MisreportsAt(hashOf, {8}, d, 1, 1, kept) && Unmined(kept.pending, d, 1, 4) == {8}
  {
    hide HashesIn, Twice, AllMined, Separate;
    var kept := RolledBack(hashOf, was, c, 0);
    MinedFewer(was.mined, kept.mined);
    assert 8 in kept.pending && kept.pending <= {7, 8};
    assert ListOf(kept.mined, hashOf(d[1])) == ListOf(was.mined, hashOf(d[1]));
    assert Unmined(kept.pending, d, 1, 2) == kept.pending - TxSet([7]);
    assert Unmined(kept.pending, d, 1, 3) == Unmined(kept.pending, d, 1, 2) - TxSet([]);
    assert Unmined(kept.pending, d, 1, 4) == Unmined(kept.pending, d, 1, 3) - TxSet([]);
    assert kept.pending - TxSet([7]) == {8};
  }

  /**
   From there, 8 is added, the headers in between become known, and the head goes
   back to the first branch: 7, mined before, is reported as mined once more, and
   8 alone is pending before and after.
   */
  method GapMisreports(hashOf: Block -> Hash) returns (pool: LightPool, txc: Changes)
    requires Hashing(hashOf)
    ensures pool.pending == {8} && Wrong(txc, {8}) && !IsNet(txc, {8}, pool.pending)
  {
    hide Branch, Fork, Hashing, IsChain, Separate, HashesOf, HashesIn, ListOf, AllMined, RolledBack, Unmined, MisreportsAt,
      Wrong, IsNet, Filed, Stored, Keyed;
    var a, b;
    pool, a, b := GapLeavesList(hashOf);
    var err := pool.Add(8, true);
    var store := Filed(hashOf, a + b);
    ghost var was := Lists(pool.pending, pool.mined);
    txc := Across(pool, store, Odr(store, store.Keys), b, a);
    ListedAgain(hashOf, was, b, a);
    WrongIsNotNet(txc, {8}, pool.pending);
  }

  /** With 7 listed for c[1], moving to a block that holds it twice makes the pool misreport; nothing is left pending. */
  lemma MinedTwice(hashOf: Block -> Hash, was: Lists, c: seq<Block>, d: seq<Block>)
    requires |c| == 2 && |d| == 2 && d[1].txs == [7, 7]
    requires was.pending == {} && AllMined(was.mined) == {7} && Separate(was.pending, was.mined)
    requires 7 in ListOf(was.mined, hashOf(c[1])) && hashOf(d[1]) !in HashesIn(hashOf, c, 1, 2)
    ensures var kept := RolledBack(hashOf, was, c, 0);
            MisreportsAt(hashOf, {}, d, 1, 1, kept) && Unmined(kept.pending, d, 1, 2) == {}
  {
    hide HashesIn, HashesOf;
    var kept := RolledBack(hashOf, was, c, 0);
    HashIn(hashOf, c, 1, 2, 1);
    MinedFewer(was.mined, kept.mined);
    assert 7 !in AllMined(kept.mined);
    assert kept.pending == {7} && d[1].txs[0] == 7 && d[1].txs[1] == 7;
    assert Twice(d[1].txs, 7) && 7 in kept.pending - {};
    assert Unmined(kept.pending, d, 1, 2) == kept.pending - TxSet([7, 7]);
  }

  /**
   A light client does not execute blocks. If the block that replaces a1 holds
   the transaction twice, the pool rolls it back and marks it mined twice: it is
   reported as mined although nothing is pending before or after.
   */
  method RepeatIsMisreported(hashOf: Block -> Hash) returns (pool: LightPool, txc: Changes)
    requires Hashing(hashOf)
    ensures pool.pending == {} && Wrong(txc, {}) && !IsNet(txc, {}, pool.pending)
  {
    hide Branch, Fork, Hashing, Separate, HashesOf, HashesIn, ListOf, AllMined, RolledBack, Unmined, MisreportsAt, Wrong, IsNet,
      Filed, Keyed, Delivers;
    var a, b := Branch(hashOf, [7], 0), Branch(hashOf, [7, 7], 1);
    var store := Filed(hashOf, a + b);
    var odr := Odr(store, store.Keys);
    AllDelivered(hashOf, store, a[1]);
    pool := MinedInFirst(hashOf, store, odr, a);
    ghost var was := Lists(pool.pending, pool.mined);
    txc := Across(pool, store, odr, a[..2], b[..2]);
    MinedTwice(hashOf, was, a[..2], b[..2]);
    WrongIsNotNet(txc, {}, pool.pending);
  }
}
