/**
 The transaction lookup table of core/database_util.go as a function of the
 chain it indexes, and what dropping and adding blocks does to it.
 */
module TxLookup {
  import opened Chains

  datatype Entry = Entry(blockHash: Hash, blockIndex: nat, index: nat)

  type Lookups = map<Tx, Entry>

  /** The table after the first k transactions of b have been entered. */
  function EnterFirst(hashOf: Block -> Hash, m: Lookups, b: Block, k: nat): Lookups
    requires k <= |b.txs|
  {
    if k == 0 then m else EnterFirst(hashOf, m, b, k - 1)[b.txs[k - 1] := Entry(hashOf(b), b.number, k - 1)]
  }

  function Enter(hashOf: Block -> Hash, m: Lookups, bs: seq<Block>): Lookups {
    if bs == [] then m
    else
      var b := bs[|bs| - 1];
      EnterFirst(hashOf, Enter(hashOf, m, bs[..|bs| - 1]), b, |b.txs|)
  }

  /** The table that indexes exactly the chain c. */
  function LookupsOf(hashOf: Block -> Hash, c: seq<Block>): Lookups {
    Enter(hashOf, map[], c)
  }

  function TxsOf(bs: seq<Block>): set<Tx> {
    set b, t | b in bs && t in b.txs :: t
  }

  lemma TxsOfOne(bs: seq<Block>, b: Block)
    ensures TxsOf(bs + [b]) == TxsOf(bs) + (set t | t in b.txs)
    ensures TxsOf([b] + bs) == TxsOf(bs) + (set t | t in b.txs)
  {}

  /** An entry for a transaction of the chain points at a place that holds it. */
  ghost predicate PointsAt(hashOf: Block -> Hash, e: Entry, c: seq<Block>, t: Tx) {
    && e.blockIndex < |c| && e.blockHash == hashOf(c[e.blockIndex])
    && e.index < |c[e.blockIndex].txs| && c[e.blockIndex].txs[e.index] == t
  }

  lemma {:induction false} FirstEntered(hashOf: Block -> Hash, m: Lookups, b: Block, k: nat, t: Tx)
    requires k <= |b.txs|
    ensures var r := EnterFirst(hashOf, m, b, k);
            if t in b.txs[..k] then
              && t in r && r[t].blockHash == hashOf(b) && r[t].blockIndex == b.number
              && r[t].index < k && b.txs[r[t].index] == t
            else (t in r <==> t in m) && (t in m ==> r[t] == m[t])
  {
    if k > 0 {
      FirstEntered(hashOf, m, b, k - 1, t);
      assert b.txs[..k] == b.txs[..k - 1] + [b.txs[k - 1]];
    }
  }

  /** The table indexes all transactions of a chain and nothing else. */
  lemma {:induction false} LookupsPoint(hashOf: Block -> Hash, c: seq<Block>, t: Tx)
    requires IsChain(hashOf, c)
    ensures var m := LookupsOf(hashOf, c);
            && (t in m <==> t in TxsOf(c))
            && (t in m ==> PointsAt(hashOf, m[t], c, t))
  {
    if c != [] {
      var n := |c| - 1;
      LookupsPoint(hashOf, c[..n], t);
      FirstEntered(hashOf, LookupsOf(hashOf, c[..n]), c[n], |c[n].txs|, t);
      assert c[n].txs[..|c[n].txs|] == c[n].txs && c == c[..n] + [c[n]];
      TxsOfOne(c[..n], c[n]);
    }
  }

  lemma {:induction false} SameEntered(hashOf: Block -> Hash, m: Lookups, m': Lookups, b: Block, k: nat, t: Tx)
    requires k <= |b.txs|
    ensures var r, r' := EnterFirst(hashOf, m, b, k), EnterFirst(hashOf, m', b, k);
            if t in b.txs[..k] then t in r && t in r' && r[t] == r'[t]
            else (t in r <==> t in m) && (t in m ==> r[t] == m[t]) && (t in r' <==> t in m') && (t in m' ==> r'[t] == m'[t])
  {
    if k > 0 {
      SameEntered(hashOf, m, m', b, k - 1, t);
      assert b.txs[..k] == b.txs[..k - 1] + [b.txs[k - 1]];
    }
  }

  /** Entering blocks overwrites the entries of their transactions, whatever these were, and no others. */
  lemma {:induction false} EnterIsLocal(hashOf: Block -> Hash, m: Lookups, m': Lookups, bs: seq<Block>, t: Tx)
    ensures var r, r' := Enter(hashOf, m, bs), Enter(hashOf, m', bs);
            if t in TxsOf(bs) then t in r && t in r' && r[t] == r'[t]
            else (t in r <==> t in m) && (t in m ==> r[t] == m[t])
  {
    if bs != [] {
      var n := |bs| - 1;
      EnterIsLocal(hashOf, m, m', bs[..n], t);
      assert bs == bs[..n] + [bs[n]];
      TxsOfOne(bs[..n], bs[n]);
      SameEntered(hashOf, Enter(hashOf, m, bs[..n]), Enter(hashOf, m', bs[..n]), bs[n], |bs[n].txs|, t);
      assert bs[n].txs[..|bs[n].txs|] == bs[n].txs;
    }
  }

  lemma {:induction false} EnterBoth(hashOf: Block -> Hash, m: Lookups, a: seq<Block>, b: seq<Block>)
    ensures Enter(hashOf, m, a + b) == Enter(hashOf, Enter(hashOf, m, a), b)
  {
    if b == [] {
      assert a + b == a;
    } else {
      EnterBoth(hashOf, m, a, b[..|b| - 1]);
      assert (a + b)[..|a + b| - 1] == a + b[..|b| - 1];
    }
  }

  // ----- Reorganisation -----

  /**
   Some transaction that only the dropped blocks bring in anew is also in the
   common part: it occurs twice on the old chain.
   */
  ghost predicate Repeated(common: seq<Block>, dropped: seq<Block>, added: seq<Block>) {
    (TxsOf(dropped) - TxsOf(added)) * TxsOf(common) != {}
  }

  /** Membership alone needs no chain. */
  lemma {:induction false} InTable(hashOf: Block -> Hash, c: seq<Block>, t: Tx)
    ensures t in LookupsOf(hashOf, c) <==> t in TxsOf(c)
  {
    EnterIsLocal(hashOf, map[], map[], c, t);
  }

  /**
   Entering the added blocks and then deleting what was only in the dropped
   ones gives the new chain's table exactly when no such repetition exists.
   */
  lemma ReorgLookups(hashOf: Block -> Hash, common: seq<Block>, dropped: seq<Block>, added: seq<Block>)
    ensures var was := LookupsOf(hashOf, common + dropped);
            Enter(hashOf, was, added) - (TxsOf(dropped) - TxsOf(added)) == LookupsOf(hashOf, common + added)
            <==> !Repeated(common, dropped, added)
  {
    hide Enter;
    var base, diff := LookupsOf(hashOf, common), TxsOf(dropped) - TxsOf(added);
    var was := Enter(hashOf, base, dropped);
    var now, want := Enter(hashOf, was, added) - diff, Enter(hashOf, base, added);
    EnterBoth(hashOf, map[], common, dropped);
    EnterBoth(hashOf, map[], common, added);
    forall t
      ensures t in diff * TxsOf(common) ==> t in want && t !in now
      ensures t !in diff * TxsOf(common) ==> (t in now <==> t in want) && (t in now ==> now[t] == want[t])
    {
      InTable(hashOf, common, t);
      EnterIsLocal(hashOf, base, base, dropped, t);
      EnterIsLocal(hashOf, was, base, added, t);
      EnterIsLocal(hashOf, base, was, added, t);
    }
    if Repeated(common, dropped, added) {
      var t :| t in diff * TxsOf(common);
      assert t in want && t !in now;
    }
  }

  /** No transaction occurs at two places of the chain. */
  ghost predicate NoRepeats(c: seq<Block>) {
    forall i, j, x, y :: 0 <= i < |c| && 0 <= j < |c| && 0 <= x < |c[i].txs| && 0 <= y < |c[j].txs| && c[i].txs[x] == c[j].txs[y]
      ==> i == j && x == y
  }

  lemma PlaceOf(bs: seq<Block>, t: Tx) returns (i: nat, x: nat)
    requires t in TxsOf(bs)
    ensures i < |bs| && x < |bs[i].txs| && bs[i].txs[x] == t
  {
    var b :| b in bs && t in b.txs;
    i :| i < |bs| && bs[i] == b;
    x :| x < |b.txs| && b.txs[x] == t;
  }

  lemma NoRepeatsSplit(common: seq<Block>, dropped: seq<Block>, added: seq<Block>)
    requires NoRepeats(common + dropped)
    ensures !Repeated(common, dropped, added)
  {
    var c := common + dropped;
    forall t | t in TxsOf(dropped) ensures t !in TxsOf(common) {
      var j, y := PlaceOf(dropped, t);
      assert c[|common| + j].txs[y] == t;
      forall b | b in common ensures t !in b.txs {
        var i :| 0 <= i < |common| && common[i] == b;
        assert c[i] == b;
      }
    }
  }
}
