/**
 The transaction pool of core/tx_pool.go. The lists are the maps of TxListSpec
 that txSortedMap and txList were proved to implement; `currentState` is a pair
 of functions from addresses; iteration over a Go map takes any order.
 */
module TxPools {
  import opened Basics
  import opened TxListSpec
  import opened TxPoolSpec
  import opened TxLists
  import opened TxPriced
  import opened TxPoolFairness
  import opened TxPoolSteps
  import opened TxPoolAdding

  class TxPool {
    const config: Config
    const priced: PricedList
    var gasPrice: nat

    var chainNonce: nat -> nat
    var balance: nat -> nat
    var maxGas: nat
    var pendingNonces: map<nat, nat>

    var locals: set<nat>
    var beats: map<nat, nat>
    var pending: Senders
    var queue: Senders
    var all: set<Tx>

    /** pendingState.GetNonce */
    function PendingNonce(a: nat): nat
      reads this
    {
      NonceOf(chainNonce, pendingNonces, a)
    }

    /** What the pool's steps depend on besides its lists. */
    function Here(): World
      reads this
    {
      World(chainNonce, balance, maxGas, locals, config)
    }

    function Now(): Books
      reads this
    {
      Books(pendingNonces, pending, queue, all, locals, beats)
    }

    /** The structures agree, except that f is in no list and u has no price entry. */
    ghost predicate Ok(f: set<Tx>, u: set<Tx>)
      reads this, priced
    {
      Agrees(pending, queue, all, f) && priced.Valid(all - u)
    }

    /** Every pending list is the run from the chain nonce on, and the queue lies beyond it. */
    ghost predicate Contiguous()
      reads this
    {
      Runs(pending, queue, chainNonce, pendingNonces)
    }

    /** Every pending transaction can be paid for and is not behind the chain. */
    ghost predicate Payable()
      reads this
    {
      AllPayable(pending, chainNonce, balance, maxGas)
    }

    /** The global limits: within the total, or only guaranteed slots and local queues are left. */
    ghost predicate WithinLimits()
      reads this
    {
      && (|| Total(pending) <= config.globalSlots
          || forall a :: a in pending && a !in locals ==> Size(pending, a) <= config.accountSlots)
      && (Total(queue) <= config.globalQueue || forall a :: a !in locals ==> ListOf(queue, a) == map[])
    }

    /** NewTxPool, before any journal is loaded. */
    constructor (config: Config, gasPrice: nat, chainNonce: nat -> nat, balance: nat -> nat, maxGas: nat)
      ensures fresh(priced) && Ok({}, {}) && Contiguous() && Payable()
      ensures Now() == Books(map[], map[], map[], {}, {}, map[])
      ensures Here() == World(chainNonce, balance, maxGas, {}, config) && this.gasPrice == gasPrice
    {
      this.config, this.gasPrice := config, gasPrice;
      this.chainNonce, this.balance, this.maxGas := chainNonce, balance, maxGas;
      pendingNonces, locals, beats := map[], {}, map[];
      pending, queue, all := map[], map[], {};
      priced := new PricedList();
    }

    // ----- Small steps -----

    /** `delete(pool.all, hash); pool.priced.Removed()` for everything in m. */
    method DropAll(m: Nonces, ghost f: set<Tx>, ghost u: set<Tx>)
      requires Ok(f, u) && Txs(m) <= f && Txs(m) !! u
      modifies this`all, priced
      ensures all == old(all) - Txs(m) && Ok(f - Txs(m), u)
    {
      hide Agrees, PricedList.Valid;
      var todo := m.Keys;
      ghost var gone: set<Tx> := {};
      Forget(pending, queue, all, f, gone);
      assert all - gone == all && f - gone == f;
      while todo != {}
        invariant todo <= m.Keys && gone == set n | n in m && n !in todo :: m[n]
        invariant all == old(all) - gone && Ok(f - gone, u)
      {
        var n :| n in todo;
        assert gone + {m[n]} == set x | x in m && x !in todo - {n} :: m[x];
        Forget(pending, queue, old(all), f, gone + {m[n]});
        ghost var live := all - u;
        all := all - {m[n]};
        Shrink(priced, live, all - u);
        priced.Removed(all, all - u);
        gone, todo := gone + {m[n]}, todo - {n};
        assert all == old(all) - gone;
      }
      assert gone == Txs(m);
    }

    /** enqueueTx: refused when the queue holds a better transaction with the same nonce. */
    method EnqueueTx(t: Tx, ghost f: set<Tx>, ghost u: set<Tx>) returns (err: bool, replaced: bool)
      requires Ok(f, u) && (t in f || t !in all) && t.nonce !in ListOf(pending, t.sender)
      modifies this`queue, this`all, priced
      ensures var l := ListOf(old(queue), t.sender);
              && err == (t.nonce in l && !Outbids(t, l[t.nonce], config.priceBump))
              && replaced == (!err && t.nonce in l)
              && queue == (if err then old(queue) else old(queue)[t.sender := l[t.nonce := t]])
              && all == (if err then old(all) else old(all) - (if replaced then {l[t.nonce]} else {}) + {t})
              && Ok(if err then f else f - {t}, u)
    {
      hide Agrees, PricedList.Valid;
      var l := ListOf(queue, t.sender);
      if t.nonce in l && !Outbids(t, l[t.nonce], config.priceBump) {
        return true, false;
      }
      IntoQueue(pending, queue, all, f, t);
      replaced := t.nonce in l;
      queue := queue[t.sender := l[t.nonce := t]];
      ghost var live := all - u;
      if replaced {
        all := all - {l[t.nonce]};
        Shrink(priced, live, all - u);
        priced.Removed(all, all - u);
        live := all - u;
      }
      all := all + {t};
      priced.Put(t, live);
      Shrink(priced, live + {t}, all - u);
      err := false;
    }

    /** promoteTx: the loser of two transactions with one nonce leaves the pool. */
    method PromoteTx(a: nat, t: Tx, now: nat, ghost f: set<Tx>)
      requires Ok(f, {}) && t in f && t.sender == a && t.nonce !in ListOf(queue, a)
      modifies this`pending, this`all, this`beats, this`pendingNonces, priced
      ensures var l := ListOf(old(pending), a);
              var lost := t.nonce in l && !Outbids(t, l[t.nonce], config.priceBump);
              && pending == (if lost then old(pending) else old(pending)[a := l[t.nonce := t]])
              && pendingNonces == (if lost then old(pendingNonces) else old(pendingNonces)[a := t.nonce + 1])
              && all == (if lost then old(all) - {t} else old(all) - if t.nonce in l then {l[t.nonce]} else {})
              && beats == (if lost then old(beats) else old(beats)[a := now])
              && Ok(f - {t}, {})
    {
      hide Agrees, PricedList.Valid;
      assert t in all by { FloatsInAll(pending, queue, all, f, t); }
      var l := ListOf(pending, a);
      ghost var live := all - {};
      if t.nonce in l && !Outbids(t, l[t.nonce], config.priceBump) {
        Forget(pending, queue, all, f, {t});
        all := all - {t};
        Shrink(priced, live, all - {});
        priced.Removed(all, all - {});
        return;
      }
      IntoPending(pending, queue, all, f, t);
      if t.nonce in l {
        NotTheSame(pending, queue, all, f, t);
        all := all - {l[t.nonce]};
        Shrink(priced, live, all - {});
        priced.Removed(all, all - {});
      }
      assert all + {t} == all;
      pending := pending[a := l[t.nonce := t]];
      beats := beats[a := now];
      pendingNonces := pendingNonces[a := t.nonce + 1];
    }

    /** Postpone demoted transactions; none of them can be refused. */
    method Requeue(a: nat, m: Nonces, ghost u: set<Tx>)
      requires Ok(Txs(m), u) && Movable(a, m, ListOf(queue, a)) && m.Keys !! ListOf(pending, a).Keys
      modifies this`queue, this`all, priced
      ensures queue == JoinList(old(queue), a, m) && all == old(all) && Ok({}, u)
    {
      hide Agrees, PricedList.Valid, JoinList, Txs, Rest, Outbids;
      var todo := m.Keys;
      ghost var l := ListOf(queue, a);
      ghost var left: Nonces := m;
      JoinNone(queue, a, m);
      while todo != {}
        invariant todo <= m.Keys && left == map n | n in todo :: m[n]
        invariant queue == JoinList(old(queue), a, Rest(m, left))
        invariant all == old(all) && Ok(Txs(left), u)
      {
        var n :| n in todo;
        RequeueStep(old(queue), a, m, left, n);
        OneLess(a, m, left, n);
        assert m[n] in all by { FloatsInAll(pending, queue, all, Txs(left), m[n]); }
        var err, replaced := EnqueueTx(m[n], Txs(left), u);
        assert all == old(all);
        todo, left := todo - {n}, left - {n};
      }
      JoinWhole(m, left);
    }

    /** removeTx: out of its list; pending transactions behind it go back to the queue. */
    method RemoveTx(t: Tx, ghost u: set<Tx>)
      requires Ok({}, u)
      modifies this`pending, this`queue, this`all, this`beats, this`pendingNonces, priced
      ensures Ok({}, u) && TakenOut(chainNonce, old(Now()), Now(), t)
      ensures old(Contiguous()) ==> Contiguous()
    {
      hide Agrees, PricedList.Valid, Under, From, Runs, JoinList, SetList;
      if Contiguous() { RemovalKeepsRuns(pending, queue, chainNonce, pendingNonces, t.sender, t.nonce); }
      if t !in all {
        assert all - {t} == all;
      } else if t.nonce in ListOf(pending, t.sender) {
        RemovePending(t, u);
      } else {
        RemoveQueued(t, u);
      }
    }

    method RemovePending(t: Tx, ghost u: set<Tx>)
      requires Ok({}, u) && t in all && t.nonce in ListOf(pending, t.sender)
      modifies this`pending, this`queue, this`all, this`beats, this`pendingNonces, priced
      ensures Ok({}, u) && all == old(all) - {t}
      ensures var a := t.sender;
              var l: Nonces := ListOf(old(pending), a);
              && pending == SetList(old(pending), a, Under(l, t.nonce))
              && queue == JoinList(old(queue), a, From(l, t.nonce + 1))
              && pendingNonces == (if old(PendingNonce(a)) > t.nonce then old(pendingNonces)[a := t.nonce]
                                   else old(pendingNonces))
              && beats == (if Under(l, t.nonce) == map[] then old(beats) - {a} else old(beats))
    {
      hide Agrees, PricedList.Valid, JoinList;
      var a := t.sender;
      ghost var live := all - u;
      var l: Nonces := ListOf(pending, a);
      TakeFromPending(pending, queue, all, t);
      all := all - {t};
      Shrink(priced, live, all - u);
      priced.Removed(all, all - u);
      pending := pending[a := Under(l, t.nonce)];
      assert From(l, t.nonce + 1).Keys !! ListOf(pending, a).Keys;
      if pending[a] == map[] {
        DropEmptyPending(pending, queue, all, Txs(From(l, t.nonce + 1)), a);
        pending, beats := pending - {a}, beats - {a};
        assert pending == old(pending) - {a};
      }
      Requeue(a, From(l, t.nonce + 1), u);
      if PendingNonce(a) > t.nonce { pendingNonces := pendingNonces[a := t.nonce]; }
    }

    method RemoveQueued(t: Tx, ghost u: set<Tx>)
      requires Ok({}, u) && t in all && t.nonce !in ListOf(pending, t.sender)
      modifies this`queue, this`all, priced
      ensures Ok({}, u) && all == old(all) - {t}
      ensures queue == SetList(old(queue), t.sender, ListOf(old(queue), t.sender) - {t.nonce})
    {
      hide Agrees, PricedList.Valid;
      var a := t.sender;
      ghost var live := all - u;
      TakeFromQueue(pending, queue, all, t);
      all := all - {t};
      Shrink(priced, live, all - u);
      priced.Removed(all, all - u);
      queue := queue[a := queue[a] - {t.nonce}];
      if queue[a] == map[] {
        DropEmptyQueue(pending, queue, all, {}, a);
        queue := queue - {a};
        assert queue == old(queue) - {a};
      }
    }

    // ----- Promotion of one account -----

    /** Cut a queued list down to `keep` and drop the rest from the pool. */
    method Prune(a: nat, keep: Nonces)
      requires Ok({}, {}) && a in queue && Part(keep, queue[a])
      modifies this`queue, this`all, priced
      ensures Ok({}, {}) && queue == old(queue)[a := keep] && all == old(all) - Txs(Rest(old(queue)[a], keep))
    {
      hide Agrees, PricedList.Valid;
      var out := Rest(queue[a], keep);
      ShrinkQueue(pending, queue, all, {}, a, keep);
      assert {} + Txs(out) == Txs(out) && Txs(out) - Txs(out) == {};
      queue := queue[a := keep];
      DropAll(out, Txs(out), {});
    }

    /** Move an unbroken run of executable transactions over to the pending list. */
    method PromoteRun(a: nat, run: Nonces, lo: nat, e: nat, now: nat)
      requires Ok(Txs(run), {}) && Gapless(run, lo, e) && Movable(a, run, ListOf(queue, a))
      requires run.Keys !! ListOf(pending, a).Keys
      modifies this`pending, this`all, this`beats, this`pendingNonces, priced
      ensures Ok({}, {}) && all == old(all) && pending == JoinList(old(pending), a, run)
      ensures pendingNonces == if lo < e then old(pendingNonces)[a := e] else old(pendingNonces)
      ensures beats == if lo < e then old(beats)[a := now] else old(beats)
    {
      hide Agrees, PricedList.Valid, JoinList, Outbids, Under, From, Txs;
      var n := lo;
      RunStarts(pending, a, run, lo, e);
      while n < e
        invariant lo <= n <= e && all == old(all)
        invariant pending == JoinList(old(pending), a, Under(run, n))
        invariant pendingNonces == if lo < n then old(pendingNonces)[a := n] else old(pendingNonces)
        invariant beats == if lo < n then old(beats)[a := now] else old(beats)
        invariant Ok(Txs(From(run, n)), {})
      {
        RunStep(old(pending), a, run, n);
        PromoteTx(a, run[n], now, Txs(From(run, n)));
        assert all == old(all);
        n := n + 1;
      }
      RunEnds(a, run, lo, e);
    }

    /** list.Ready and the promotion of what it returns. */
    method PromoteReady(a: nat, now: nat) returns (ghost run: Nonces)
      requires Ok({}, {}) && a in queue
      modifies this`pending, this`queue, this`all, this`beats, this`pendingNonces, priced
      ensures Ok({}, {}) && all == old(all)
      ensures IsReadyRun(old(queue)[a], old(PendingNonce(a)), run) && Part(run, old(queue)[a])
      ensures pending == JoinList(old(pending), a, run) && queue == old(queue)[a := Rest(old(queue)[a], run)]
      ensures pendingNonces == AfterRun(old(pendingNonces), a, run) && beats == AfterBeat(old(beats), a, run, now)
    {
      hide Agrees, PricedList.Valid, JoinList;
      var l := queue[a];
      run := map[];
      NoRun(pending, queue, pendingNonces, a);
      if l == map[] { return; }
      LeastExists(l);
      var lo: nat :| IsLeast(l, lo);
      if lo > PendingNonce(a) { return; }
      ReadyPart(pending, queue, all, a, lo);
      run := RunFrom(l, lo);
      queue := queue[a := WithoutRun(l, lo)];
      PromoteRun(a, RunFrom(l, lo), lo, RunEnd(l, lo), now);
    }

    /** Drop queued transactions that are too old or too expensive. */
    method DropUnpayable(a: nat)
      requires Ok({}, {}) && a in queue
      modifies this`queue, this`all, priced
      ensures Ok({}, {}) && all <= old(all)
      ensures queue == old(queue)[a := WhereNot(From(old(queue)[a], chainNonce(a)), Over(balance(a), maxGas))]
    {
      hide Agrees, PricedList.Valid, From, WhereNot, Rest, Txs, Part;
      ghost var q := queue;
      var l := queue[a];
      KeepParts(l, chainNonce(a), Over(0, 0), 0);
      Prune(a, From(l, chainNonce(a)));
      l := queue[a];
      KeepParts(l, 0, Over(balance(a), maxGas), 0);
      Prune(a, WhereNot(l, Over(balance(a), maxGas)));
      UpdateTwice(q, a, l, queue[a]);
    }

    /** Enforce the per-account limit and forget an empty list. */
    method CapQueue(a: nat)
      requires Ok({}, {}) && a in queue
      modifies this`queue, this`all, priced
      ensures Ok({}, {}) && all <= old(all)
      ensures queue == SetList(old(queue), a, Capped(old(queue)[a], QueueCap(a)))
    {
      hide Agrees, PricedList.Valid, Lowest, Rest, Txs, Part;
      ghost var q := queue;
      if a !in locals {
        KeepParts(queue[a], 0, Over(0, 0), config.accountQueue);
        Prune(a, Lowest(queue[a], config.accountQueue));
      } else {
        assert q[a := q[a]] == q;
      }
      if queue[a] == map[] {
        DropEmptyQueue(pending, queue, all, {}, a);
        assert queue - {a} == q - {a};
        queue := queue - {a};
      }
    }

    function QueueCap(a: nat): Option<nat>
      reads this
    {
      CapOf(Here(), a)
    }

    /** One round of the first loop of promoteExecutables. */
    method PromoteAccount(a: nat, now: nat) returns (ghost run: Nonces, ghost rest: Nonces)
      requires Ok({}, {})
      modifies this`pending, this`queue, this`all, this`beats, this`pendingNonces, priced
      ensures Ok({}, {}) && all <= old(all)
      ensures IsPromotion(ListOf(old(queue), a), chainNonce(a), Over(balance(a), maxGas), old(PendingNonce(a)),
                          QueueCap(a), run, rest)
      ensures pending == JoinList(old(pending), a, run) && queue == SetList(old(queue), a, rest)
      ensures pendingNonces == AfterRun(old(pendingNonces), a, run) && beats == AfterBeat(old(beats), a, run, now)
    {
      hide Agrees, PricedList.Valid, From, WhereNot, Capped, JoinList, SetList, IsReadyRun, IsPromotion, Part, Rest, AfterRun;
      if a !in queue {
        run, rest := map[], map[];
        EmptyPromotion(pending, queue, pendingNonces, a, chainNonce(a), Over(balance(a), maxGas), PendingNonce(a),
                       QueueCap(a));
        return;
      }
      ghost var q, start := queue, PendingNonce(a);
      DropUnpayable(a);
      ghost var payable := queue[a];
      run := PromoteReady(a, now);
      rest := Capped(queue[a], QueueCap(a));
      MakePromotion(q[a], chainNonce(a), Over(balance(a), maxGas), start, QueueCap(a), payable, run);
      SetTwice(q, a, payable, queue[a], rest);
      CapQueue(a);
    }

    ghost predicate PendingRuns()
      reads this
    {
      AllRun(pending, chainNonce, pendingNonces)
    }

    /** The account was handled: its queue lies beyond its run, is not empty and keeps its limit. */
    ghost predicate Handled(a: nat, runs: bool)
      reads this
    {
      Settled(queue, chainNonce, pendingNonces, a, QueueCap(a), runs)
    }

    /** The first loop of promoteExecutables. */
    method PromoteAccounts(accounts: seq<nat>, now: nat)
      requires Ok({}, {})
      modifies this`pending, this`queue, this`all, this`beats, this`pendingNonces, priced
      ensures Ok({}, {}) && all <= old(all)
      ensures queue.Keys <= old(queue).Keys
      ensures Promoting(Here(), old(pendingNonces), old(pending), old(queue), pendingNonces, pending, queue, accounts,
                        |accounts|)
      ensures old(PendingRuns()) ==> PendingRuns()
      ensures old(Contiguous()) ==> Contiguous()
      ensures old(Payable()) ==> Payable()
      ensures forall a :: a in accounts ==> Handled(a, old(PendingRuns()))
      ensures BeatsAt(now, old(pending), pending, old(beats), beats)
    {
      hide Agrees, PricedList.Valid, IsPromotion, SetList, JoinList, AfterRun, AllRun, Runs, Settled, Apart, Over, NonceOf,
        AllPayable, Promoting, CapOf, RoundsKeep, ListOf, BeatsAt, AfterBeat;
      BeatsStay(now, pending, beats);
      ghost var w, pn0, p0, q0 := Here(), pendingNonces, pending, queue;
      ghost var runs, contiguous, payable := PendingRuns(), Contiguous(), Payable();
      PromotingStarts(w, pn0, p0, q0, accounts);
      RoundsStart(w, runs, contiguous, payable, pn0, p0, q0, accounts);
      for i := 0 to |accounts|
        invariant Ok({}, {}) && all <= old(all) && queue.Keys <= old(queue).Keys
        invariant Promoting(w, pn0, p0, q0, pendingNonces, pending, queue, accounts, i)
        invariant RoundsKeep(w, runs, contiguous, payable, pendingNonces, pending, queue, accounts, i)
        invariant BeatsAt(now, p0, pending, old(beats), beats)
      {
        var a := accounts[i];
        ghost var p, q, pn, beat := pending, queue, pendingNonces, beats;
        assert Apart(p, q) by { ApartOf(p, q, all, {}); }
        ghost var run, rest := PromoteAccount(a, now);
        PromotingGrew(w, pn0, p0, q0, pn, p, q, accounts, i);
        RunApart(w, p, q, a, NonceOf(w.chain, pn, a), run, rest);
        BeatsStep(now, p0, p, old(beats), beat, a, run);
        PromotingStep(w, pn0, p0, q0, pn, p, q, accounts, i, run, rest);
        RoundKeeps(w, runs, contiguous, payable, pn, p, q, accounts, i, run, rest);
      }
      RoundsEnd(w, runs, contiguous, payable, pendingNonces, pending, queue, accounts);
    }

    // ----- The pending limit -----

    /** list.Cap(list.Len() - 1) and the bookkeeping around it. */
    method CutOne(a: nat)
      requires Ok({}, {}) && a in pending && pending[a] != map[]
      modifies this`pending, this`all, this`pendingNonces, priced
      ensures Ok({}, {})
      ensures var l := old(pending)[a];
              var g := Greatest(l);
              && pending == old(pending)[a := l - {g}] && all == old(all) - {l[g]}
              && pendingNonces == (if old(PendingNonce(a)) > g then old(pendingNonces)[a := g] else old(pendingNonces))
      ensures old(Contiguous()) ==> Contiguous()
    {
      hide Agrees, PricedList.Valid, Runs, Lowest;
      var l := pending[a];
      CapByOne(l);
      var keep := Lowest(l, |l| - 1);
      var g := Greatest(l);
      if Contiguous() { CutKeepsRuns(pending, queue, chainNonce, pendingNonces, a, g); }
      CutAgrees(pending, queue, all, a);
      ghost var live := all - {};
      pending := pending[a := keep];
      all := all - {l[g]};
      Shrink(priced, live, all - {});
      priced.Removed(all, all - {});
      if PendingNonce(a) > g { pendingNonces := pendingNonces[a := g]; }
    }

    /** One transaction off every account of s. */
    method CutRound(s: seq<nat>, ghost p0: Senders, ghost pn0: map<nat, nat>)
      requires Ok({}, {}) && Distinct(s) && Trimmed(p0, pending) && NoncesCut(chainNonce, p0, pending, pn0, pendingNonces)
      requires forall i :: 0 <= i < |s| ==> s[i] in pending && pending[s[i]] != map[]
      modifies this`pending, this`all, this`pendingNonces, priced
      ensures Ok({}, {}) && Trimmed(p0, pending) && all <= old(all)
      ensures NoncesCut(chainNonce, p0, pending, pn0, pendingNonces)
      ensures CutFirst(old(pending), pending, s, |s|) && Total(pending) == Total(old(pending)) - |s|
      ensures old(Contiguous()) ==> Contiguous()
    {
      hide Agrees, PricedList.Valid, Runs, Trimmed, Total, InitialPart, NoncesCut;
      assert CutFirst(pending, pending, s, 0);
      hide CutFirst;
      for i := 0 to |s|
        invariant Ok({}, {}) && Trimmed(p0, pending) && all <= old(all)
        invariant NoncesCut(chainNonce, p0, pending, pn0, pendingNonces)
        invariant CutFirst(old(pending), pending, s, i) && Total(pending) == Total(old(pending)) - i
        invariant old(Contiguous()) ==> Contiguous()
      {
        CutFirstStep(old(pending), pending, s, i);
        ghost var l := pending[s[i]];
        CapByOne(l);
        TrimmedPart(p0, pending, s[i]);
        CutMore(chainNonce, p0, pending, pn0, pendingNonces, s[i], Greatest(l));
        TrimMore(p0, pending, s[i], l - {Greatest(l)});
        TotalSet(pending, s[i], l - {Greatest(l)});
        CutOne(s[i]);
      }
    }

    /** Cut the accounts of s together until the limit is met or they are down to the threshold. */
    method Equalise(s: seq<nat>, threshold: nat, count: nat, ghost p0: Senders, ghost pn0: map<nat, nat>, ghost e: nat)
      returns (count': nat, ghost e': nat)
      requires Ok({}, {}) && Distinct(s) && |s| > 0 && Trimmed(p0, pending)
      requires NoncesCut(chainNonce, p0, pending, pn0, pendingNonces)
      requires Level(pending, s, e) && e >= threshold && count == Total(pending)
      modifies this`pending, this`all, this`pendingNonces, priced
      ensures Ok({}, {}) && Trimmed(p0, pending) && all <= old(all)
      ensures NoncesCut(chainNonce, p0, pending, pn0, pendingNonces)
      ensures Level(pending, s, e') && e' >= threshold && count' == Total(pending)
      ensures forall a :: a in old(pending) && a !in s ==> a in pending && pending[a] == old(pending)[a]
      ensures count' <= config.globalSlots || e' == threshold
      ensures count > config.globalSlots ==> count' + |s| > config.globalSlots
      ensures old(Contiguous()) ==> Contiguous()
    {
      hide Agrees, PricedList.Valid, Runs, Trimmed, Total, Distinct, NoncesCut;
      count', e' := count, e;
      while count' > config.globalSlots && |pending[s[|s| - 1]]| > threshold
        invariant Ok({}, {}) && Trimmed(p0, pending) && all <= old(all) && pending.Keys == old(pending).Keys
        invariant NoncesCut(chainNonce, p0, pending, pn0, pendingNonces)
        invariant Level(pending, s, e') && e' >= threshold && count' == Total(pending)
        invariant forall a :: a in old(pending) && a !in s ==> pending[a] == old(pending)[a]
        invariant count > config.globalSlots ==> count' + |s| > config.globalSlots
        invariant old(Contiguous()) ==> Contiguous()
        decreases e'
      {
        ghost var p := pending;
        CutRound(s, p0, pn0);
        RoundIsLevel(p, pending, s, e');
        count', e' := count' - |s|, e' - 1;
      }
    }

    /** `for _, list := range lists { n += list.Len() }` */
    method CountAll(lists: Senders) returns (n: nat)
      ensures n == Total(lists)
    {
      hide Total;
      assert Total(map[]) == 0 by { NoneTotal(); }
      n := 0;
      var todo := lists;
      while todo != map[]
        invariant n + Total(todo) == Total(lists)
        decreases |todo|
      {
        var a :| a in todo;
        TotalSet(todo, a, todo[a]);
        n, todo := n + |todo[a]|, todo - {a};
      }
    }

    /** Take the largest remaining spammer and bring the earlier offenders down towards it. */
    method NextOffender(count: nat, spammers: set<nat>, offenders: seq<nat>, ghost p0: Senders, ghost pn0: map<nat, nat>,
                        ghost e: nat)
      returns (count': nat, spammers': set<nat>, offenders': seq<nat>, ghost e': nat)
      requires Ok({}, {}) && count == Total(pending) && count > config.globalSlots && spammers != {}
      requires Stage(p0, pending, locals, config.accountSlots, spammers, offenders, e) && Even(pending, offenders, e)
      requires NoncesCut(chainNonce, p0, pending, pn0, pendingNonces)
      modifies this`pending, this`all, this`pendingNonces, priced
      ensures Ok({}, {}) && all <= old(all) && count' == Total(pending) && spammers' < spammers
      ensures Stage(p0, pending, locals, config.accountSlots, spammers', offenders', e')
      ensures NoncesCut(chainNonce, p0, pending, pn0, pendingNonces)
      ensures count' > config.globalSlots ==> Even(pending, offenders', e')
      ensures count' + |offenders| > config.globalSlots
      ensures old(Contiguous()) ==> Contiguous()
    {
      hide Agrees, PricedList.Valid, Runs, Trimmed, Total, Distinct, Level, Stage, NoncesCut;
      LargestExists(pending, spammers);
      SpammerFacts(p0, pending, locals, config.accountSlots, spammers, offenders, e);
      var offender: nat :| offender in spammers && forall b :: b in spammers ==> Size(pending, b) <= Size(pending, offender);
      spammers', offenders' := spammers - {offender}, offenders + [offender];
      count', e' := count, Size(p0, offender);
      ghost var p := pending;
      if |offenders'| > 1 {
        EvenIsLevel(p0, p, locals, config.accountSlots, spammers, offenders, e);
        var threshold := |pending[offender]|;
        count', e' := Equalise(offenders, threshold, count, p0, pn0, Size(p, offenders[|offenders| - 1]));
      } else {
        assert Level(pending, offenders, e') by { EmptyLevel(pending, e'); }
      }
      StagePop(p0, p, pending, locals, config.accountSlots, spammers, offenders, e, offender, e');
    }

    /** The second part of promoteExecutables: the limit on pending transactions. */
    method TruncatePending()
      requires Ok({}, {})
      modifies this`pending, this`all, this`pendingNonces, priced
      ensures Ok({}, {}) && all <= old(all)
      ensures PendingCut(old(pending), pending, locals, config)
      ensures NoncesCut(chainNonce, old(pending), pending, old(pendingNonces), pendingNonces)
      ensures old(Contiguous()) ==> Contiguous()
    {
      hide Agrees, PricedList.Valid, Runs, Trimmed, Total, Distinct, Stage, Spares, Fair, Level, Even, NoncesCut;
      ghost var p0, pn0 := pending, pendingNonces;
      NothingCut(chainNonce, p0, pn0);
      var count := CountAll(pending);
      var spammers := set a | a in pending && a !in locals && |pending[a]| > config.accountSlots;
      var offenders: seq<nat> := [];
      ghost var e: nat := 0;
      StageStarts(p0, locals, config.accountSlots);
      if count > config.globalSlots {
        while count > config.globalSlots && spammers != {}
          invariant Ok({}, {}) && all <= old(all) && count == Total(pending)
          invariant Stage(p0, pending, locals, config.accountSlots, spammers, offenders, e)
          invariant count > config.globalSlots ==> Even(pending, offenders, e)
          invariant NoncesCut(chainNonce, p0, pending, pn0, pendingNonces)
          invariant count + |p0| > config.globalSlots
          invariant old(Contiguous()) ==> Contiguous()
          decreases spammers
        {
          OffendersFit(p0, pending, locals, config.accountSlots, spammers, offenders, e);
          count, spammers, offenders, e := NextOffender(count, spammers, offenders, p0, pn0, e);
        }
        StageSpares(p0, pending, locals, config.accountSlots, spammers, offenders, e);
        if count > config.globalSlots && |offenders| > 0 {
          ghost var p := pending;
          EvenIsLevel(p0, p, locals, config.accountSlots, spammers, offenders, e);
          StageFacts(p0, p, locals, config.accountSlots, spammers, offenders, e);
          OffendersFit(p0, pending, locals, config.accountSlots, spammers, offenders, e);
          ghost var e';
          count, e' := Equalise(offenders, config.accountSlots, count, p0, pn0, Size(p, offenders[|offenders| - 1]));
          LevelSpares(p0, p, pending, locals, config.accountSlots, offenders, e, e');
        }
      } else {
        StageSpares(p0, pending, locals, config.accountSlots, spammers, offenders, e);
      }
    }

    // ----- The queue limit -----

    /** removeTx on a queued transaction. */
    method DropQueued(a: nat, n: nat)
      requires Ok({}, {}) && a in queue && n in queue[a]
      modifies this`pending, this`queue, this`all, this`beats, this`pendingNonces, priced
      ensures Ok({}, {}) && all <= old(all) && OnlyQueue(old(Now()), Now())
      ensures queue == SetList(old(queue), a, old(queue)[a] - {n}) && Total(queue) == Total(old(queue)) - 1
      ensures old(Contiguous()) ==> Contiguous()
    {
      hide Agrees, PricedList.Valid, Runs, Total;
      var t := queue[a][n];
      QueuedFacts(pending, queue, all, a, n);
      TotalSet(queue, a, queue[a] - {n});
      OneNonceLess(queue[a], n);
      RemoveTx(t, {});
    }

    /** The whole queue of one account goes. */
    method DropQueue(a: nat)
      requires Ok({}, {})
      modifies this`pending, this`queue, this`all, this`beats, this`pendingNonces, priced
      ensures Ok({}, {}) && all <= old(all) && OnlyQueue(old(Now()), Now())
      ensures ListOf(queue, a) == map[] && (forall b :: b != a ==> ListOf(queue, b) == ListOf(old(queue), b))
      ensures queue.Keys <= old(queue).Keys && Total(queue) == Total(old(queue)) - Size(old(queue), a)
      ensures old(Contiguous()) ==> Contiguous()
    {
      hide Agrees, PricedList.Valid, Runs, Total, SetList;
      while a in queue && queue[a] != map[]
        invariant Ok({}, {}) && all <= old(all) && OnlyQueue(old(Now()), Now())
        invariant forall b :: b != a ==> ListOf(queue, b) == ListOf(old(queue), b)
        invariant queue.Keys <= old(queue).Keys
        invariant Total(queue) - Size(queue, a) == Total(old(queue)) - Size(old(queue), a)
        invariant old(Contiguous()) ==> Contiguous()
        decreases Size(queue, a)
      {
        var n :| n in queue[a];
        SetListFrame(queue, a, queue[a] - {n});
        OneNonceLess(queue[a], n);
        DropQueued(a, n);
      }
    }

    /** The k highest nonces of one account's queue go. */
    method DropLast(a: nat, k: nat)
      requires Ok({}, {}) && k <= Size(queue, a)
      modifies this`pending, this`queue, this`all, this`beats, this`pendingNonces, priced
      ensures Ok({}, {}) && all <= old(all) && OnlyQueue(old(Now()), Now())
      ensures InitialPart(ListOf(queue, a), ListOf(old(queue), a))
      ensures forall b :: b != a ==> ListOf(queue, b) == ListOf(old(queue), b)
      ensures queue.Keys <= old(queue).Keys && Total(queue) == Total(old(queue)) - k
      ensures old(Contiguous()) ==> Contiguous()
    {
      hide Agrees, PricedList.Valid, Runs, Total, SetList, Lowest;
      var i := k;
      while i > 0
        invariant 0 <= i <= Size(queue, a)
        invariant Ok({}, {}) && all <= old(all) && OnlyQueue(old(Now()), Now())
        invariant InitialPart(ListOf(queue, a), ListOf(old(queue), a))
        invariant forall b :: b != a ==> ListOf(queue, b) == ListOf(old(queue), b)
        invariant queue.Keys <= old(queue).Keys && Total(queue) == Total(old(queue)) - (k - i)
        invariant old(Contiguous()) ==> Contiguous()
      {
        CapByOne(queue[a]);
        SetListFrame(queue, a, queue[a] - {Greatest(queue[a])});
        DropQueued(a, Greatest(queue[a]));
        i := i - 1;
      }
    }

    /** The third part of promoteExecutables: the limit on queued transactions. */
    method TruncateQueue()
      requires Ok({}, {})
      modifies this`pending, this`queue, this`all, this`beats, this`pendingNonces, priced
      ensures Ok({}, {}) && all <= old(all) && OnlyQueue(old(Now()), Now())
      ensures QueueCut(old(queue), queue, old(beats), locals, config)
      ensures old(Contiguous()) ==> Contiguous()
    {
      hide Agrees, PricedList.Valid, Runs, Total, InitialPart;
      WholeParts(queue);
      var queued := CountAll(queue);
      if queued <= config.globalQueue { return; }
      var when := beats;
      var addresses := set a | a in queue && a !in locals;
      var drop: nat := queued - config.globalQueue;
      ghost var q0 := queue;
      EvictionStarts(q0, when, locals, addresses, drop);
      hide Evicting;
      while drop > 0 && addresses != {}
        invariant Ok({}, {}) && all <= old(all) && OnlyQueue(old(Now()), Now())
        invariant Total(queue) == config.globalQueue + drop
        invariant Evicting(q0, queue, when, locals, addresses, drop)
        invariant old(Contiguous()) ==> Contiguous()
        decreases addresses
      {
        NewestExists(when, addresses);
        var a :| a in addresses && forall b :: b in addresses ==> Beat(when, b) <= Beat(when, a);
        ghost var q, was := queue, drop;
        var size := |ListOf(queue, a)|;
        if size <= drop {
          DropQueue(a);
          drop := drop - size;
          EmptyPart(ListOf(q, a));
        } else {
          DropLast(a, drop);
          drop := 0;
        }
        Evict(q0, q, queue, when, locals, addresses, was, drop, a);
        addresses := addresses - {a};
      }
      EvictionEnds(q0, queue, when, locals, addresses, drop);
    }

    /** The eviction tick: queues of remote accounts without a recent heartbeat go. */
    method EvictIdle(idle: nat -> bool)
      requires Ok({}, {})
      modifies this`pending, this`queue, this`all, this`beats, this`pendingNonces, priced
      ensures Ok({}, {}) && all <= old(all) && OnlyQueue(old(Now()), Now())
      ensures forall a :: ListOf(queue, a) == if a !in locals && idle(a) then map[] else ListOf(old(queue), a)
      ensures old(Contiguous()) ==> Contiguous()
    {
      hide Agrees, PricedList.Valid, Runs, Total;
      var todo := queue.Keys;
      while todo != {}
        invariant Ok({}, {}) && all <= old(all) && OnlyQueue(old(Now()), Now())
        invariant forall a :: ListOf(queue, a) ==
                    if a !in locals && idle(a) && a !in todo then map[] else ListOf(old(queue), a)
        invariant old(Contiguous()) ==> Contiguous()
      {
        var a :| a in todo;
        todo := todo - {a};
        if a !in locals && idle(a) { DropQueue(a); }
      }
    }

    /** The first part of promoteExecutables, for the given accounts or for all that have something queued. */
    method PromoteAll(accounts: Option<seq<nat>>, now: nat)
      requires Ok({}, {})
      modifies this`pending, this`queue, this`all, this`beats, this`pendingNonces, priced
      ensures Ok({}, {}) && all <= old(all) && (old(Payable()) ==> Payable())
      ensures old(Contiguous()) || (accounts.None? && old(PendingRuns())) ==> Contiguous()
      ensures Grew(old(pending), pending) && BeatsAt(now, old(pending), pending, old(beats), beats)
      ensures accounts.None? || Distinct(accounts.value) ==>
                PromotedAll(Here(), old(pendingNonces), old(pending), old(queue), pendingNonces, pending, queue, accounts)
    {
      hide Agrees, PricedList.Valid, AllRun, Run, Beyond, AllPayable, Part, Promoting, PromotedAll, Distinct, BeatsAt, Grew;
      var accs;
      if accounts.Some? { accs := accounts.value; } else { accs := SeqOfSet(queue.Keys); }
      assert accounts.None? ==> Distinct(accs) && forall a :: a in queue <==> a in accs by {
        if accounts.None? { KeysListed(queue, accs); }
      }
      PromoteAccounts(accs, now);
      if accounts.None? && old(PendingRuns()) {
        forall a ensures Beyond(queue, chainNonce, pendingNonces, a) {
          if a in accs {
            assert Handled(a, true);
          } else {
            NothingQueued(queue, chainNonce, pendingNonces, a);
          }
        }
        RunsFromParts(pending, queue, chainNonce, pendingNonces);
      }
      PromotingEnds(Here(), old(pendingNonces), old(pending), old(queue), pendingNonces, pending, queue, accs, accounts);
    }

    /** The two limits. */
    method CutToLimits()
      requires Ok({}, {})
      modifies this`pending, this`queue, this`all, this`beats, this`pendingNonces, priced
      ensures Ok({}, {}) && all <= old(all) && beats == old(beats) && WithinLimits()
      ensures PendingCut(old(pending), pending, locals, config) && QueueCut(old(queue), queue, beats, locals, config)
      ensures NoncesCut(chainNonce, old(pending), pending, old(pendingNonces), pendingNonces)
      ensures (old(Contiguous()) ==> Contiguous()) && (old(Payable()) ==> Payable())
    {
      hide Agrees, PricedList.Valid, Total, Runs, AllPayable, PendingCut, QueueCut, NoncesCut, ListOf, Size;
      TruncatePending();
      if old(Payable()) { TrimPays(old(pending), pending, locals, config, chainNonce, balance, maxGas); }
      TruncateQueue();
      LimitsKept(old(pending), pending, old(queue), queue, beats, locals, config);
    }

    /**
     promoteExecutables, for the given accounts or for all that have something
     queued. The course records the lists after promotion and the heartbeats
     then; the two limits cut them down to what is left.
     */
    method PromoteExecutables(accounts: Option<seq<nat>>, now: nat) returns (ghost c: Course)
      requires Ok({}, {})
      modifies this`pending, this`queue, this`all, this`beats, this`pendingNonces, priced
      ensures Ok({}, {}) && all <= old(all)
      ensures WithinLimits() && (old(Payable()) ==> Payable())
      ensures old(Contiguous()) || (accounts.None? && old(PendingRuns())) ==> Contiguous()
      ensures StartsAt(c, old(Now())) && Grew(c.p, c.p1) && beats == c.when
      ensures accounts.None? || Distinct(accounts.value) ==>
                && FollowsCourse(Here(), c, accounts, now, Now())
                && forall t :: t in old(all) - all ==> Leaves(Here(), c.p1, c.q1, t)
      ensures PendingCut(c.p1, pending, locals, config) && QueueCut(c.q1, queue, beats, locals, config)
      ensures forall a :: a in locals ==> Part(ListOf(old(pending), a), ListOf(pending, a))
      ensures forall a :: Size(pending, a) >= Size(old(pending), a) || Size(pending, a) >= config.accountSlots
    {
      hide Agrees, PricedList.Valid, Total, AllRun, Runs, Spares, Fair, InitialPart, AllPayable, Part, PromotedAll, Leaves,
        PendingCut, QueueCut, NoncesCut, Distinct, FollowsCourse, BeatsAt, Grew, ListOf, Size;
      PromoteAll(accounts, now);
      c := Course(old(pendingNonces), old(pending), old(queue), old(beats), pendingNonces, pending, queue, beats);
      CutToLimits();
      Survivors(c.p, c.p1, pending, locals, config);
      if accounts.None? || Distinct(accounts.value) { CourseEnds(Here(), c, accounts, now, old(all), Now()); }
    }

    // ----- Adding -----

    /** Remove everything in `drop`, whose price entries are already gone. */
    method RemoveAll(drop: seq<Tx>)
      requires Agrees(pending, queue, all, {}) && priced.Valid(all - set t | t in drop)
      modifies this`pending, this`queue, this`all, this`beats, this`pendingNonces, priced
      ensures Ok({}, {}) && Removed(chainNonce, old(Now()), Now(), Among(drop)) && all == old(all) - set t | t in drop
      ensures old(Contiguous()) ==> Contiguous()
    {
      hide Agrees, PricedList.Valid, Runs, RemovedFrom, TakenOut, Among;
      ghost var u := set t | t in drop;
      NoneAmong(drop);
      RemovedNothing(chainNonce, Now());
      for i := 0 to |drop|
        invariant Ok({}, u) && Removed(chainNonce, old(Now()), Now(), Among(drop[..i]))
        invariant old(Contiguous()) ==> Contiguous()
      {
        ghost var b := Now();
        RemoveTx(drop[i], u);
        AmongStep(drop, i);
        RemovedMore(chainNonce, old(Now()), b, Now(), Among(drop[..i]), drop[i]);
      }
      AmongAll(drop);
      assert all - u == all && all - {} == all;
    }

    /** A pending transaction is replaced by a better one with the same nonce. */
    method ReplacePending(tx: Tx)
      requires Ok({}, {}) && tx !in all && tx.nonce in ListOf(pending, tx.sender)
      modifies this`pending, this`all, priced
      ensures Ok({}, {}) && pending == old(pending)[tx.sender := With(old(pending)[tx.sender], tx)]
      ensures all == old(all) - {old(pending)[tx.sender][tx.nonce]} + {tx}
      ensures old(Contiguous()) ==> Contiguous()
    {
      hide Agrees, PricedList.Valid, Runs;
      var l: Nonces := pending[tx.sender];
      assert tx.nonce !in ListOf(queue, tx.sender) by { ApartOf(pending, queue, all, {}); }
      IntoPending(pending, queue, all, {}, tx);
      assert {} - {tx} == {};
      if Contiguous() { ReplaceKeepsRuns(pending, queue, chainNonce, pendingNonces, tx); }
      pending := pending[tx.sender := l[tx.nonce := tx]];
      ghost var live := all - {};
      all := all - {l[tx.nonce]};
      Shrink(priced, live, all - {});
      priced.Removed(all, all - {});
      live := all - {};
      priced.Put(tx, live);
      all := all + {tx};
      Shrink(priced, live + {tx}, all - {});
    }

    /**
     The tail of add: outbid the transaction of this sender and nonce, pending
     or queued, or else be refused; nothing else moves.
     */
    method Place(tx: Tx, local: bool) returns (err: bool, replaced: bool)
      requires Ok({}, {}) && tx !in all && chainNonce(tx.sender) <= tx.nonce
      modifies this`pending, this`queue, this`all, this`beats, this`pendingNonces, this`locals, priced
      ensures Ok({}, {}) && Placed(config.priceBump, old(Now()), Now(), tx, local, err)
      ensures replaced <==> !err && Rivals(old(all), tx) != {}
      ensures old(Contiguous()) ==> Contiguous()
    {
      hide Agrees, PricedList.Valid, Runs, Outbids, Rivals;
      OneRival(pending, queue, all, tx);
      if tx.nonce in ListOf(pending, tx.sender) {
        if !Outbids(tx, pending[tx.sender][tx.nonce], config.priceBump) { return true, false; }
        ReplacePending(tx);
        return false, true;
      }
      if Contiguous() { EnqueueKeepsRuns(pending, queue, chainNonce, pendingNonces, tx); }
      err, replaced := EnqueueTx(tx, {}, {});
      if err { return; }
      assert {} - {tx} == {};
      if local { locals := locals + {tx.sender}; } else { assert locals + {} == locals; }
    }

    function Room(): nat {
      RoomOf(config)
    }

    /** In a full pool, either the newcomer is too cheap or the cheapest remote ones go. */
    method MakeRoom(tx: Tx) returns (under: bool)
      requires Ok({}, {})
      modifies this`pending, this`queue, this`all, this`beats, this`pendingNonces, priced
      ensures Ok({}, {}) && (under <==> TooCheap(Room(), old(Now()), tx))
      ensures if under then Now() == old(Now()) else MadeRoom(chainNonce, Room(), old(Now()), Now())
      ensures old(Contiguous()) ==> Contiguous()
    {
      hide Agrees, PricedList.Valid, Runs, RemovedFrom;
      assert all - {} == all && all - all == {};
      RemovedNothing(chainNonce, Now());
      if |all| < Room() { return false; }
      under := priced.Underpriced(tx, all, locals);
      if under { return; }
      var drop := priced.Discard(|all| - (Room() - 1), all, locals);
      SetOfSeq(drop);
      ghost var gone := set t | t in drop;
      assert all - (all - gone) == gone && (|drop| > 0 ==> drop[0] in gone);
      RemoveAll(drop);
    }

    /** add: validate, make room, then replace a transaction or queue. `mid` is the pool once there is room. */
    method Add(tx: Tx, local: bool, wellFormed: bool) returns (err: bool, replaced: bool, ghost mid: Books)
      requires Ok({}, {})
      modifies this`pending, this`queue, this`all, this`beats, this`pendingNonces, this`locals, priced
      ensures Ok({}, {}) && Adds(old(Here()), gasPrice, local, wellFormed, old(Now()), mid, Now(), tx, err)
      ensures Decided(old(Here()), gasPrice, local, wellFormed, old(Now()), tx, err)
      ensures replaced <==> !err && Rivals(mid.all, tx) != {}
      ensures old(Contiguous()) ==> Contiguous()
      ensures old(Payable()) ==> Payable()
    {
      hide Ok, Runs, Rivals, TooCheap, MadeRoom, Placed, AllPayable, Decided;
      mid := Now();
      if tx in all || !AcceptableTo(Here(), locals, gasPrice, tx, local, wellFormed) {
        AddsSound(Here(), gasPrice, local, wellFormed, Now(), mid, Now(), tx, true);
        return true, false, mid;
      }
      var under := MakeRoom(tx);
      mid := Now();
      if under {
        AddsSound(old(Here()), gasPrice, local, wellFormed, old(Now()), mid, Now(), tx, true);
        return true, false, mid;
      }
      RoomFacts(chainNonce, Room(), old(Now()), mid);
      err, replaced := Place(tx, local);
      AddsSound(old(Here()), gasPrice, local, wellFormed, old(Now()), mid, Now(), tx, err);
      if old(Payable()) {
        AddsPays(old(Here()), gasPrice, local, wellFormed, old(Now()), mid, Now(), tx, err);
      }
    }

    /**
     addTx: what is new and replaced nothing gets its sender promoted. What leaves
     goes to make room, is outbid, or has to go by promotion's limits.
     */
    method AddTx(tx: Tx, local: bool, wellFormed: bool, now: nat)
      returns (err: bool, ghost mid: Books, ghost added: Books, ghost c: Course)
      requires Ok({}, {})
      modifies this`pending, this`queue, this`all, this`beats, this`pendingNonces, this`locals, priced
      ensures Ok({}, {}) && all <= old(all) + {tx} && locals == added.locals
      ensures Adds(old(Here()), gasPrice, local, wellFormed, old(Now()), mid, added, tx, err)
      ensures Decided(old(Here()), gasPrice, local, wellFormed, old(Now()), tx, err)
      ensures if err || Rivals(mid.all, tx) != {} then Now() == added
              else StartsAt(c, added) && FollowsCourse(Here(), c, Some([tx.sender]), now, Now()) && WithinLimits()
      ensures forall t :: t in old(all) - all ==>
                || t in old(all) - mid.all || (!err && t in Rivals(mid.all, tx))
                || (!err && Rivals(mid.all, tx) == {} && Leaves(Here(), c.p1, c.q1, t))
      ensures old(Contiguous()) ==> Contiguous()
      ensures old(Payable()) ==> Payable()
    {
      hide Ok, Runs, Total, Rivals, Leaves, Adds, AllPayable, FollowsCourse, PendingCut, QueueCut, Grew, Part, Decided;
      var replaced;
      err, replaced, mid := Add(tx, local, wellFormed);
      added := Now();
      AddsFacts(old(Here()), gasPrice, local, wellFormed, old(Now()), mid, added, tx, err);
      c := Course(pendingNonces, pending, queue, beats, pendingNonces, pending, queue, beats);
      if !err && !replaced { c := PromoteExecutables(Some([tx.sender]), now); }
    }

    /**
     addTxsLocked: the batch is added one by one, then the senders of what is new
     are promoted; what is missing was dropped at one of txs or by the promotion.
     */
    method AddTxs(txs: seq<Tx>, local: bool, wellFormed: set<Tx>, now: nat) returns (errs: seq<bool>, ghost r: Batch)
      requires Ok({}, {})
      modifies this`pending, this`queue, this`all, this`beats, this`pendingNonces, this`locals, priced
      ensures Ok({}, {}) && all <= old(all) + Among(txs) && (!local ==> locals == old(locals))
      ensures AddedAll(Here(), gasPrice, local, wellFormed, txs, now, old(Now()), r, Now()) && errs == r.errs
      ensures WithinLimits() || (r.addrs == [] && OnlyRivals(old(all), all, old(all) + Among(txs)))
      ensures forall t :: t in old(all) - all ==>
                DroppedIn(txs, r, t) || (r.addrs != [] && Leaves(Here(), r.course.p1, r.course.q1, t))
      ensures old(Contiguous()) ==> Contiguous()
      ensures old(Payable()) ==> Payable()
    {
      hide Ok, Runs, Among, Total, OnlyRivals, Rivals, Leaves, Batched, Dirty, Adds, AllPayable, FollowsCourse, PendingCut,
        QueueCut, Grew, Part, DroppedIn, Decided;
      ghost var w, known := Here(), all + Among(txs);
      var dirty: set<nat> := {};
      errs := [];
      r := NoBatch(Now());
      BatchStarts(w, gasPrice, local, wellFormed, txs, Now());
      for i := 0 to |txs|
        invariant Ok({}, {}) && Batched(w, gasPrice, local, wellFormed, txs, r, i) && |r.mids| == |r.errs| == i
        invariant |r.states| == i + 1 && r.states[0] == old(Now()) && r.states[i] == Now()
        invariant errs == r.errs && dirty == Dirty(txs, r, i) && r.addrs == []
        invariant old(Contiguous()) ==> Contiguous()
        invariant old(Payable()) ==> Payable()
      {
        var err, replaced;
        ghost var mid, here := Now(), Here();
        err, replaced, mid := Add(txs[i], local, txs[i] in wellFormed);
        AddsAnyway(here, w, gasPrice, local, txs[i] in wellFormed, r.states[i], mid, Now(), txs[i], err);
        BatchedMore(w, gasPrice, local, wellFormed, txs, r, i, mid, Now(), err);
        errs, r := errs + [err], More(r, mid, Now(), err);
        if !err && !replaced { dirty := dirty + {txs[i].sender}; }
      }
      ghost var was := r;
      if dirty != {} {
        var addrs := SeqOfSet(dirty);
        SetListed(dirty, addrs);
        ghost var c := PromoteExecutables(Some(addrs), now);
        r := Batch(r.states, r.mids, r.errs, addrs, c);
      }
      BatchEnds(w, Here(), gasPrice, local, wellFormed, txs, was, r);
    }

    /** SetGasPrice: afterwards nothing remote is priced below the new minimum. */
    method SetGasPrice(price: nat)
      requires Ok({}, {})
      modifies this`gasPrice, this`pending, this`queue, this`all, this`beats, this`pendingNonces, priced
      ensures Ok({}, {}) && gasPrice == price
      ensures all == set t | t in old(all) && (t.price >= price || t.sender in locals)
      ensures Removed(chainNonce, old(Now()), Now(), old(all) - all)
      ensures old(Contiguous()) ==> Contiguous()
    {
      hide Agrees, PricedList.Valid, Runs, RemovedFrom;
      gasPrice := price;
      assert all - {} == all;
      var drop := priced.Cap(price, all, locals);
      RemoveAll(drop);
      assert Among(drop) == old(all) - all;
    }

    // ----- A new chain head -----

    /** Behind the chain, or not payable. */
    predicate Useless(t: Tx)
      reads this
    {
      UselessTo(Here(), t)
    }

    /** One round of demoteUnexecutables. */
    method DemoteAccount(a: nat)
      requires Ok({}, {}) && a in pending
      modifies this`pending, this`queue, this`all, this`beats, priced
      ensures Ok({}, {}) && all <= old(all)
      ensures var kept := Executable(old(pending)[a], chainNonce(a), Over(balance(a), maxGas));
              pending == SetList(old(pending), a, kept)
      ensures all == old(all) - Dropped(old(pending)[a], chainNonce(a), Over(balance(a), maxGas))
      ensures forall b :: b != a ==> ListOf(queue, b) == ListOf(old(queue), b)
      ensures beats == if a in pending then old(beats) else old(beats) - {a}
    {
      hide Agrees, PricedList.Valid, StrictKept, From, JoinList, Dropped;
      ghost var p0 := pending;
      var c, over := chainNonce(a), Over(balance(a), maxGas);
      ghost var kept := StrictKept(From(p0[a], c), over);
      DropUseless(a);
      if pending[a] != map[] && c !in pending[a] {
        GapInFront(pending, queue, all, a);
        UpdateTwice(p0, a, kept, map[]);
        var gapped := pending[a];
        pending := pending[a := map[]];
        JoinFrame(queue, a, gapped);
        Requeue(a, gapped, {});
      }
      assert pending == p0[a := Executable(p0[a], c, over)];
      if pending[a] == map[] {
        DropEmptyPending(pending, queue, all, {}, a);
        DropUpdated(p0, a, map[]);
        pending, beats := pending - {a}, beats - {a};
      }
    }

    /** Forward and Filter on one pending list: the useless go, the invalidated are queued again. */
    method DropUseless(a: nat)
      requires Ok({}, {}) && a in pending
      modifies this`pending, this`queue, this`all, priced
      ensures Ok({}, {})
      ensures var c, over := chainNonce(a), Over(balance(a), maxGas);
              && pending == old(pending)[a := StrictKept(From(old(pending)[a], c), over)]
              && all == old(all) - Dropped(old(pending)[a], c, over)
              && queue == JoinList(old(queue), a, StrictInvalid(From(old(pending)[a], c), over))
      ensures forall b :: b != a ==> ListOf(queue, b) == ListOf(old(queue), b)
    {
      hide Agrees, PricedList.Valid, Under, From, Where, StrictKept, StrictInvalid, JoinList, Txs;
      var l, c, over := pending[a], chainNonce(a), Over(balance(a), maxGas);
      var low, high := Under(l, c), From(l, c);
      var drops, invalids, kept := Where(high, over), StrictInvalid(high, over), StrictKept(high, over);
      DemotionParts(pending, queue, all, a, c, over);
      pending := pending[a := kept];
      ghost var f := Txs(low) + Txs(drops) + Txs(invalids);
      DropAll(low, f, {});
      DropAll(drops, f - Txs(low), {});
      assert f - Txs(low) - Txs(drops) == Txs(invalids);
      JoinFrame(queue, a, invalids);
      Requeue(a, invalids, {});
    }

    /** demoteUnexecutables: what stays pending starts at the chain nonce. */
    method DemoteUnexecutables()
      requires Ok({}, {})
      modifies this`pending, this`queue, this`all, this`beats, priced
      ensures Ok({}, {}) && all <= old(all)
      ensures forall a :: ListOf(pending, a) ==
                if a in old(pending) then Executable(old(pending)[a], chainNonce(a), Over(balance(a), maxGas)) else map[]
      ensures forall a :: a in pending ==> pending[a] != map[]
      ensures forall t :: t in all <==> t in old(all) && !(Holds(old(pending), t) && Useless(t))
      ensures EndedBeats(old(pending), pending, old(beats), beats)
    {
      hide Agrees, PricedList.Valid, Executable, SetList, Dropped, EndedBeats;
      ghost var p0 := pending;
      assert Filed(p0) by { FiledOf(pending, queue, all); }
      var todo := pending.Keys;
      BeatsGoOn(p0, beats);
      while todo != {}
        invariant EndedBeats(p0, pending, old(beats), beats)
        invariant Ok({}, {}) && all <= old(all) && Demoting(p0, pending, todo, chainNonce, balance, maxGas)
        invariant forall t :: t in all <==> t in old(all) && !(t.sender !in todo && Holds(p0, t) && Useless(t))
        decreases todo
      {
        var a :| a in todo;
        DemotionStep(p0, pending, todo, chainNonce, balance, maxGas, a);
        DroppedAre(p0, a, chainNonce(a), Over(balance(a), maxGas));
        ghost var p, beat := pending, beats;
        SetListFrame(p, a, Executable(p[a], chainNonce(a), Over(balance(a), maxGas)));
        DemoteAccount(a);
        BeatsEnd(p0, p, pending, a, old(beats), beat, beats);
        todo := todo - {a};
      }
    }

    /** Every account's pending nonce is set behind its last pending transaction. */
    method SyncNonces()
      requires forall a :: a in pending ==> pending[a] != map[]
      modifies this`pendingNonces
      ensures forall a :: PendingNonce(a) == if a in pending then Greatest(pending[a]) + 1 else old(PendingNonce(a))
    {
      var todo := pending.Keys;
      while todo != {}
        invariant todo <= pending.Keys
        invariant forall a :: PendingNonce(a) ==
                    if a in pending && a !in todo then Greatest(pending[a]) + 1 else old(PendingNonce(a))
      {
        var a :| a in todo;
        pendingNonces := pendingNonces[a := Greatest(pending[a]) + 1];
        todo := todo - {a};
      }
    }

    /** No pending list has a hole. */
    ghost predicate NoHoles()
      reads this
    {
      forall a :: a in pending ==> Unbroken(pending[a])
    }

    /** demoteUnexecutables, then the pending nonces. */
    method Demote()
      requires Ok({}, {})
      modifies this`pending, this`queue, this`all, this`beats, this`pendingNonces, priced
      ensures Ok({}, {}) && all <= old(all) && Demoted(Here(), old(Now()), Now()) && Payable()
    {
      hide Agrees, PricedList.Valid, Executable, PayableList, Over, EndedBeats, AllPayable;
      DemoteUnexecutables();
      AllPays(old(pending), pending, chainNonce, balance, maxGas);
      SyncNonces();
    }

    /** The first part of reset, up to the pending nonces. */
    method Rebase(chainNonce: nat -> nat, balance: nat -> nat, maxGas: nat, reinject: seq<Tx>, wellFormed: set<Tx>, now: nat)
      returns (ghost r: Batch, ghost added: Books)
      requires Ok({}, {})
      modifies this`chainNonce, this`balance, this`maxGas
      modifies this`pending, this`queue, this`all, this`beats, this`pendingNonces, this`locals, priced
      ensures Ok({}, {}) && all <= added.all <= old(all) + Among(reinject)
      ensures this.chainNonce == chainNonce && this.balance == balance && this.maxGas == maxGas && locals == old(locals)
      ensures AddedAll(Here(), gasPrice, false, wellFormed, reinject, now, old(Now()).(pn := map[]), r, added)
      ensures Demoted(Here(), added, Now()) && Payable()
      ensures reinject == [] && old(NoHoles()) ==> PendingRuns()
      ensures forall t :: t in old(all) - added.all ==>
                DroppedIn(reinject, r, t) || (r.addrs != [] && Leaves(Here(), r.course.p1, r.course.q1, t))
    {
      hide Agrees, PricedList.Valid, Executable, Runs, Total, PayableList, Leaves, DroppedIn, Among, UselessTo, Over, Unbroken,
        AddedAll, AllPayable, OnlyRivals, Demoted, AllRun;
      this.chainNonce, this.balance, this.maxGas := chainNonce, balance, maxGas;
      pendingNonces := map[];
      var errs;
      errs, r := AddTxs(reinject, false, wellFormed, now);
      added := Now();
      Demote();
      if reinject == [] {
        NothingAdded(Here(), gasPrice, false, wellFormed, now, old(Now()).(pn := map[]), r, added);
        if old(NoHoles()) { DemotedRuns(Here(), added, Now()); }
      }
    }

    /**
     reset, for a new head with the given state; `reinject` are the transactions
     that a reorganisation dropped from the chain. They are added and promoted,
     then pending lists are demoted, and everything is promoted and cut to the
     limits. Every loss has its reason in one of these steps; a local sender only
     loses what became useless or was outbid.
     */
    method Reset(chainNonce: nat -> nat, balance: nat -> nat, maxGas: nat, reinject: seq<Tx>, wellFormed: set<Tx>, now: nat)
      returns (ghost r: Batch, ghost added: Books, ghost demoted: Books, ghost c: Course)
      requires Ok({}, {})
      modifies this`chainNonce, this`balance, this`maxGas
      modifies this`pending, this`queue, this`all, this`beats, this`pendingNonces, this`locals, priced
      ensures Ok({}, {}) && all <= old(all) + Among(reinject)
      ensures this.chainNonce == chainNonce && this.balance == balance && this.maxGas == maxGas && locals == old(locals)
      ensures Payable() && WithinLimits()
      ensures forall t :: Holds(pending, t) ==>
                chainNonce(t.sender) <= t.nonce && t.cost <= balance(t.sender) && t.gas <= maxGas
      ensures reinject == [] && old(NoHoles()) ==> Contiguous()
      ensures AddedAll(Here(), gasPrice, false, wellFormed, reinject, now, old(Now()).(pn := map[]), r, added)
      ensures reinject == [] ==> added == old(Now()).(pn := map[])
      ensures Demoted(Here(), added, demoted) && StartsAt(c, demoted) && FollowsCourse(Here(), c, None, now, Now())
      ensures forall t :: t in old(all) - all ==> LostBy(Here(), reinject, r, c, t)
      ensures reinject == [] ==> forall t :: t in old(all) - all ==> Leaves(Here(), c.p1, c.q1, t)
      ensures forall t :: t in old(all) - all && t.sender in locals ==>
                t.nonce < chainNonce(t.sender) || t.cost > balance(t.sender) || t.gas > maxGas || Replaced(t, reinject)
    {
      hide Agrees, PricedList.Valid, Runs, Total, PayableList, PromotedAll, PendingCut, QueueCut, Leaves, DroppedIn, Among,
        UselessTo, FollowsCourse, AllPayable, AllRun, Holds, Replaced, Grew, Part, Over, Size, AddedAll, Demoted, LostBy;
      r, added := Rebase(chainNonce, balance, maxGas, reinject, wellFormed, now);
      if reinject == [] {
        NothingAdded(Here(), gasPrice, false, wellFormed, now, old(Now()).(pn := map[]), r, added);
      }
      demoted := Now();
      c := PromoteExecutables(None, now);
      WhyLost(Here(), gasPrice, wellFormed, reinject, now, old(Now()).(pn := map[]), r, added, demoted, c, all);
      forall t | UselessTo(Here(), t)
        ensures t.nonce < chainNonce(t.sender) || t.cost > balance(t.sender) || t.gas > maxGas
      {
        UselessMeans(Here(), t);
      }
      forall t | Holds(pending, t)
        ensures chainNonce(t.sender) <= t.nonce && t.cost <= balance(t.sender) && t.gas <= maxGas
      {
        PayableMeans(pending, chainNonce, balance, maxGas, t);
      }
    }
  }

  /** A remote transaction arrives that meets no other and finds room. */
  method Arrives(pool: TxPool, tx: Tx, now: nat) returns (ghost added: Books, ghost c: Course)
    requires pool.Ok({}, {}) && pool.Contiguous() && |pool.all| < pool.Room()
    requires AcceptableTo(pool.Here(), pool.locals, pool.gasPrice, tx, false, true)
    requires tx.nonce !in ListOf(pool.pending, tx.sender) && tx.nonce !in ListOf(pool.queue, tx.sender)
    modifies pool`pending, pool`queue, pool`all, pool`beats, pool`pendingNonces, pool`locals, pool.priced
    ensures pool.Ok({}, {}) && pool.Contiguous() && pool.locals == old(pool.locals) && pool.all <= old(pool.all) + {tx}
    ensures StartsAt(c, added) && FollowsCourse(pool.Here(), c, Some([tx.sender]), now, pool.Now())
    ensures var q := old(pool.queue);
            added == old(pool.Now()).(all := added.all, q := q[tx.sender := With(ListOf(q, tx.sender), tx)])
  {
    hide Agrees, PricedList.Valid, Runs, Adds, FollowsCourse, PendingCut, QueueCut, Rivals, Leaves, Total, AcceptableTo;
    ghost var mid;
    var err;
    err, mid, added, c := pool.AddTx(tx, false, true, now);
    JustQueued(old(pool.Here()), pool.gasPrice, old(pool.Now()), mid, added, tx, err);
  }

  /** The pending nonce of a sender whose list is the run from nonce 0. */
  lemma NextNonce(p: Senders, q: Senders, chain: nat -> nat, pn: map<nat, nat>, a: nat, e: nat)
    requires Runs(p, q, chain, pn) && chain(a) == 0 && Gapless(ListOf(p, a), 0, e)
    ensures NonceOf(chain, pn, a) == e
  {
    assert Run(p, chain, pn, a);
    assert e !in ListOf(p, a) && NonceOf(chain, pn, a) !in ListOf(p, a);
  }

  function Sample(a: nat, n: nat): Tx {
    Tx(0, a, n, 1, 21000, 21000)
  }

  /** A pool with room for one queued transaction. */
  ghost predicate Small(pool: TxPool)
    reads pool, pool.priced
  {
    && pool.Ok({}, {}) && pool.Contiguous() && pool.locals == {} && pool.gasPrice == 1 && pool.maxGas == 1000000
    && pool.config == Config(10, 16, 4, 4, 1) && (forall a :: pool.chainNonce(a) == 0)
    && (forall a :: pool.balance(a) == 100000)
  }

  lemma SampleIsFine(w: World, a: nat, n: nat)
    requires w.maxGas == 1000000 && w.chain(a) == 0 && w.balance(a) == 100000
    ensures AcceptableTo(w, {}, 1, Sample(a, n), false, true) && !UselessTo(w, Sample(a, n))
  {}

  lemma AtMostOneMore(all: set<Tx>, more: set<Tx>, t: Tx)
    requires more <= all + {t}
    ensures |more| <= |all| + 1
  {
    assert all + {t} == more + (all + {t} - more);
  }

  /** Sender a's first transaction is pending at once. */
  method FirstArrives(pool: TxPool, a: nat, now: nat, ghost b: nat, ghost l: Nonces, ghost k: Nonces)
    requires Small(pool) && |pool.all| < 5 && |l| < 4 && |k| < 2
    requires Two(pool.pending, a, map[], b, l) && Two(pool.queue, a, map[], b, k)
    modifies pool`pending, pool`queue, pool`all, pool`beats, pool`pendingNonces, pool`locals, pool.priced
    ensures Small(pool) && |pool.all| <= |old(pool.all)| + 1
    ensures Two(pool.pending, a, map[0 := Sample(a, 0)], b, l) && Two(pool.queue, a, map[], b, k)
    ensures Beat(pool.beats, a) == now && Beat(pool.beats, b) == Beat(old(pool.beats), b)
  {
    hide Agrees, PricedList.Valid, Runs, FollowsCourse, AcceptableTo, UselessTo, NonceOf, Beat, With;
    ghost var w, tx := pool.Here(), Sample(a, 0);
    SampleIsFine(w, a, 0);
    ghost var added, c;
    NextNonce(pool.pending, pool.queue, w.chain, pool.pendingNonces, a, 0);
    QueuedAlone(pool.queue, tx, b, k);
    added, c := Arrives(pool, Sample(a, 0), now);
    ReadyCourse(w, c, now, pool.Now(), tx, b, l, k);
    AtMostOneMore(old(pool.all), pool.all, tx);
  }

  /** Sender a's next transaction is behind a gap. */
  method SecondArrives(pool: TxPool, a: nat, now: nat, ghost b: nat, ghost l: Nonces, ghost k: Nonces)
    returns (ghost q1: Senders)
    requires Small(pool) && |pool.all| < 5 && |l| < 4
    requires Two(pool.pending, a, map[0 := Sample(a, 0)], b, l) && Two(pool.queue, a, map[], b, k)
    modifies pool`pending, pool`queue, pool`all, pool`beats, pool`pendingNonces, pool`locals, pool.priced
    ensures Small(pool) && |pool.all| <= |old(pool.all)| + 1
    ensures Two(pool.pending, a, map[0 := Sample(a, 0)], b, l) && Two(q1, a, map[2 := Sample(a, 2)], b, k)
    ensures Beat(pool.beats, a) == Beat(old(pool.beats), a) && Beat(pool.beats, b) == Beat(old(pool.beats), b)
    ensures QueueCut(q1, pool.queue, pool.beats, {}, pool.config)
    ensures k == map[] ==> Two(pool.queue, a, map[2 := Sample(a, 2)], b, k)
  {
    hide Agrees, PricedList.Valid, Runs, FollowsCourse, AcceptableTo, UselessTo, NonceOf, Beat, QueueCut, With;
    ghost var w, tx := pool.Here(), Sample(a, 2);
    SampleIsFine(w, a, 2);
    ghost var added, c;
    NextNonce(pool.pending, pool.queue, w.chain, pool.pendingNonces, a, 1);
    QueuedAlone(pool.queue, tx, b, k);
    added, c := Arrives(pool, Sample(a, 2), now);
    WaitingCourse(w, c, now, pool.Now(), tx, b, map[0 := Sample(a, 0)], l, k);
    AtMostOneMore(old(pool.all), pool.all, tx);
    q1 := c.q1;
  }

  /**
   Room for one queued transaction. Each of two remote senders has one pending
   and one behind a gap; the sender that was active more recently loses the
   latter, the idler one keeps it.
   */
  method NewerQueueGoes() returns (pool: TxPool)
    ensures Two(pool.pending, 1, map[0 := Sample(1, 0)], 2, map[0 := Sample(2, 0)])
    ensures Two(pool.queue, 1, map[2 := Sample(1, 2)], 2, map[])
    ensures Beat(pool.beats, 1) == 5 && Beat(pool.beats, 2) == 9
  {
    hide QueueCut, PricedList.Valid, Agrees, Runs, AllPayable, Two, Beat;
    pool := new TxPool(Config(10, 16, 4, 4, 1), 1, a => 0, a => 100000, 1000000);
    NobodyYet();
    FirstArrives(pool, 1, 5, 2, map[], map[]);
    ghost var q := SecondArrives(pool, 1, 6, 2, map[], map[]);
    Swapped(pool.pending, 1, map[0 := Sample(1, 0)], 2, map[]);
    Swapped(pool.queue, 1, map[2 := Sample(1, 2)], 2, map[]);
    FirstArrives(pool, 2, 9, 1, map[0 := Sample(1, 0)], map[2 := Sample(1, 2)]);
    q := SecondArrives(pool, 2, 10, 1, map[0 := Sample(1, 0)], map[2 := Sample(1, 2)]);
    Swapped(pool.pending, 2, map[0 := Sample(2, 0)], 1, map[0 := Sample(1, 0)]);
    NewerLoses(q, pool.queue, pool.beats, {}, pool.config, 1, Sample(1, 2), 2, Sample(2, 2), 2);
  }
}
