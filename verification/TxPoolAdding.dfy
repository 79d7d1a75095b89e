/**
 What adding transactions makes of the pool, on values: removal of cheap ones to
 make room, the place the newcomer takes, and the batches of addTxsLocked.
 */
module TxPoolAdding {
  import opened Basics
  import opened TxListSpec
  import opened TxPoolSpec
  import opened TxLists
  import opened TxPoolFairness
  import opened TxPoolSteps

  /** Everything in the pool that its steps change, but for the price heap. */
  datatype Books = Books(pn: map<nat, nat>, p: Senders, q: Senders, all: set<Tx>, locals: set<nat>, beats: map<nat, nat>)

  // ----- Removal -----

  /** removeTx: out of its list; pending transactions behind it go back to the queue. */
  ghost predicate TakenOut(chain: nat -> nat, b: Books, e: Books, t: Tx) {
    var a, l := t.sender, ListOf(b.p, t.sender);
    if t !in b.all then e == b
    else if t.nonce in l then
      && e.all == b.all - {t} && e.locals == b.locals
      && e.p == SetList(b.p, a, Under(l, t.nonce)) && e.q == JoinList(b.q, a, From(l, t.nonce + 1))
      && e.pn == (if NonceOf(chain, b.pn, a) > t.nonce then b.pn[a := t.nonce] else b.pn)
      && e.beats == (if Under(l, t.nonce) == map[] then b.beats - {a} else b.beats)
    else e == b.(all := b.all - {t}, q := SetList(b.q, a, ListOf(b.q, a) - {t.nonce}))
  }

  function In(gone: set<Tx>): Tx -> bool {
    (t: Tx) => t in gone
  }

  /** The pending nonce falls back to the lowest nonce removed from pending list l, if that is lower. */
  ghost predicate Rewound(l: Nonces, gone: set<Tx>, was: nat, now: nat) {
    && now <= was && (forall n :: n in l && l[n] in gone ==> now <= n)
    && (now == was || (now in l && l[now] in gone))
  }

  /** One account after the removal of `gone`, in whatever order: what is pending behind a removed one is queued. */
  ghost predicate RemovedFrom(chain: nat -> nat, b: Books, e: Books, gone: set<Tx>, a: nat) {
    var l, k := ListOf(b.p, a), ListOf(b.q, a);
    && ListOf(e.p, a) == StrictKept(l, In(gone)) && ListOf(e.q, a) == WhereNot(k, In(gone)) + StrictInvalid(l, In(gone))
    && Rewound(l, gone, NonceOf(chain, b.pn, a), NonceOf(chain, e.pn, a))
    && Beat(e.beats, a) == (if l != map[] && ListOf(e.p, a) == map[] then 0 else Beat(b.beats, a))
  }

  ghost predicate Removed(chain: nat -> nat, b: Books, e: Books, gone: set<Tx>) {
    && e.all == b.all - gone && e.locals == b.locals
    && forall a {:trigger RemovedFrom(chain, b, e, gone, a)} :: RemovedFrom(chain, b, e, gone, a)
  }

  lemma RemovedNothing(chain: nat -> nat, b: Books)
    ensures Removed(chain, b, b, {})
  {
    forall a ensures RemovedFrom(chain, b, b, {}, a) {
      var l, k := ListOf(b.p, a), ListOf(b.q, a);
      assert StrictKept(l, In({})) == l && WhereNot(k, In({})) == k && StrictInvalid(l, In({})) == map[];
      assert k + map[] == k;
    }
  }

  /** Only what a list holds decides what a removal makes of it. */
  lemma SameRemoval(l: Nonces, f: Tx -> bool, g: Tx -> bool)
    requires forall n :: n in l ==> f(l[n]) == g(l[n])
    ensures StrictKept(l, f) == StrictKept(l, g) && StrictInvalid(l, f) == StrictInvalid(l, g)
    ensures WhereNot(l, f) == WhereNot(l, g)
  {}

  lemma RemovedElsewhere(chain: nat -> nat, b: Books, m: Books, e: Books, gone: set<Tx>, t: Tx, a: nat)
    requires RemovedFrom(chain, b, m, gone, a)
    requires ListOf(e.p, a) == ListOf(m.p, a) && ListOf(e.q, a) == ListOf(m.q, a)
    requires NonceOf(chain, e.pn, a) == NonceOf(chain, m.pn, a) && Beat(e.beats, a) == Beat(m.beats, a)
    requires forall n :: n in ListOf(b.p, a) ==> ListOf(b.p, a)[n] in gone || ListOf(b.p, a)[n] != t
    requires forall n :: n in ListOf(b.q, a) ==> ListOf(b.q, a)[n] in gone || ListOf(b.q, a)[n] != t
    ensures RemovedFrom(chain, b, e, gone + {t}, a)
  {
    SameRemoval(ListOf(b.p, a), In(gone), In(gone + {t}));
    SameRemoval(ListOf(b.q, a), In(gone), In(gone + {t}));
    hide StrictKept, StrictInvalid, WhereNot;
  }

  /** g takes out one more nonce than f. */
  ghost predicate OneMore(l: Nonces, f: Tx -> bool, g: Tx -> bool, n: nat) {
    n in l && forall x :: x in l ==> (g(l[x]) <==> f(l[x]) || x == n)
  }

  lemma FirstOut(l: Nonces, f: Tx -> bool, g: Tx -> bool, n: nat, x: nat)
    requires OneMore(l, f, g, n) && n in StrictKept(l, f)
    ensures x in StrictKept(l, g) <==> x in StrictKept(l, f) && x < n
    ensures x in StrictInvalid(l, g) <==> x in StrictInvalid(l, f) || (x in StrictKept(l, f) && x > n)
  {
    assert g(l[n]);
    if x in StrictInvalid(l, f) {
      var y :| y in l && y < x && f(l[y]);
      assert g(l[y]);
    }
    if x in StrictInvalid(l, g) && x !in StrictInvalid(l, f) {
      var y :| y in l && y < x && g(l[y]);
      assert y == n;
    }
  }

  /** A pending one goes: the list is cut there, and what was behind it is invalid now. */
  lemma StrictCut(l: Nonces, f: Tx -> bool, g: Tx -> bool, n: nat)
    requires OneMore(l, f, g, n) && n in StrictKept(l, f)
    ensures StrictKept(l, g) == Under(StrictKept(l, f), n)
    ensures StrictInvalid(l, g) == StrictInvalid(l, f) + From(StrictKept(l, f), n + 1)
  {
    hide OneMore, StrictKept, StrictInvalid;
    forall x: nat
      ensures x in StrictKept(l, g) <==> x in StrictKept(l, f) && x < n
      ensures x in StrictInvalid(l, g) <==> x in StrictInvalid(l, f) || (x in StrictKept(l, f) && x > n)
    {
      FirstOut(l, f, g, n, x);
    }
    StrictParts(l, f);
    StrictParts(l, g);
  }

  lemma LaterOut(l: Nonces, f: Tx -> bool, g: Tx -> bool, n: nat, x: nat)
    requires OneMore(l, f, g, n) && n in StrictInvalid(l, f)
    ensures x in StrictKept(l, g) <==> x in StrictKept(l, f)
    ensures x in StrictInvalid(l, g) <==> x in StrictInvalid(l, f) && x != n
  {
    var z :| z in l && z < n && f(l[z]);
    assert g(l[z]);
    if x in StrictInvalid(l, f) {
      var y :| y in l && y < x && f(l[y]);
      assert g(l[y]);
    }
    if x in StrictInvalid(l, g) {
      var y :| y in l && y < x && g(l[y]);
      assert f(l[y]) || z < x;
    }
  }

  /** One goes that is queued because it was behind a removed one. */
  lemma StrictGoes(l: Nonces, f: Tx -> bool, g: Tx -> bool, n: nat)
    requires OneMore(l, f, g, n) && n in StrictInvalid(l, f)
    ensures StrictKept(l, g) == StrictKept(l, f) && StrictInvalid(l, g) == StrictInvalid(l, f) - {n}
  {
    hide OneMore, StrictKept, StrictInvalid;
    forall x: nat
      ensures x in StrictKept(l, g) <==> x in StrictKept(l, f)
      ensures x in StrictInvalid(l, g) <==> x in StrictInvalid(l, f) && x != n
    {
      LaterOut(l, f, g, n, x);
    }
    StrictParts(l, f);
    StrictParts(l, g);
  }

  lemma OneMoreIn(l: Nonces, gone: set<Tx>, t: Tx)
    requires Keyed(l) && t.nonce in l && l[t.nonce] == t
    ensures OneMore(l, In(gone), In(gone + {t}), t.nonce)
  {}

  lemma NotInList(l: Nonces, gone: set<Tx>, t: Tx)
    requires forall n :: n in l ==> l[n] in gone || l[n] != t
    ensures StrictKept(l, In(gone + {t})) == StrictKept(l, In(gone)) && WhereNot(l, In(gone + {t})) == WhereNot(l, In(gone))
    ensures StrictInvalid(l, In(gone + {t})) == StrictInvalid(l, In(gone))
  {
    SameRemoval(l, In(gone), In(gone + {t}));
  }

  /** What filing tells of a sender's two lists. */
  lemma ListsOf(p: Senders, q: Senders, all: set<Tx>, a: nat)
    requires Agrees(p, q, all, {})
    ensures Keyed(ListOf(p, a)) && Keyed(ListOf(q, a)) && ListOf(p, a).Keys !! ListOf(q, a).Keys
    ensures forall n :: n in ListOf(p, a) ==> ListOf(p, a)[n].sender == a && ListOf(p, a)[n] in all
    ensures forall n :: n in ListOf(q, a) ==> ListOf(q, a)[n].sender == a && ListOf(q, a)[n] in all
  {
    forall n | n in ListOf(p, a) ensures ListOf(p, a)[n] in all { assert Holds(p, ListOf(p, a)[n]); }
    forall n | n in ListOf(q, a) ensures ListOf(q, a)[n] in all { assert Holds(q, ListOf(q, a)[n]); }
  }

  /** A pooled transaction is in one of its sender's lists. */
  lemma ListedOnce(p: Senders, q: Senders, all: set<Tx>, t: Tx)
    requires Agrees(p, q, all, {}) && t in all
    ensures var l, k := ListOf(p, t.sender), ListOf(q, t.sender);
            if t.nonce in l then l[t.nonce] == t else t.nonce in k && k[t.nonce] == t
  {
    assert Holds(p, t) || Holds(q, t);
    ListsOf(p, q, all, t.sender);
    hide Agrees;
  }

  lemma JoinAgain(x: Nonces, y: Nonces, z: Nonces)
    ensures x + y + z == x + (y + z)
  {}

  lemma JoinWithout(x: Nonces, y: Nonces, n: nat)
    requires x.Keys !! y.Keys
    ensures n !in x ==> x + y - {n} == x + (y - {n})
    ensures n !in y ==> x + y - {n} == (x - {n}) + y
  {}

  /** Both lists when a pending transaction goes. */
  lemma CutLists(l: Nonces, k: Nonces, gone: set<Tx>, t: Tx)
    requires Keyed(l) && Keyed(k) && l.Keys !! k.Keys
    requires t.nonce in StrictKept(l, In(gone)) && l[t.nonce] == t
    ensures var kept, more := StrictKept(l, In(gone)), In(gone + {t});
            && StrictKept(l, more) == Under(kept, t.nonce)
            && WhereNot(k, more) + StrictInvalid(l, more)
               == WhereNot(k, In(gone)) + StrictInvalid(l, In(gone)) + From(kept, t.nonce + 1)
  {
    hide StrictKept, StrictInvalid, WhereNot, Under, From, OneMore;
    StrictParts(l, In(gone));
    OneMoreIn(l, gone, t);
    StrictCut(l, In(gone), In(gone + {t}), t.nonce);
    NotInList(k, gone, t);
    JoinAgain(WhereNot(k, In(gone)), StrictInvalid(l, In(gone)), From(StrictKept(l, In(gone)), t.nonce + 1));
  }

  lemma WithoutOne(k: Nonces, gone: set<Tx>, t: Tx)
    requires Keyed(k) && t.nonce in k && k[t.nonce] == t
    ensures WhereNot(k, In(gone + {t})) == WhereNot(k, In(gone)) - {t.nonce}
  {}

  lemma PartKeys(k: Nonces, f: Tx -> bool)
    ensures Part(WhereNot(k, f), k)
  {}

  /** Both lists when a queued transaction goes. */
  lemma GoesLists(l: Nonces, k: Nonces, gone: set<Tx>, t: Tx)
    requires Keyed(l) && Keyed(k) && l.Keys !! k.Keys
    requires var queued := WhereNot(k, In(gone)) + StrictInvalid(l, In(gone)); t.nonce in queued && queued[t.nonce] == t
    ensures var more := In(gone + {t});
            && StrictKept(l, more) == StrictKept(l, In(gone))
            && WhereNot(k, more) + StrictInvalid(l, more) == WhereNot(k, In(gone)) + StrictInvalid(l, In(gone)) - {t.nonce}
  {
    hide StrictKept, StrictInvalid, WhereNot, OneMore;
    StrictParts(l, In(gone));
    PartKeys(k, In(gone));
    JoinWithout(WhereNot(k, In(gone)), StrictInvalid(l, In(gone)), t.nonce);
    if t.nonce in StrictInvalid(l, In(gone)) {
      OneMoreIn(l, gone, t);
      StrictGoes(l, In(gone), In(gone + {t}), t.nonce);
      NotInList(k, gone, t);
    } else {
      WithoutOne(k, gone, t);
      NotInList(l, gone, t);
    }
  }

  /** If t was behind a removed one, the pending nonce need not move. */
  lemma StaysRewound(l: Nonces, gone: set<Tx>, t: Tx, was: nat, now: nat)
    requires Rewound(l, gone, was, now) && Keyed(l) && t.nonce !in StrictKept(l, In(gone))
    ensures Rewound(l, gone + {t}, was, now)
  {
    if t.nonce in l && l[t.nonce] == t {
      var y :| y in l && y <= t.nonce && In(gone)(l[y]);
      assert l[y] in gone;
    }
  }

  lemma RewoundTo(l: Nonces, gone: set<Tx>, t: Tx, was: nat, now: nat)
    requires Rewound(l, gone, was, now) && Keyed(l) && t.nonce in l && l[t.nonce] == t
    ensures Rewound(l, gone + {t}, was, if now > t.nonce then t.nonce else now)
  {}

  lemma NewList(p: Senders, a: nat, l: Nonces)
    ensures ListOf(SetList(p, a, l), a) == l
  {}

  lemma LongerList(q: Senders, a: nat, m: Nonces)
    ensures ListOf(JoinList(q, a, m), a) == ListOf(q, a) + m
  {
    assert ListOf(q, a) + map[] == ListOf(q, a);
  }

  lemma TakenPending(chain: nat -> nat, b: Books, e: Books, t: Tx)
    requires TakenOut(chain, b, e, t) && t in b.all && t.nonce in ListOf(b.p, t.sender)
    ensures var a, l := t.sender, ListOf(b.p, t.sender);
            && ListOf(e.p, a) == Under(l, t.nonce) && ListOf(e.q, a) == ListOf(b.q, a) + From(l, t.nonce + 1)
            && NonceOf(chain, e.pn, a) == (if NonceOf(chain, b.pn, a) > t.nonce then t.nonce else NonceOf(chain, b.pn, a))
            && Beat(e.beats, a) == if Under(l, t.nonce) == map[] then 0 else Beat(b.beats, a)
  {
    hide Under, From, SetList, JoinList, ListOf;
    NewList(b.p, t.sender, Under(ListOf(b.p, t.sender), t.nonce));
    LongerList(b.q, t.sender, From(ListOf(b.p, t.sender), t.nonce + 1));
  }

  lemma RemovedPending(chain: nat -> nat, b: Books, m: Books, e: Books, gone: set<Tx>, t: Tx)
    requires Agrees(b.p, b.q, b.all, {}) && Agrees(m.p, m.q, m.all, {}) && RemovedFrom(chain, b, m, gone, t.sender)
    requires t in m.all && t.nonce in ListOf(m.p, t.sender) && TakenOut(chain, m, e, t)
    ensures RemovedFrom(chain, b, e, gone + {t}, t.sender)
  {
    hide Agrees, StrictKept, StrictInvalid, WhereNot, Under, From, Rewound, TakenOut, ListOf, NonceOf, Beat;
    var a, n := t.sender, t.nonce;
    var l, k := ListOf(b.p, a), ListOf(b.q, a);
    ListsOf(b.p, b.q, b.all, a);
    ListedOnce(m.p, m.q, m.all, t);
    StrictParts(l, In(gone));
    CutLists(l, k, gone, t);
    RewoundTo(l, gone, t, NonceOf(chain, b.pn, a), NonceOf(chain, m.pn, a));
    TakenPending(chain, m, e, t);
  }

  lemma RemovedQueued(chain: nat -> nat, b: Books, m: Books, e: Books, gone: set<Tx>, t: Tx)
    requires Agrees(b.p, b.q, b.all, {}) && Agrees(m.p, m.q, m.all, {}) && RemovedFrom(chain, b, m, gone, t.sender)
    requires t in m.all && t.nonce !in ListOf(m.p, t.sender) && TakenOut(chain, m, e, t)
    ensures RemovedFrom(chain, b, e, gone + {t}, t.sender)
  {
    hide Agrees, StrictKept, StrictInvalid, WhereNot, Rewound;
    var a, n := t.sender, t.nonce;
    var l, k := ListOf(b.p, a), ListOf(b.q, a);
    ListsOf(b.p, b.q, b.all, a);
    ListedOnce(m.p, m.q, m.all, t);
    GoesLists(l, k, gone, t);
    StaysRewound(l, gone, t, NonceOf(chain, b.pn, a), NonceOf(chain, m.pn, a));
    assert ListOf(e.q, a) == ListOf(m.q, a) - {n};
  }

  /** What taking t out leaves of the other accounts. */
  lemma OthersStay(chain: nat -> nat, b: Books, e: Books, t: Tx, a: nat)
    requires TakenOut(chain, b, e, t) && (t !in b.all || a != t.sender)
    ensures ListOf(e.p, a) == ListOf(b.p, a) && ListOf(e.q, a) == ListOf(b.q, a)
    ensures NonceOf(chain, e.pn, a) == NonceOf(chain, b.pn, a) && Beat(e.beats, a) == Beat(b.beats, a)
  {}

  /** Removing one more. */
  lemma RemovedMore(chain: nat -> nat, b: Books, m: Books, e: Books, gone: set<Tx>, t: Tx)
    requires Agrees(b.p, b.q, b.all, {}) && Agrees(m.p, m.q, m.all, {})
    requires Removed(chain, b, m, gone) && TakenOut(chain, m, e, t)
    ensures Removed(chain, b, e, gone + {t})
  {
    assert e.all == m.all - {t} && e.locals == m.locals;
    hide Agrees, RemovedFrom, TakenOut;
    forall a ensures RemovedFrom(chain, b, e, gone + {t}, a) {
      assert RemovedFrom(chain, b, m, gone, a);
      if t !in m.all || a != t.sender {
        ListsOf(b.p, b.q, b.all, a);
        OthersStay(chain, m, e, t, a);
        RemovedElsewhere(chain, b, m, e, gone, t, a);
      } else if t.nonce in ListOf(m.p, a) {
        RemovedPending(chain, b, m, e, gone, t);
      } else {
        RemovedQueued(chain, b, m, e, gone, t);
      }
    }
  }

  // ----- Adding one transaction -----

  /** validateTx; `wellFormed` covers size, sign, signature and intrinsic gas. */
  predicate AcceptableTo(w: World, locals: set<nat>, gasPrice: nat, tx: Tx, local: bool, wellFormed: bool) {
    && wellFormed && tx.gas <= w.maxGas
    && (local || tx.sender in locals || tx.price >= gasPrice)
    && w.chain(tx.sender) <= tx.nonce && tx.cost <= w.balance(tx.sender)
  }

  /** How many transactions there is room for. */
  function RoomOf(config: Config): nat {
    config.globalSlots + config.globalQueue
  }

  /** The pool is full and the newcomer is no dearer than anything in it. */
  ghost predicate TooCheap(room: nat, b: Books, tx: Tx) {
    |b.all| >= room && tx.sender !in b.locals && b.all != {} && forall t :: t in b.all ==> tx.price <= t.price
  }

  /**
   In a full pool the cheapest remote transactions go: some, if there are any, but
   no more than it takes to be one below the limit.
   */
  ghost predicate MadeRoom(chain: nat -> nat, room: nat, b: Books, mid: Books) {
    var gone := b.all - mid.all;
    && Removed(chain, b, mid, gone) && (|b.all| < room ==> mid == b)
    && (|b.all| >= room ==> |gone| <= |b.all| - (room - 1))
    && (|b.all| >= room && (exists t :: t in b.all && t.sender !in b.locals) ==> gone != {})
    && (forall t :: t in gone ==> t.sender !in b.locals)
    && (forall d, t :: d in gone && t in mid.all && t.sender !in b.locals ==> d.price <= t.price)
  }

  /** The newcomer outbids the transaction with its sender and nonce, pending or queued, or is refused; nothing else moves. */
  ghost predicate Placed(bump: nat, b: Books, e: Books, tx: Tx, local: bool, err: bool) {
    var a, l, k := tx.sender, ListOf(b.p, tx.sender), ListOf(b.q, tx.sender);
    && (err <==> exists t :: t in Rivals(b.all, tx) && !Outbids(tx, t, bump))
    && var all := b.all - Rivals(b.all, tx) + {tx};
       if err then e == b
       else if tx.nonce in l then e == b.(all := all, p := b.p[a := With(l, tx)])
       else e == b.(all := all, q := b.q[a := With(k, tx)], locals := b.locals + if local then {a} else {})
  }

  /** add, with `mid` the pool once there is room. */
  ghost predicate Adds(w: World, gasPrice: nat, local: bool, wellFormed: bool, b: Books, mid: Books, e: Books, tx: Tx,
                       err: bool) {
    if tx in b.all || !AcceptableTo(w, b.locals, gasPrice, tx, local, wellFormed) || TooCheap(RoomOf(w.config), b, tx) then
      err && mid == b && e == b
    else MadeRoom(w.chain, RoomOf(w.config), b, mid) && Placed(w.config.priceBump, mid, e, tx, local, err)
  }

  lemma RoomFacts(chain: nat -> nat, room: nat, b: Books, mid: Books)
    requires MadeRoom(chain, room, b, mid)
    ensures mid.all <= b.all
  {
    hide RemovedFrom;
  }

  lemma AddsFacts(w: World, gasPrice: nat, local: bool, wellFormed: bool, b: Books, mid: Books, e: Books, tx: Tx, err: bool)
    requires Adds(w, gasPrice, local, wellFormed, b, mid, e, tx, err)
    ensures mid.all <= b.all && e.all == if err then mid.all else mid.all - Rivals(mid.all, tx) + {tx}
    ensures forall t :: t in b.all - mid.all ==> t.sender !in b.locals
    ensures |b.all| < RoomOf(w.config) ==> mid == b
    ensures b.locals <= e.locals <= b.locals + if local then {tx.sender} else {}
  {
    hide AcceptableTo, RemovedFrom, Rivals, With, Outbids;
  }

  lemma KeptOf(chain: nat -> nat, b: Books, e: Books, gone: set<Tx>, a: nat)
    requires RemovedFrom(chain, b, e, gone, a)
    ensures Part(ListOf(e.p, a), ListOf(b.p, a))
  {
    StrictParts(ListOf(b.p, a), In(gone));
  }

  /** What an accepted transaction satisfies, and which one cannot be refused. */
  ghost predicate Sound(w: World, locals: set<nat>, gasPrice: nat, tx: Tx, local: bool, wellFormed: bool) {
    && wellFormed && tx.gas <= w.maxGas && w.chain(tx.sender) <= tx.nonce && tx.cost <= w.balance(tx.sender)
    && (!local && tx.sender !in locals ==> tx.price >= gasPrice)
  }

  /** Only what is new and sound is accepted, and always if there is room and no rival. */
  ghost predicate Decided(w: World, gasPrice: nat, local: bool, wellFormed: bool, b: Books, tx: Tx, err: bool) {
    var good := tx !in b.all && Sound(w, b.locals, gasPrice, tx, local, wellFormed);
    && (!err ==> good)
    && (good && |b.all| < w.config.globalSlots + w.config.globalQueue && Rivals(b.all, tx) == {} ==> !err)
  }

  lemma AddsSound(w: World, gasPrice: nat, local: bool, wellFormed: bool, b: Books, mid: Books, e: Books, tx: Tx, err: bool)
    requires Adds(w, gasPrice, local, wellFormed, b, mid, e, tx, err)
    ensures Decided(w, gasPrice, local, wellFormed, b, tx, err) && (!err ==> tx in e.all)
    ensures var room := w.config.globalSlots + w.config.globalQueue;
            && (|b.all| < room ==> mid == b)
            && (|b.all| >= room && !err && (exists t :: t in b.all && t.sender !in b.locals) ==> mid.all != b.all)
  {
    hide Removed, Outbids;
  }

  /** Removal keeps what is pending payable. */
  lemma RemovedPays(chain: nat -> nat, balance: nat -> nat, maxGas: nat, b: Books, e: Books, gone: set<Tx>)
    requires Removed(chain, b, e, gone) && AllPayable(b.p, chain, balance, maxGas)
    ensures AllPayable(e.p, chain, balance, maxGas)
  {
    hide Over, RemovedFrom;
    forall a ensures PayableList(ListOf(e.p, a), chain(a), Over(balance(a), maxGas)) {
      assert PayableList(ListOf(b.p, a), chain(a), Over(balance(a), maxGas));
      KeptOf(chain, b, e, gone, a);
    }
  }

  lemma PlacedPays(w: World, gasPrice: nat, local: bool, wellFormed: bool, locals: set<nat>, b: Books, e: Books, tx: Tx,
                   err: bool)
    requires Placed(w.config.priceBump, b, e, tx, local, err) && AllPayable(b.p, w.chain, w.balance, w.maxGas)
    requires AcceptableTo(w, locals, gasPrice, tx, local, wellFormed)
    ensures AllPayable(e.p, w.chain, w.balance, w.maxGas)
  {
    hide Rivals, Outbids;
    forall a ensures PayableList(ListOf(e.p, a), w.chain(a), Over(w.balance(a), w.maxGas)) {
      assert PayableList(ListOf(b.p, a), w.chain(a), Over(w.balance(a), w.maxGas));
      assert ListOf(e.p, a) == ListOf(b.p, a) || (a == tx.sender && ListOf(e.p, a) == With(ListOf(b.p, a), tx));
    }
  }

  lemma AddsPays(w: World, gasPrice: nat, local: bool, wellFormed: bool, b: Books, mid: Books, e: Books, tx: Tx, err: bool)
    requires Adds(w, gasPrice, local, wellFormed, b, mid, e, tx, err) && AllPayable(b.p, w.chain, w.balance, w.maxGas)
    ensures AllPayable(e.p, w.chain, w.balance, w.maxGas)
  {
    hide AcceptableTo, Removed, AllPayable, Placed;
    if mid != b || e != b {
      RemovedPays(w.chain, w.balance, w.maxGas, b, mid, b.all - mid.all);
      PlacedPays(w, gasPrice, local, wellFormed, b.locals, mid, e, tx, err);
    }
  }

  // ----- Promotion and its limits -----

  /** The pending nonces, lists and heartbeats before promotion and after it. */
  datatype Course = Course(pn: map<nat, nat>, p: Senders, q: Senders, beats: map<nat, nat>, pn1: map<nat, nat>, p1: Senders,
                           q1: Senders, when: map<nat, nat>)

  ghost predicate StartsAt(c: Course, b: Books) {
    c.pn == b.pn && c.p == b.p && c.q == b.q && c.beats == b.beats
  }

  /** The heartbeat of an account that had something promoted is now, the others are as they were. */
  ghost predicate BeatsAt(now: nat, p: Senders, p1: Senders, beats: map<nat, nat>, when: map<nat, nat>) {
    forall a :: Beat(when, a) == if ListOf(p1, a) == ListOf(p, a) then Beat(beats, a) else now
  }

  /**
   The accounts were promoted, then the limits cut lists and pending nonces to
   those of e; locals and guaranteed slots were spared.
   */
  ghost predicate FollowsCourse(w: World, c: Course, accounts: Option<seq<nat>>, now: nat, e: Books) {
    && PromotedAll(w, c.pn, c.p, c.q, c.pn1, c.p1, c.q1, accounts)
    && BeatsAt(now, c.p, c.p1, c.beats, c.when) && e.beats == c.when
    && PendingCut(c.p1, e.p, w.locals, w.config) && QueueCut(c.q1, e.q, c.when, w.locals, w.config)
    && NoncesCut(w.chain, c.p1, e.p, c.pn1, e.pn)
    && (forall a :: a in w.locals ==> Part(ListOf(c.p, a), ListOf(e.p, a)))
    && (forall a :: Size(e.p, a) >= Size(c.p, a) || Size(e.p, a) >= w.config.accountSlots)
  }

  lemma CourseFollowed(w: World, c: Course, accounts: Option<seq<nat>>, now: nat, e: Books)
    requires PromotedAll(w, c.pn, c.p, c.q, c.pn1, c.p1, c.q1, accounts) && Grew(c.p, c.p1)
    requires BeatsAt(now, c.p, c.p1, c.beats, c.when) && e.beats == c.when
    requires PendingCut(c.p1, e.p, w.locals, w.config) && QueueCut(c.q1, e.q, c.when, w.locals, w.config)
    requires NoncesCut(w.chain, c.p1, e.p, c.pn1, e.pn)
    ensures FollowsCourse(w, c, accounts, now, e)
  {
    hide PromotedAll, PendingCut, QueueCut, NoncesCut, Part, Grew, BeatsAt;
    Survivors(c.p, c.p1, e.p, w.locals, w.config);
  }

  /** The heartbeat after a promotion. */
  function AfterBeat(beats: map<nat, nat>, a: nat, run: Nonces, now: nat): map<nat, nat> {
    if run == map[] then beats else beats[a := now]
  }

  lemma BeatsStay(now: nat, p: Senders, beats: map<nat, nat>)
    ensures BeatsAt(now, p, p, beats, beats)
  {}

  lemma RunApart(w: World, p: Senders, q: Senders, a: nat, start: nat, run: Nonces, rest: Nonces)
    requires IsPromotion(ListOf(q, a), w.chain(a), Over(w.balance(a), w.maxGas), start, CapOf(w, a), run, rest)
    requires Apart(p, q)
    ensures run.Keys !! ListOf(p, a).Keys
  {
    hide IsPromotion;
    PromotionParts(ListOf(q, a), w.chain(a), Over(w.balance(a), w.maxGas), start, CapOf(w, a), run, rest);
  }

  lemma BeatsStep(now: nat, p0: Senders, p: Senders, beats0: map<nat, nat>, beats: map<nat, nat>, a: nat, run: Nonces)
    requires Grew(p0, p) && run.Keys !! ListOf(p, a).Keys && BeatsAt(now, p0, p, beats0, beats)
    ensures BeatsAt(now, p0, JoinList(p, a, run), beats0, AfterBeat(beats, a, run, now))
  {
    var l := ListOf(p, a);
    assert Part(ListOf(p0, a), l);
    hide Grew;
    if run != map[] {
      var n :| n in run;
      assert n !in l && n in ListOf(JoinList(p, a, run), a);
    }
  }

  /** Only the queue and what is pooled changed. */
  ghost predicate OnlyQueue(b: Books, e: Books) {
    e == b.(q := e.q, all := e.all)
  }

  /** The end of promotion: its course, and why what is missing is missing. */
  lemma CourseEnds(w: World, c: Course, accounts: Option<seq<nat>>, now: nat, all: set<Tx>, e: Books)
    requires PromotedAll(w, c.pn, c.p, c.q, c.pn1, c.p1, c.q1, accounts) && Grew(c.p, c.p1)
    requires BeatsAt(now, c.p, c.p1, c.beats, c.when) && e.beats == c.when
    requires PendingCut(c.p1, e.p, w.locals, w.config) && QueueCut(c.q1, e.q, c.when, w.locals, w.config)
    requires NoncesCut(w.chain, c.p1, e.p, c.pn1, e.pn)
    requires Agrees(c.p, c.q, all, {}) && Agrees(e.p, e.q, e.all, {})
    ensures FollowsCourse(w, c, accounts, now, e) && forall t :: t in all - e.all ==> Leaves(w, c.p1, c.q1, t)
  {
    hide PromotedAll, PendingCut, QueueCut, NoncesCut, Part, Grew, BeatsAt, Agrees, Leaves, FollowsCourse;
    CourseFollowed(w, c, accounts, now, e);
    forall t | t in all - e.all ensures Leaves(w, c.p1, c.q1, t) {
      WhyGone(w, c.pn, c.p, c.q, all, c.pn1, c.p1, c.q1, e.p, e.q, e.all, c.when, accounts, t);
    }
  }

  // ----- Adding a batch -----

  lemma NoneAmong(txs: seq<Tx>)
    ensures Among(txs[..0]) == {}
  {}

  lemma AmongAll(txs: seq<Tx>)
    ensures Among(txs[..|txs|]) == Among(txs) == set t | t in txs
  {
    assert txs[..|txs|] == txs;
  }

  lemma AddedRivals(before: set<Tx>, mid: set<Tx>, after: set<Tx>, tx: Tx, err: bool)
    requires mid <= before && after == if err then mid else mid - Rivals(mid, tx) + {tx}
    ensures after <= before + {tx} && |after| <= |before| + 1
    ensures Rivals(mid, tx) != {} ==> Rivals(before, tx) != {}
  {
    assert Rivals(mid, tx) <= Rivals(before, tx);
    assert before + {tx} == after + (before + {tx} - after);
  }

  lemma RivalsAmong(start: set<Tx>, before: set<Tx>, mid: set<Tx>, after: set<Tx>, known: set<Tx>, tx: Tx, err: bool)
    requires OnlyRivals(start, before, known) && before <= known && mid <= before
    requires after == if err then mid else mid - Rivals(mid, tx) + {tx}
    requires err || Rivals(mid, tx) != {}
    ensures OnlyRivals(start, after, known)
  {
    hide Rivals, OnlyRivals;
    AddedRivals(before, mid, after, tx, err);
    MoreRivals(start, before, after, known, tx);
  }

  /** The pool before each transaction and after the last, and in between when there was room; then promotion of `addrs`. */
  datatype Batch = Batch(states: seq<Books>, mids: seq<Books>, errs: seq<bool>, addrs: seq<nat>, course: Course)

  /** The first i of txs were added one after the other. */
  ghost predicate Batched(w: World, gasPrice: nat, local: bool, wellFormed: set<Tx>, txs: seq<Tx>, r: Batch, i: nat) {
    && |r.states| == i + 1 && |r.mids| == i && |r.errs| == i && i <= |txs|
    && forall j {:trigger r.mids[j]} :: 0 <= j < i ==>
         Adds(w, gasPrice, local, txs[j] in wellFormed, r.states[j], r.mids[j], r.states[j + 1], txs[j], r.errs[j])
  }

  /** The senders of those of the first i that were added without replacing another. */
  ghost function Dirty(txs: seq<Tx>, r: Batch, i: nat): set<nat>
    requires i <= |r.mids| == |r.errs| && i <= |txs|
  {
    if i == 0 then {}
    else
      var rest := Dirty(txs, r, i - 1);
      if !r.errs[i - 1] && Rivals(r.mids[i - 1].all, txs[i - 1]) == {} then rest + {txs[i - 1].sender} else rest
  }

  function More(r: Batch, mid: Books, e: Books, err: bool): Batch {
    Batch(r.states + [e], r.mids + [mid], r.errs + [err], r.addrs, r.course)
  }

  function NoBatch(b: Books): Batch {
    Batch([b], [], [], [], Course(b.pn, b.p, b.q, b.beats, b.pn, b.p, b.q, b.beats))
  }

  lemma BatchStarts(w: World, gasPrice: nat, local: bool, wellFormed: set<Tx>, txs: seq<Tx>, b: Books)
    ensures Batched(w, gasPrice, local, wellFormed, txs, NoBatch(b), 0) && Dirty(txs, NoBatch(b), 0) == {}
  {}

  lemma {:induction false} SameDirty(txs: seq<Tx>, r: Batch, mid: Books, e: Books, err: bool, i: nat)
    requires i <= |r.mids| == |r.errs| && i <= |txs|
    ensures Dirty(txs, More(r, mid, e, err), i) == Dirty(txs, r, i)
  {
    if i > 0 { SameDirty(txs, r, mid, e, err, i - 1); }
  }

  lemma BatchedMore(w: World, gasPrice: nat, local: bool, wellFormed: set<Tx>, txs: seq<Tx>, r: Batch, i: nat, mid: Books,
                    e: Books, err: bool)
    requires Batched(w, gasPrice, local, wellFormed, txs, r, i) && i < |txs|
    requires Adds(w, gasPrice, local, txs[i] in wellFormed, r.states[i], mid, e, txs[i], err)
    ensures Batched(w, gasPrice, local, wellFormed, txs, More(r, mid, e, err), i + 1)
    ensures Dirty(txs, More(r, mid, e, err), i + 1)
         == Dirty(txs, r, i) + if !err && Rivals(mid.all, txs[i]) == {} then {txs[i].sender} else {}
  {
    hide Adds;
    SameDirty(txs, r, mid, e, err, i);
    var r' := More(r, mid, e, err);
    forall j {:trigger r'.mids[j]} | 0 <= j < i + 1
      ensures Adds(w, gasPrice, local, txs[j] in wellFormed, r'.states[j], r'.mids[j], r'.states[j + 1], txs[j], r'.errs[j])
    {
      if j < i { assert r.mids[j] == r'.mids[j]; }
    }
  }

  /** t went to make room for one of txs, or was outbid by it. */
  ghost predicate DroppedAt(txs: seq<Tx>, r: Batch, t: Tx, j: nat)
    requires j < |r.mids| && |r.states| == |r.mids| + 1 && |r.errs| == |r.mids| <= |txs|
  {
    t in r.states[j].all - r.mids[j].all || (!r.errs[j] && t in Rivals(r.mids[j].all, txs[j]))
  }

  ghost predicate DroppedIn(txs: seq<Tx>, r: Batch, t: Tx)
    requires |r.states| == |r.mids| + 1 && |r.errs| == |r.mids| <= |txs|
  {
    exists j {:trigger DroppedAt(txs, r, t, j)} :: 0 <= j < |r.mids| && DroppedAt(txs, r, t, j)
  }

  lemma StepFacts(w: World, gasPrice: nat, local: bool, wellFormed: set<Tx>, txs: seq<Tx>, r: Batch, j: nat)
    requires Batched(w, gasPrice, local, wellFormed, txs, r, |r.mids|) && j < |r.mids|
    ensures var b, mid, e, err := r.states[j], r.mids[j], r.states[j + 1], r.errs[j];
            && mid.all <= b.all && e.all == (if err then mid.all else mid.all - Rivals(mid.all, txs[j]) + {txs[j]})
            && (forall t :: t in b.all - mid.all ==> t.sender !in b.locals)
            && b.locals <= e.locals && (!local ==> e.locals == b.locals)
  {
    hide Adds;
    assert r.mids[j] == r.mids[j];
    AddsFacts(w, gasPrice, local, txs[j] in wellFormed, r.states[j], r.mids[j], r.states[j + 1], txs[j], r.errs[j]);
  }

  lemma BatchSizes(w: World, gasPrice: nat, local: bool, wellFormed: set<Tx>, txs: seq<Tx>, r: Batch, i: nat)
    requires Batched(w, gasPrice, local, wellFormed, txs, r, i)
    ensures |r.states| == i + 1 && |r.mids| == i && |r.errs| == i && i <= |txs|
  {}

  /** What is missing after the first i was dropped at one of them; nothing else is new. */
  lemma {:induction false} BatchAll(w: World, gasPrice: nat, local: bool, wellFormed: set<Tx>, txs: seq<Tx>, r: Batch, i: nat)
    requires Batched(w, gasPrice, local, wellFormed, txs, r, |r.mids|) && i <= |r.mids|
    ensures r.states[i].all <= r.states[0].all + Among(txs[..i]) && r.states[0].locals <= r.states[i].locals
    ensures !local ==> r.states[i].locals == r.states[0].locals
    ensures forall t :: t in r.states[0].all - r.states[i].all ==> DroppedIn(txs, r, t)
  {
    hide Batched, Rivals, Among;
    BatchSizes(w, gasPrice, local, wellFormed, txs, r, |r.mids|);
    if i == 0 {
      assert r.states[0].all - r.states[0].all == {};
    } else {
      var j := i - 1;
      BatchAll(w, gasPrice, local, wellFormed, txs, r, j);
      StepFacts(w, gasPrice, local, wellFormed, txs, r, j);
      AmongStep(txs, j);
      forall t | t in r.states[0].all - r.states[i].all ensures DroppedIn(txs, r, t) {
        if t in r.states[j].all { assert DroppedAt(txs, r, t, j); }
      }
    }
  }

  lemma FewerAmong(txs: seq<Tx>, i: nat)
    requires i <= |txs|
    ensures Among(txs[..i]) <= Among(txs)
  {}

  /** As long as nothing was added without replacing another, all that is new replaced another. */
  lemma {:induction false} BatchRivals(w: World, gasPrice: nat, local: bool, wellFormed: set<Tx>, txs: seq<Tx>, r: Batch,
                                       i: nat, known: set<Tx>)
    requires Batched(w, gasPrice, local, wellFormed, txs, r, |r.mids|) && i <= |r.mids| && Dirty(txs, r, i) == {}
    requires known == r.states[0].all + Among(txs)
    ensures OnlyRivals(r.states[0].all, r.states[i].all, known)
  {
    hide Batched, Rivals, Among, OnlyRivals;
    BatchSizes(w, gasPrice, local, wellFormed, txs, r, |r.mids|);
    if i == 0 {
      NoRivals(r.states[0].all, known);
    } else {
      var j := i - 1;
      BatchRivals(w, gasPrice, local, wellFormed, txs, r, j, known);
      BatchAll(w, gasPrice, local, wellFormed, txs, r, j);
      FewerAmong(txs, j);
      StepFacts(w, gasPrice, local, wellFormed, txs, r, j);
      RivalsAmong(r.states[0].all, r.states[j].all, r.mids[j].all, r.states[i].all, known, txs[j], r.errs[j]);
    }
  }

  /** Adding depends on the local senders of the pool at that time only. */
  lemma AddsAnyway(w: World, w': World, gasPrice: nat, local: bool, wellFormed: bool, b: Books, mid: Books, e: Books, tx: Tx,
                   err: bool)
    requires Adds(w, gasPrice, local, wellFormed, b, mid, e, tx, err) && w' == w.(locals := w'.locals)
    ensures Adds(w', gasPrice, local, wellFormed, b, mid, e, tx, err)
  {
    hide MadeRoom, Placed, TooCheap;
  }

  lemma {:induction false} DirtyAnyway(txs: seq<Tx>, r: Batch, r': Batch, i: nat)
    requires i <= |r.mids| == |r.errs| && i <= |txs| && r' == r.(addrs := r'.addrs, course := r'.course)
    ensures Dirty(txs, r', i) == Dirty(txs, r, i)
  {
    if i > 0 { DirtyAnyway(txs, r, r', i - 1); }
  }

  /** The batch is complete, and knows its promotion. */
  lemma BatchEnds(w: World, w': World, gasPrice: nat, local: bool, wellFormed: set<Tx>, txs: seq<Tx>, r: Batch, r': Batch)
    requires Batched(w, gasPrice, local, wellFormed, txs, r, |txs|) && w' == w.(locals := w'.locals)
    requires r' == r.(addrs := r'.addrs, course := r'.course)
    ensures Batched(w', gasPrice, local, wellFormed, txs, r', |txs|)
    ensures |r.states| == |txs| + 1 == |r.mids| + 1 && |r.errs| == |r.mids|
    ensures Dirty(txs, r', |txs|) == Dirty(txs, r, |txs|)
    ensures r.states[|txs|].all <= r.states[0].all + Among(txs)
    ensures !local ==> r.states[|txs|].locals == r.states[0].locals
    ensures forall t :: t in r.states[0].all - r.states[|txs|].all ==> DroppedIn(txs, r', t)
    ensures Dirty(txs, r, |txs|) == {} ==> OnlyRivals(r.states[0].all, r.states[|txs|].all, r.states[0].all + Among(txs))
  {
    hide Dirty, Among, OnlyRivals, DroppedIn, Adds;
    forall j {:trigger r'.mids[j]} | 0 <= j < |txs|
      ensures Adds(w', gasPrice, local, txs[j] in wellFormed, r'.states[j], r'.mids[j], r'.states[j + 1], txs[j], r'.errs[j])
    {
      assert r.mids[j] == r'.mids[j];
      AddsAnyway(w, w', gasPrice, local, txs[j] in wellFormed, r.states[j], r.mids[j], r.states[j + 1], txs[j], r.errs[j]);
    }
    DirtyAnyway(txs, r, r', |txs|);
    BatchAll(w', gasPrice, local, wellFormed, txs, r', |txs|);
    AmongAll(txs);
    if Dirty(txs, r, |txs|) == {} {
      BatchRivals(w', gasPrice, local, wellFormed, txs, r', |txs|, r.states[0].all + Among(txs));
    }
  }

  /** addTxsLocked: the batch is added, then the senders of what is new are promoted. */
  ghost predicate AddedAll(w: World, gasPrice: nat, local: bool, wellFormed: set<Tx>, txs: seq<Tx>, now: nat, b: Books,
                           r: Batch, e: Books) {
    && Batched(w, gasPrice, local, wellFormed, txs, r, |txs|) && r.states[0] == b
    && Distinct(r.addrs) && (forall a :: a in r.addrs <==> a in Dirty(txs, r, |txs|))
    && if r.addrs == [] then e == r.states[|txs|]
       else
         && StartsAt(r.course, r.states[|txs|]) && e.locals == r.states[|txs|].locals
         && FollowsCourse(w, r.course, Some(r.addrs), now, e)
  }

  // ----- A reset from beginning to end -----

  /** The heartbeats of accounts whose pending list ended are forgotten. */
  ghost predicate EndedBeats(p0: Senders, p: Senders, beats0: map<nat, nat>, beats: map<nat, nat>) {
    forall a :: Beat(beats, a) == if a in p0 && a !in p then 0 else Beat(beats0, a)
  }

  lemma BeatsGoOn(p: Senders, beats: map<nat, nat>)
    ensures EndedBeats(p, p, beats, beats)
  {}

  lemma BeatsEnd(p0: Senders, p: Senders, p': Senders, a: nat, beats0: map<nat, nat>, beats: map<nat, nat>,
                 beats': map<nat, nat>)
    requires EndedBeats(p0, p, beats0, beats) && a in p0 && a in p && (forall b :: b != a ==> (b in p' <==> b in p))
    requires beats' == if a in p' then beats else beats - {a}
    ensures EndedBeats(p0, p', beats0, beats')
  {}

  /**
   demoteUnexecutables and the new pending nonces: pending lists are cut to what is
   executable, useless pending transactions go and all others stay pooled.
   */
  ghost predicate Demoted(w: World, b: Books, e: Books) {
    && (forall a :: ListOf(e.p, a) ==
          if a in b.p then Executable(b.p[a], w.chain(a), Over(w.balance(a), w.maxGas)) else map[])
    && (forall t :: t in e.all <==> t in b.all && !(Holds(b.p, t) && UselessTo(w, t)))
    && (forall a :: a in e.p ==> e.p[a] != map[]) && e.locals == b.locals
    && (forall a :: NonceOf(w.chain, e.pn, a) == if a in e.p then Greatest(e.p[a]) + 1 else NonceOf(w.chain, b.pn, a))
    && EndedBeats(b.p, e.p, b.beats, e.beats)
  }

  lemma DemotedRuns(w: World, b: Books, e: Books)
    requires Demoted(w, b, e) && b.pn == map[] && forall a :: a in b.p ==> Unbroken(b.p[a])
    ensures AllRun(e.p, w.chain, e.pn)
  {
    hide Executable, Over, Unbroken, AllRun, EndedBeats;
    SyncedRuns(b.p, e.p, w.chain, w.balance, w.maxGas, e.pn);
  }

  lemma SomeMember(s: seq<nat>)
    ensures s == [] || exists a :: a in s
  {
    if s != [] { assert s[0] in s; }
  }

  lemma NothingAdded(w: World, gasPrice: nat, local: bool, wellFormed: set<Tx>, now: nat, b: Books, r: Batch, e: Books)
    requires AddedAll(w, gasPrice, local, wellFormed, [], now, b, r, e)
    ensures e == b && r.addrs == [] && r.mids == []
  {
    hide Batched, FollowsCourse;
    BatchSizes(w, gasPrice, local, wellFormed, [], r, 0);
    SomeMember(r.addrs);
  }

  /** One of txs has the sender and nonce of t. */
  ghost predicate Replaced(t: Tx, txs: seq<Tx>) {
    exists j :: 0 <= j < |txs| && txs[j].sender == t.sender && txs[j].nonce == t.nonce
  }

  /** A local transaction is never dropped to make room. */
  lemma LocalIsReplaced(w: World, gasPrice: nat, wellFormed: set<Tx>, txs: seq<Tx>, r: Batch, t: Tx)
    requires Batched(w, gasPrice, false, wellFormed, txs, r, |txs|) && |r.mids| == |r.errs| == |txs| == |r.states| - 1
    requires DroppedIn(txs, r, t) && t.sender in r.states[0].locals
    ensures Replaced(t, txs)
  {
    hide Batched;
    var j :| 0 <= j < |r.mids| && DroppedAt(txs, r, t, j);
    BatchAll(w, gasPrice, false, wellFormed, txs, r, j);
    StepFacts(w, gasPrice, false, wellFormed, txs, r, j);
  }

  /** Why a reset drops t: for a reinjected one, by the promotion after that, by demotion or by the promotion at the end. */
  ghost predicate LostBy(w: World, txs: seq<Tx>, r: Batch, c: Course, t: Tx)
    requires |r.states| == |r.mids| + 1 && |r.errs| == |r.mids| <= |txs|
  {
    || DroppedIn(txs, r, t) || (r.addrs != [] && Leaves(w, r.course.p1, r.course.q1, t))
    || UselessTo(w, t) || Leaves(w, c.p1, c.q1, t)
  }

  lemma WhyLost(w: World, gasPrice: nat, wellFormed: set<Tx>, txs: seq<Tx>, now: nat, b: Books, r: Batch, added: Books,
                demoted: Books, c: Course, end: set<Tx>)
    requires AddedAll(w, gasPrice, false, wellFormed, txs, now, b, r, added) && Demoted(w, added, demoted)
    requires b.locals == w.locals
    requires forall t :: t in b.all - added.all ==>
               DroppedIn(txs, r, t) || (r.addrs != [] && Leaves(w, r.course.p1, r.course.q1, t))
    requires forall t :: t in demoted.all - end ==> Leaves(w, c.p1, c.q1, t)
    ensures forall t :: t in b.all - end ==> LostBy(w, txs, r, c, t)
    ensures forall t :: t in b.all - end && t.sender in w.locals ==> UselessTo(w, t) || Replaced(t, txs)
    ensures txs == [] ==> forall t :: t in b.all - end ==> Leaves(w, c.p1, c.q1, t)
  {
    hide Batched, FollowsCourse, Executable, Over, DroppedIn, Replaced, Total, Dirty, EndedBeats, Holds;
    BatchSizes(w, gasPrice, false, wellFormed, txs, r, |txs|);
    forall t | t in b.all - end
      ensures LostBy(w, txs, r, c, t) && (t.sender in w.locals ==> UselessTo(w, t) || Replaced(t, txs))
    {
      if DroppedIn(txs, r, t) && t.sender in w.locals { LocalIsReplaced(w, gasPrice, wellFormed, txs, r, t); }
    }
    if txs == [] { NothingAdded(w, gasPrice, false, wellFormed, now, b, r, added); }
  }

  // ----- Two senders -----

  /** Only senders a and b have anything, namely l and k. */
  ghost predicate Two(m: Senders, a: nat, l: Nonces, b: nat, k: Nonces) {
    a != b && ListOf(m, a) == l && ListOf(m, b) == k && forall x :: x != a && x != b ==> ListOf(m, x) == map[]
  }

  lemma TotalOfTwo(m: Senders, a: nat, l: Nonces, b: nat, k: Nonces)
    requires Two(m, a, l, b, k)
    ensures Total(m) == |l| + |k|
  {
    TwoLists(m, a, b);
  }

  lemma OnlyPayable(t: Tx, c: nat, over: Tx -> bool)
    requires t.nonce >= c && !over(t)
    ensures WhereNot(From(map[t.nonce := t], c), over) == map[t.nonce := t]
  {}

  lemma RunOfOne(t: Tx, lo: nat)
    requires IsLeast(map[t.nonce := t], lo)
    ensures lo == t.nonce && RunFrom(map[t.nonce := t], lo) == map[t.nonce := t]
  {
    assert t.nonce in map[t.nonce := t];
  }

  /** A single queued transaction that is next is promoted. */
  lemma OneReady(w: World, pn: map<nat, nat>, p: Senders, q: Senders, pn1: map<nat, nat>, p1: Senders, q1: Senders, t: Tx)
    requires Promotes(w, pn, p, q, pn1, p1, q1, t.sender) && ListOf(q, t.sender) == map[t.nonce := t] && !UselessTo(w, t)
    requires NonceOf(w.chain, pn, t.sender) == t.nonce
    ensures ListOf(p1, t.sender) == ListOf(p, t.sender) + map[t.nonce := t] && ListOf(q1, t.sender) == map[]
  {
    var a := t.sender;
    var one: Nonces := map[t.nonce := t];
    OnlyPayable(t, w.chain(a), Over(w.balance(a), w.maxGas));
    hide WhereNot, From, RunFrom, NonceOf;
    var run, rest :|
      && IsPromotion(ListOf(q, a), w.chain(a), Over(w.balance(a), w.maxGas), NonceOf(w.chain, pn, a), CapOf(w, a), run, rest)
      && ListOf(p1, a) == ListOf(p, a) + run && ListOf(q1, a) == rest;
    assert t.nonce in one;
    var lo: nat :| IsLeast(one, lo) && run == RunFrom(one, lo);
    RunOfOne(t, lo);
    assert Rest(one, run) == map[];
  }

  lemma LowestOfOne(t: Tx, k: nat)
    requires k > 0
    ensures Lowest(map[t.nonce := t], k) == map[t.nonce := t]
  {
    assert NoncesBelow(map[t.nonce := t], t.nonce) == {};
  }

  /** A single queued transaction behind a gap stays queued. */
  lemma OneWaits(w: World, pn: map<nat, nat>, p: Senders, q: Senders, pn1: map<nat, nat>, p1: Senders, q1: Senders, t: Tx)
    requires Promotes(w, pn, p, q, pn1, p1, q1, t.sender) && ListOf(q, t.sender) == map[t.nonce := t] && !UselessTo(w, t)
    requires NonceOf(w.chain, pn, t.sender) < t.nonce && w.config.accountQueue > 0
    ensures ListOf(p1, t.sender) == ListOf(p, t.sender) && ListOf(q1, t.sender) == map[t.nonce := t]
  {
    var a := t.sender;
    var one: Nonces := map[t.nonce := t];
    OnlyPayable(t, w.chain(a), Over(w.balance(a), w.maxGas));
    hide WhereNot, From, RunFrom, NonceOf, Lowest;
    var run, rest :|
      && IsPromotion(ListOf(q, a), w.chain(a), Over(w.balance(a), w.maxGas), NonceOf(w.chain, pn, a), CapOf(w, a), run, rest)
      && ListOf(p1, a) == ListOf(p, a) + run && ListOf(q1, a) == rest;
    forall lo: nat | IsLeast(one, lo) ensures lo > NonceOf(w.chain, pn, a) { RunOfOne(t, lo); }
    assert run == map[] && Rest(one, run) == one && ListOf(p, a) + map[] == ListOf(p, a);
    LowestOfOne(t, w.config.accountQueue);
  }

  lemma NotAsked(w: World, pn: map<nat, nat>, p: Senders, q: Senders, pn1: map<nat, nat>, p1: Senders, q1: Senders,
                 accounts: seq<nat>, x: nat)
    requires PromotedAll(w, pn, p, q, pn1, p1, q1, Some(accounts)) && x !in accounts
    ensures ListOf(p1, x) == ListOf(p, x) && ListOf(q1, x) == ListOf(q, x)
  {
    hide Promotes;
    if Promotes(w, pn, p, q, pn1, p1, q1, x) {}
  }

  /** The first transaction of t's sender is pending at once. */
  lemma ReadyCourse(w: World, c: Course, now: nat, e: Books, t: Tx, b: nat, l: Nonces, k: Nonces)
    requires FollowsCourse(w, c, Some([t.sender]), now, e) && !UselessTo(w, t) && NonceOf(w.chain, c.pn, t.sender) == t.nonce
    requires Two(c.p, t.sender, map[], b, l) && Two(c.q, t.sender, map[t.nonce := t], b, k)
    requires |l| + 1 <= w.config.globalSlots && |k| <= w.config.globalQueue
    ensures Two(e.p, t.sender, map[t.nonce := t], b, l) && Two(e.q, t.sender, map[], b, k)
    ensures Beat(e.beats, t.sender) == now && Beat(e.beats, b) == Beat(c.beats, b)
  {
    hide Total, Promotes, UselessTo, NonceOf, Spares, Fair, InitialPart, Beat;
    var a := t.sender;
    var one: Nonces := map[t.nonce := t];
    assert Promotes(w, c.pn, c.p, c.q, c.pn1, c.p1, c.q1, a);
    OneReady(w, c.pn, c.p, c.q, c.pn1, c.p1, c.q1, t);
    assert t.nonce in one && map[] + one == one;
    forall x | x != a ensures ListOf(c.p1, x) == ListOf(c.p, x) && ListOf(c.q1, x) == ListOf(c.q, x) {
      NotAsked(w, c.pn, c.p, c.q, c.pn1, c.p1, c.q1, [a], x);
    }
    assert Two(c.p1, a, one, b, l) && Two(c.q1, a, map[], b, k);
    TotalOfTwo(c.p1, a, one, b, l);
    TotalOfTwo(c.q1, a, map[], b, k);
    assert |one| == 1;
  }

  /** A transaction behind a gap waits in the queue, if the queue is not too long. */
  lemma WaitingCourse(w: World, c: Course, now: nat, e: Books, t: Tx, b: nat, m: Nonces, l: Nonces, k: Nonces)
    requires FollowsCourse(w, c, Some([t.sender]), now, e) && !UselessTo(w, t) && NonceOf(w.chain, c.pn, t.sender) < t.nonce
    requires Two(c.p, t.sender, m, b, l) && Two(c.q, t.sender, map[t.nonce := t], b, k)
    requires |m| + |l| <= w.config.globalSlots && w.config.accountQueue > 0
    ensures Two(e.p, t.sender, m, b, l) && Two(c.q1, t.sender, map[t.nonce := t], b, k)
    ensures Beat(e.beats, t.sender) == Beat(c.beats, t.sender) && Beat(e.beats, b) == Beat(c.beats, b)
    ensures QueueCut(c.q1, e.q, e.beats, w.locals, w.config)
    ensures |k| + 1 <= w.config.globalQueue ==> Two(e.q, t.sender, map[t.nonce := t], b, k)
  {
    hide Total, Promotes, UselessTo, NonceOf, Spares, Fair, InitialPart, Beat;
    var a := t.sender;
    var one: Nonces := map[t.nonce := t];
    assert Promotes(w, c.pn, c.p, c.q, c.pn1, c.p1, c.q1, a);
    OneWaits(w, c.pn, c.p, c.q, c.pn1, c.p1, c.q1, t);
    forall x | x != a ensures ListOf(c.p1, x) == ListOf(c.p, x) && ListOf(c.q1, x) == ListOf(c.q, x) {
      NotAsked(w, c.pn, c.p, c.q, c.pn1, c.p1, c.q1, [a], x);
    }
    assert Two(c.p1, a, m, b, l) && Two(c.q1, a, one, b, k);
    TotalOfTwo(c.p1, a, m, b, l);
    TotalOfTwo(c.q1, a, one, b, k);
    assert |one| == 1;
  }

  /** A newcomer that meets no other is queued as it is. */
  lemma JustQueued(w: World, gasPrice: nat, b: Books, mid: Books, e: Books, tx: Tx, err: bool)
    requires Adds(w, gasPrice, false, true, b, mid, e, tx, err) && Agrees(b.p, b.q, b.all, {})
    requires AcceptableTo(w, b.locals, gasPrice, tx, false, true) && |b.all| < RoomOf(w.config)
    requires tx.nonce !in ListOf(b.p, tx.sender) && tx.nonce !in ListOf(b.q, tx.sender)
    ensures !err && mid == b && Rivals(mid.all, tx) == {}
    ensures e == b.(all := b.all + {tx}, q := b.q[tx.sender := With(ListOf(b.q, tx.sender), tx)])
  {
    OneRival(b.p, b.q, b.all, tx);
    if tx in b.all { ListedOnce(b.p, b.q, b.all, tx); }
    hide Agrees, Removed, Outbids, AcceptableTo;
    assert b.all - {} == b.all && b.locals + {} == b.locals;
  }

  /** What is left of a single queued transaction: it or nothing. */
  lemma PartOfOne(l: Nonces, one: Nonces, n: nat)
    requires InitialPart(l, one) && one.Keys == {n}
    ensures l == one || l == map[]
  {
    assert |one| == 1;
  }

  /** Of two remote accounts with one transaction each and room for one, the more recently active one loses. */
  lemma NewerLoses(q1: Senders, q: Senders, when: map<nat, nat>, locals: set<nat>, config: Config, a: nat, older: Tx, b: nat,
                   newer: Tx, n: nat)
    requires QueueCut(q1, q, when, locals, config) && config.globalQueue == 1
    requires Two(q1, b, map[n := newer], a, map[n := older])
    requires a !in locals && b !in locals && Beat(when, a) < Beat(when, b)
    ensures Two(q, a, map[n := older], b, map[])
  {
    hide Total, Beat;
    var l, k: Nonces := map[n := older], map[n := newer];
    assert InitialPart(ListOf(q, a), ListOf(q1, a)) && InitialPart(ListOf(q, b), ListOf(q1, b));
    PartOfOne(ListOf(q, a), l, n);
    PartOfOne(ListOf(q, b), k, n);
    forall x | x != a && x != b ensures ListOf(q, x) == map[] { assert InitialPart(ListOf(q, x), ListOf(q1, x)); }
    TotalOfTwo(q1, b, k, a, l);
    TotalOfTwo(q, a, ListOf(q, a), b, ListOf(q, b));
    assert |l| == 1 && |k| == 1;
  }

  lemma QueuedAlone(q: Senders, t: Tx, b: nat, k: Nonces)
    requires Two(q, t.sender, map[], b, k)
    ensures Two(q[t.sender := With(ListOf(q, t.sender), t)], t.sender, map[t.nonce := t], b, k)
  {
    var one: Nonces := map[t.nonce := t];
    var more: Senders := q[t.sender := With(ListOf(q, t.sender), t)];
    assert ListOf(more, t.sender) == one && ListOf(more, b) == k;
    forall x | x != t.sender && x != b ensures ListOf(more, x) == map[] { assert ListOf(q, x) == map[]; }
  }

  lemma Swapped(m: Senders, a: nat, l: Nonces, b: nat, k: Nonces)
    requires Two(m, a, l, b, k)
    ensures Two(m, b, k, a, l)
  {}

  lemma NobodyYet()
    ensures Two(map[], 1, map[], 2, map[])
  {}
}
