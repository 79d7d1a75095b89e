/**
 The header chain of core/headerchain.go: known headers with their total
 difficulties, and the canonical number index that follows the heaviest one.
 */
module HeaderChains {
  import opened Basics
  import opened Chains

  datatype WriteStatus = UnknownAncestor | Canonical | Side

  /** The canonical index holds the hashes of exactly the blocks of c. */
  ghost predicate Indexes(hashOf: Block -> Hash, canon: map<nat, Hash>, c: seq<Block>) {
    forall n: nat :: if n < |c| then n in canon && canon[n] == hashOf(c[n]) else n !in canon
  }

  /** The total difficulty filed under k is the sum along the ancestor path. */
  ghost predicate IsTotal(hashOf: Block -> Hash, headers: Store, tds: map<Key, int>, k: Key)
    requires Closed(hashOf, headers) && k in headers
  {
    k in tds && tds[k] == SumDifficulty(ChainOf(hashOf, headers, headers[k]))
  }

  /** All total difficulties are right, and number 0 is the genesis. */
  ghost predicate Weighed(hashOf: Block -> Hash, headers: Store, tds: map<Key, int>, genesis: Block) {
    && Closed(hashOf, headers) && tds.Keys == headers.Keys
    && Stored(hashOf, headers, genesis) && genesis.number == 0
    && (forall k :: k in headers && k.number == 0 ==> headers[k] == genesis)
    && (forall k {:trigger IsTotal(hashOf, headers, tds, k)} :: k in headers ==> IsTotal(hashOf, headers, tds, k))
  }

  lemma AddDifficulty(hashOf: Block -> Hash, headers: Store, h: Block)
    requires Closed(hashOf, headers) && h.number > 0 && ParentKey(h) in headers
    ensures SumDifficulty(ChainOf(hashOf, headers, h))
         == SumDifficulty(ChainOf(hashOf, headers, headers[ParentKey(h)])) + h.difficulty
  {
    var c := ChainOf(hashOf, headers, headers[ParentKey(h)]);
    assert (c + [h])[..|c|] == c;
  }

  /** Writing a header with a known parent keeps all sums right. */
  lemma WeighMore(hashOf: Block -> Hash, headers: Store, tds: map<Key, int>, genesis: Block, h: Block)
    requires Hashing(hashOf) && Weighed(hashOf, headers, tds, genesis) && h.number > 0 && ParentKey(h) in headers
    ensures var k := KeyOf(hashOf, h);
            && Weighed(hashOf, headers[k := h], tds[k := h.difficulty + tds[ParentKey(h)]], genesis)
            && ChainOf(hashOf, headers[k := h], h) == ChainOf(hashOf, headers, h)
  {
    hide Hashing, ChainOf, SumDifficulty;
    var k := KeyOf(hashOf, h);
    var headers', tds' := headers[k := h], tds[k := h.difficulty + tds[ParentKey(h)]];
    AddBlock(hashOf, headers, h);
    assert IsTotal(hashOf, headers, tds, ParentKey(h));
    AddDifficulty(hashOf, headers, h);
    forall x | x in headers' ensures IsTotal(hashOf, headers', tds', x) {
      if x != k {
        assert IsTotal(hashOf, headers, tds, x);
        ChainInLarger(hashOf, headers, headers', headers[x]);
      }
    }
  }

  lemma ChainStartsAtGenesis(hashOf: Block -> Hash, headers: Store, tds: map<Key, int>, genesis: Block, h: Block)
    requires Weighed(hashOf, headers, tds, genesis) && Stored(hashOf, headers, h)
    ensures ChainOf(hashOf, headers, h)[0] == genesis && IsChain(hashOf, ChainOf(hashOf, headers, h))
    ensures forall i :: 0 <= i <= h.number ==> Stored(hashOf, headers, ChainOf(hashOf, headers, h)[i])
  {
    ChainOfIsChain(hashOf, headers, h);
  }

  /**
   While stale numbers are overwritten from the new head's parent downwards:
   heights above `low` already follow the new chain, the rest the old one.
   */
  ghost predicate Rerouted(hashOf: Block -> Hash, canon: map<nat, Hash>, was: seq<Block>, now: seq<Block>, low: nat) {
    forall n: nat ::
      && (n <= low ==> if n < |was| then n in canon && canon[n] == hashOf(was[n]) else n !in canon)
      && (low < n < |now| - 1 ==> n in canon && canon[n] == hashOf(now[n]))
      && (n >= |now| ==> n !in canon)
  }

  lemma RerouteStep(hashOf: Block -> Hash, canon: map<nat, Hash>, was: seq<Block>, now: seq<Block>, low: nat)
    requires Rerouted(hashOf, canon, was, now, low) && 0 < low < |now| - 1
    ensures Rerouted(hashOf, canon[low := hashOf(now[low])], was, now, low - 1)
  {}

  /** Where the two chains meet, everything below is right already. */
  lemma RerouteEnds(hashOf: Block -> Hash, canon: map<nat, Hash>, was: seq<Block>, now: seq<Block>, low: nat)
    requires Hashing(hashOf) && IsChain(hashOf, was) && IsChain(hashOf, now)
    requires Rerouted(hashOf, canon, was, now, low) && low < |now| - 1
    requires low in canon && canon[low] == hashOf(now[low])
    ensures Indexes(hashOf, canon[|now| - 1 := hashOf(now[|now| - 1])], now)
  {
    ChainsMeet(hashOf, was, now, low);
    forall n: nat | n <= low ensures n in canon && canon[n] == hashOf(now[n]) {
      assert was[n] == was[..low + 1][n] == now[..low + 1][n];
    }
  }

  function KeysOf(hashOf: Block -> Hash, c: seq<Block>): set<Key> {
    set b | b in c :: KeyOf(hashOf, b)
  }

  /** Some header that stays is the child of one that goes. */
  ghost predicate Orphans(headers: Store, gone: set<Key>) {
    exists k :: k in headers && k !in gone && headers[k].number > 0 && ParentKey(headers[k]) in gone
  }

  ghost predicate Branches(hashOf: Block -> Hash, headers: Store, was: seq<Block>, n: nat, h: Block) {
    && n < |was| && Stored(hashOf, headers, h) && h.number == n + 1 && h.parentHash == hashOf(was[n])
    && (n + 1 < |was| ==> h != was[n + 1])
  }

  /** Some stored header branches off the path at or above height keep: its parent is there, it is not. */
  ghost predicate SideBranch(hashOf: Block -> Hash, headers: Store, was: seq<Block>, keep: nat) {
    exists n: nat, h: Block {:trigger Branches(hashOf, headers, was, n, h)} :: keep <= n && Branches(hashOf, headers, was, n, h)
  }

  lemma AtKey(hashOf: Block -> Hash, was: seq<Block>, keep: nat, n: nat)
    requires IsChain(hashOf, was) && keep <= n < |was|
    ensures Key(hashOf(was[n]), n) in KeysOf(hashOf, was[keep..])
  {
    assert was[keep..][n - keep] == was[n];
    assert was[n] in was[keep..] && KeyOf(hashOf, was[n]) == Key(hashOf(was[n]), n);
  }

  lemma KeyAt(hashOf: Block -> Hash, was: seq<Block>, keep: nat, k: Key) returns (n: nat)
    requires IsChain(hashOf, was) && keep <= |was| && k in KeysOf(hashOf, was[keep..])
    ensures keep <= n < |was| && k == Key(hashOf(was[n]), n)
  {
    var b :| b in was[keep..] && k == KeyOf(hashOf, b);
    var i :| 0 <= i < |was[keep..]| && was[keep..][i] == b;
    n := keep + i;
  }

  /** Dropping a path from some height on orphans exactly the headers that branch off there. */
  lemma OrphansBranchOff(hashOf: Block -> Hash, headers: Store, was: seq<Block>, keep: nat)
    requires Hashing(hashOf) && Keyed(hashOf, headers) && IsChain(hashOf, was) && keep <= |was|
    ensures Orphans(headers, KeysOf(hashOf, was[keep..])) <==> SideBranch(hashOf, headers, was, keep)
  {
    var gone := KeysOf(hashOf, was[keep..]);
    if Orphans(headers, gone) {
      var k :| k in headers && k !in gone && headers[k].number > 0 && ParentKey(headers[k]) in gone;
      var h := headers[k];
      var n := KeyAt(hashOf, was, keep, ParentKey(h));
      if n + 1 < |was| { AtKey(hashOf, was, keep, n + 1); }
      assert Branches(hashOf, headers, was, n, h);
    }
    if SideBranch(hashOf, headers, was, keep) {
      var n: nat, h: Block :| keep <= n && Branches(hashOf, headers, was, n, h);
      AtKey(hashOf, was, keep, n);
      var k := KeyOf(hashOf, h);
      if k in gone {
        var m := KeyAt(hashOf, was, keep, k);
      }
      assert k in headers && k !in gone && headers[k].number > 0 && ParentKey(headers[k]) in gone;
    }
  }

  /** What is left after a rewind is closed exactly when no header is orphaned. */
  lemma RewindCloses(hashOf: Block -> Hash, headers: Store, gone: set<Key>)
    requires Closed(hashOf, headers)
    ensures Closed(hashOf, headers - gone) <==> !Orphans(headers, gone)
  {
    var left := headers - gone;
    if Orphans(headers, gone) {
      var k :| k in headers && k !in gone && headers[k].number > 0 && ParentKey(headers[k]) in gone;
      assert k in left && !Rooted(left, left[k]);
    } else {
      forall k | k in left ensures Rooted(left, left[k]) { assert Rooted(headers, headers[k]); }
    }
  }

  lemma RewindWeighs(hashOf: Block -> Hash, headers: Store, tds: map<Key, int>, genesis: Block, gone: set<Key>)
    requires Hashing(hashOf) && Weighed(hashOf, headers, tds, genesis)
    requires KeyOf(hashOf, genesis) !in gone && !Orphans(headers, gone)
    ensures Weighed(hashOf, headers - gone, tds - gone, genesis)
  {
    hide Hashing, ChainOf, SumDifficulty, Orphans;
    RewindCloses(hashOf, headers, gone);
    forall k | k in headers - gone ensures IsTotal(hashOf, headers - gone, tds - gone, k) {
      assert IsTotal(hashOf, headers, tds, k);
      ChainInSmaller(hashOf, headers, headers - gone, headers[k]);
    }
  }

  ghost predicate Tops(tds: map<Key, int>, k: Key) {
    k in tds && forall x :: x in tds ==> tds[x] <= tds[k]
  }

  lemma TopsKept(tds: map<Key, int>, top: Key, k: Key, td: int)
    requires Tops(tds, top) && (k in tds ==> tds[k] == td)
    ensures td >= tds[top] ==> Tops(tds[k := td], k)
    ensures td <= tds[top] ==> Tops(tds[k := td], top)
  {}

  /** Storing one more header leaves the path of the current one alone. */
  lemma CurrentStays(hashOf: Block -> Hash, headers: Store, tds: map<Key, int>, genesis: Block, h: Block, current: Block)
    requires Hashing(hashOf) && Weighed(hashOf, headers, tds, genesis) && h.number > 0 && ParentKey(h) in headers
    requires Stored(hashOf, headers, current)
    ensures var headers' := headers[KeyOf(hashOf, h) := h];
            && Rooted(headers, current) && Rooted(headers', current)
            && Closed(hashOf, headers') && Stored(hashOf, headers', current)
            && ChainOf(hashOf, headers', current) == ChainOf(hashOf, headers, current)
  {
    StoredIsRooted(hashOf, headers, current);
    AddBlock(hashOf, headers, h);
    ChainInLarger(hashOf, headers, headers[KeyOf(hashOf, h) := h], current);
  }

  lemma WeighedIsClosed(hashOf: Block -> Hash, headers: Store, tds: map<Key, int>, genesis: Block)
    requires Weighed(hashOf, headers, tds, genesis)
    ensures Closed(hashOf, headers)
    ensures forall b: Block :: Stored(hashOf, headers, b) ==> Rooted(headers, b)
  {
    forall b | Stored(hashOf, headers, b) ensures Rooted(headers, b) { StoredIsRooted(hashOf, headers, b); }
  }

  lemma ClosedIsKeyed(hashOf: Block -> Hash, headers: Store)
    requires Closed(hashOf, headers)
    ensures Keyed(hashOf, headers)
  {}

  lemma KeptKeys(hashOf: Block -> Hash, was: seq<Block>, keep: nat)
    requires IsChain(hashOf, was) && 0 < keep <= |was|
    ensures IsChain(hashOf, was[..keep])
    ensures forall i :: 0 <= i < keep ==> KeyOf(hashOf, was[i]) !in KeysOf(hashOf, was[keep..])
  {
    forall i, b | 0 <= i < keep && b in was[keep..] ensures b.number != was[i].number {
      var j :| 0 <= j < |was[keep..]| && was[keep..][j] == b;
      assert was[keep + j] == b;
    }
  }

  /** Dropping the block at height m - 1 leaves its parent, and drops one key more. */
  lemma DropStep(hashOf: Block -> Hash, was: seq<Block>, m: nat, headers: Store, tds: map<Key, int>)
    requires IsChain(hashOf, was) && 1 < m <= |was|
    requires forall i :: 0 <= i < |was| ==> Stored(hashOf, headers, was[i])
    ensures var key, gone, gone' := KeyOf(hashOf, was[m - 1]), KeysOf(hashOf, was[m..]), KeysOf(hashOf, was[m - 1..]);
            && headers - gone - {key} == headers - gone' && tds - gone - {key} == tds - gone'
            && ParentKey(was[m - 1]) in headers - gone' && headers[ParentKey(was[m - 1])] == was[m - 2]
  {
    assert was[m - 1..] == [was[m - 1]] + was[m..];
    assert KeysOf(hashOf, was[m - 1..]) == KeysOf(hashOf, was[m..]) + {KeyOf(hashOf, was[m - 1])};
    KeptKeys(hashOf, was, m - 1);
    assert Stored(hashOf, headers, was[m - 2]);
  }

  lemma GenesisWeighed(hashOf: Block -> Hash, genesis: Block)
    requires genesis.number == 0
    ensures var k := KeyOf(hashOf, genesis);
            Weighed(hashOf, map[k := genesis], map[k := genesis.difficulty], genesis)
  {
    assert [genesis][..0] == [];
    var k := KeyOf(hashOf, genesis);
    assert IsTotal(hashOf, map[k := genesis], map[k := genesis.difficulty], k);
  }

  class HeaderChain {
    const hashOf: Block -> Hash
    const genesisHeader: Block
    var headers: Store
    var tds: map<Key, int>
    var canon: map<nat, Hash>
    var currentHeader: Block
    var currentHeaderHash: Hash

    /**
     Totals are sums along ancestor paths, and the canonical index is exactly
     the ancestor path of the current header with nothing above it.
     */
    ghost predicate Valid()
      reads this
    {
      && Hashing(hashOf) && Weighed(hashOf, headers, tds, genesisHeader)
      && Stored(hashOf, headers, currentHeader) && currentHeaderHash == hashOf(currentHeader)
      && Indexes(hashOf, canon, ChainOf(hashOf, headers, currentHeader))
    }

    /** No known header is heavier than the current one. */
    ghost predicate Heaviest()
      reads this
    {
      Tops(tds, KeyOf(hashOf, currentHeader))
    }

    constructor (hashOf: Block -> Hash, genesis: Block)
      requires Hashing(hashOf) && genesis.number == 0
      ensures Valid() && Heaviest() && this.hashOf == hashOf && currentHeader == genesis == genesisHeader
      ensures headers == map[KeyOf(hashOf, genesis) := genesis]
    {
      this.hashOf, genesisHeader := hashOf, genesis;
      headers := map[KeyOf(hashOf, genesis) := genesis];
      tds := map[KeyOf(hashOf, genesis) := genesis.difficulty];
      canon := map[0 := hashOf(genesis)];
      currentHeader, currentHeaderHash := genesis, hashOf(genesis);
      new;
      GenesisWeighed(hashOf, genesis);
    }

    /** What a database holds. */
    constructor Load(hashOf: Block -> Hash, headers: Store, tds: map<Key, int>, canon: map<nat, Hash>, genesis: Block,
                     current: Block)
      ensures this.hashOf == hashOf && this.headers == headers && this.tds == tds && this.canon == canon
      ensures genesisHeader == genesis && currentHeader == current && currentHeaderHash == hashOf(current)
    {
      this.hashOf, this.headers, this.tds, this.canon := hashOf, headers, tds, canon;
      genesisHeader, currentHeader, currentHeaderHash := genesis, current, hashOf(current);
    }

    function CanonicalHash(n: nat): Hash
      reads this
    {
      if n in canon then canon[n] else ZERO_HASH
    }

    /** Delete any canonical numbers above the new head. */
    method TrimCanon(number: nat, ghost was: seq<Block>, ghost now: seq<Block>)
      requires Hashing(hashOf) && Indexes(hashOf, canon, was) && |now| == number + 1 > 1
      modifies this`canon
      ensures Rerouted(hashOf, canon, was, now, number - 1)
    {
      var i := number + 1;
      while CanonicalHash(i) != ZERO_HASH
        invariant i > number
        invariant forall n: nat ::
                    if (n <= number || i <= n) && n < |was| then n in canon && canon[n] == hashOf(was[n]) else n !in canon
        decreases |was| - i
      {
        canon := canon - {i};
        i := i + 1;
      }
    }

    /** Overwrite stale canonical numbers, down to where the chains meet. */
    method Reroute(header: Block, ghost was: seq<Block>, ghost now: seq<Block>)
      requires Hashing(hashOf) && IsChain(hashOf, was) && IsChain(hashOf, now)
      requires |was| > 0 && |now| > 1
      requires was[0] == now[0] && now[|now| - 1] == header
      requires forall i :: 0 <= i < |now| ==> Stored(hashOf, headers, now[i])
      requires Rerouted(hashOf, canon, was, now, |now| - 2)
      modifies this`canon
      ensures Indexes(hashOf, canon, now)
    {
      assert Stored(hashOf, headers, now[|now| - 2]);
      var headHash, headNumber: nat := header.parentHash, header.number - 1;
      var headHeader := headers[Key(headHash, headNumber)];
      while CanonicalHash(headNumber) != headHash
        invariant headNumber < |now| - 1 && headHeader == now[headNumber] && headHash == hashOf(headHeader)
        invariant Rerouted(hashOf, canon, was, now, headNumber)
        decreases headNumber
      {
        assert headNumber > 0;
        RerouteStep(hashOf, canon, was, now, headNumber);
        canon := canon[headNumber := headHash];
        headHash, headNumber := headHeader.parentHash, headHeader.number - 1;
        assert headHash == hashOf(now[headNumber]) && Stored(hashOf, headers, now[headNumber]);
        headHeader := headers[Key(headHash, headNumber)];
      }
      RerouteEnds(hashOf, canon, was, now, headNumber);
      canon := canon[header.number := hashOf(header)];
    }

    /** Store the header and its total difficulty, irrelevant of the canonical status. */
    method Record(header: Block, externTd: int)
      requires Valid() && header.number > 0 && ParentKey(header) in headers
      requires ParentKey(header) in tds && externTd == header.difficulty + tds[ParentKey(header)]
      modifies this`headers, this`tds
      ensures Valid() && Stored(hashOf, headers, header)
      ensures headers == old(headers)[KeyOf(hashOf, header) := header]
      ensures tds == old(tds)[KeyOf(hashOf, header) := externTd]
    {
      hide Hashing, ChainOf, Weighed, IsChain;
      WeighMore(hashOf, headers, tds, genesisHeader, header);
      CurrentStays(hashOf, headers, tds, genesisHeader, header, currentHeader);
      tds := tds[KeyOf(hashOf, header) := externTd];
      headers := headers[KeyOf(hashOf, header) := header];
    }

    /** Make a stored header the head of the canonical chain. */
    method Adopt(header: Block)
      requires Valid() && Stored(hashOf, headers, header) && header.number > 0
      modifies this`canon, this`currentHeader, this`currentHeaderHash
      ensures Valid() && currentHeader == header
    {
      hide Hashing, ChainOf, Weighed, IsChain, Rerouted, Closed;
      WeighedIsClosed(hashOf, headers, tds, genesisHeader);
      ChainStartsAtGenesis(hashOf, headers, tds, genesisHeader, currentHeader);
      ChainStartsAtGenesis(hashOf, headers, tds, genesisHeader, header);
      ghost var was, now := ChainOf(hashOf, headers, currentHeader), ChainOf(hashOf, headers, header);
      TrimCanon(header.number, was, now);
      Reroute(header, was, now);
      currentHeaderHash, currentHeader := hashOf(header), header;
    }

    /** `coin` decides between equally heavy headers. */
    method WriteHeader(header: Block, coin: bool) returns (status: WriteStatus)
      requires Valid()
      modifies this`headers, this`tds, this`canon, this`currentHeader, this`currentHeaderHash
      ensures Valid() && (old(Heaviest()) ==> Heaviest())
      ensures status == UnknownAncestor <==> header.number == 0 || ParentKey(header) !in old(headers)
      ensures status == UnknownAncestor ==> headers == old(headers) && tds == old(tds) && canon == old(canon)
      ensures status != UnknownAncestor ==>
                && headers == old(headers)[KeyOf(hashOf, header) := header]
                && ParentKey(header) in old(tds)
                && tds == old(tds)[KeyOf(hashOf, header) := header.difficulty + old(tds)[ParentKey(header)]]
      ensures status == Canonical <==>
                && header.number > 0 && ParentKey(header) in old(tds)
                && KeyOf(hashOf, old(currentHeader)) in old(tds)
                && var td, head := header.difficulty + old(tds)[ParentKey(header)],
                                   old(tds)[KeyOf(hashOf, old(currentHeader))];
                   td > head || (td == head && coin)
      ensures currentHeader == if status == Canonical then header else old(currentHeader)
    {
      hide *;
      AllWeighed(header);
      var headKey, key := Key(currentHeaderHash, currentHeader.number), Key(hashOf(header), header.number);
      ghost var heaviest := Heaviest();
      if header.number == 0 || ParentKey(header) !in tds {
        return UnknownAncestor;
      }
      var localTd := tds[headKey];
      var externTd := header.difficulty + tds[ParentKey(header)];
      if heaviest { TopsKept(tds, headKey, key, externTd); }
      Record(header, externTd);
      if externTd > localTd || (externTd == localTd && coin) {
        Adopt(header);
        if heaviest { IsHeaviest(key); }
        return Canonical;
      }
      if heaviest { IsHeaviest(headKey); }
      return Side;
    }

    /**
     Rewind to the given height. The canonical index becomes the prefix of the
     old path; the other invariants survive exactly when no known header
     branches off the part of the path that is dropped.
     */
    method SetHead(head: nat)
      requires Valid()
      modifies this`headers, this`tds, this`canon, this`currentHeader, this`currentHeaderHash
      ensures var was := old(ChainOf(hashOf, headers, currentHeader));
              var keep := if head < |was| then head + 1 else |was|;
              var gone := KeysOf(hashOf, was[keep..]);
              && currentHeader == was[keep - 1] && currentHeaderHash == hashOf(currentHeader)
              && Indexes(hashOf, canon, was[..keep])
              && headers == old(headers) - gone && tds == old(tds) - gone
              && (Valid() <==> !SideBranch(hashOf, old(headers), was, keep))
    {
      hide *;
      ValidFacts();
      WeighedIsClosed(hashOf, headers, tds, genesisHeader);
      ghost var was := ChainOf(hashOf, headers, currentHeader);
      ghost var keep := if head < |was| then head + 1 else |was|;
      assert was[..|was|] == was;
      ChainStartsAtGenesis(hashOf, headers, tds, genesisHeader, currentHeader);
      var height := currentHeader.number;
      DropHeaders(head, was);
      DropNumbers(height, head, was);
      currentHeaderHash := hashOf(currentHeader);
      RewindIsValid(was, keep, old(headers), old(tds));
      ClosedIsKeyed(hashOf, old(headers));
      OrphansBranchOff(hashOf, old(headers), was, keep);
    }

    lemma ValidFacts()
      requires Valid()
      ensures Hashing(hashOf) && Weighed(hashOf, headers, tds, genesisHeader) && Stored(hashOf, headers, currentHeader)
      ensures Closed(hashOf, headers) && Rooted(headers, currentHeader)
      ensures Indexes(hashOf, canon, ChainOf(hashOf, headers, currentHeader))
    {
      WeighedIsClosed(hashOf, headers, tds, genesisHeader);
    }

    lemma RewindIsValid(was: seq<Block>, keep: nat, oldHeaders: Store, oldTds: map<Key, int>)
      requires Hashing(hashOf) && Weighed(hashOf, oldHeaders, oldTds, genesisHeader)
      requires IsChain(hashOf, was) && 0 < keep <= |was| && was[0] == genesisHeader
      requires forall i :: 0 <= i < |was| ==> Stored(hashOf, oldHeaders, was[i])
      requires headers == oldHeaders - KeysOf(hashOf, was[keep..]) && tds == oldTds - KeysOf(hashOf, was[keep..])
      requires currentHeader == was[keep - 1] && currentHeaderHash == hashOf(currentHeader)
      requires Indexes(hashOf, canon, was[..keep])
      ensures Valid() <==> !Orphans(oldHeaders, KeysOf(hashOf, was[keep..]))
    {
      hide Orphans, ChainOf;
      var gone := KeysOf(hashOf, was[keep..]);
      RewindCloses(hashOf, oldHeaders, gone);
      KeptKeys(hashOf, was, keep);
      if !Orphans(oldHeaders, gone) {
        RewindWeighs(hashOf, oldHeaders, oldTds, genesisHeader, gone);
        assert Stored(hashOf, headers, currentHeader);
        StoredIsRooted(hashOf, headers, currentHeader);
        ChainIsUnique(hashOf, headers, currentHeader, was[..keep]);
      }
    }

    method DropHeaders(head: nat, ghost was: seq<Block>)
      requires IsChain(hashOf, was) && |was| > 0 && currentHeader == was[|was| - 1]
      requires forall i :: 0 <= i < |was| ==> Stored(hashOf, headers, was[i])
      modifies this`headers, this`tds, this`currentHeader
      ensures var keep := if head < |was| then head + 1 else |was|;
              && currentHeader == was[keep - 1]
              && headers == old(headers) - KeysOf(hashOf, was[keep..])
              && tds == old(tds) - KeysOf(hashOf, was[keep..])
    {
      ghost var m := |was|;
      assert was[m..] == [];
      while currentHeader.number > head
        invariant 0 < m <= |was| && (head < |was| ==> head < m) && currentHeader == was[m - 1]
        invariant m < |was| ==> head < |was|
        invariant headers == old(headers) - KeysOf(hashOf, was[m..]) && tds == old(tds) - KeysOf(hashOf, was[m..])
        decreases m
      {
        DropStep(hashOf, was, m, old(headers), old(tds));
        var key := Key(hashOf(currentHeader), currentHeader.number);
        headers, tds := headers - {key}, tds - {key};
        currentHeader := headers[Key(currentHeader.parentHash, currentHeader.number - 1)];
        m := m - 1;
      }
    }

    method DropNumbers(height: nat, head: nat, ghost was: seq<Block>)
      requires Indexes(hashOf, canon, was) && |was| == height + 1
      modifies this`canon
      ensures Indexes(hashOf, canon, if head < |was| then was[..head + 1] else was)
    {
      var i: nat := height;
      assert was[..i + 1] == was;
      while i > head
        invariant i <= height && (if head <= height then head <= i else i == height)
        invariant Indexes(hashOf, canon, was[..i + 1])
      {
        canon := canon - {i};
        i := i - 1;
      }
    }

    lemma IsHeaviest(k: Key)
      requires k == KeyOf(hashOf, currentHeader) && Tops(tds, k)
      ensures Heaviest()
    {}

    /** Writing a known header again would not change its total. */
    lemma AllWeighed(header: Block)
      requires Valid()
      ensures tds.Keys == headers.Keys && KeyOf(hashOf, currentHeader) in tds
      ensures Key(currentHeaderHash, currentHeader.number) == KeyOf(hashOf, currentHeader)
      ensures Key(hashOf(header), header.number) == KeyOf(hashOf, header)
      ensures Heaviest() <==> Tops(tds, KeyOf(hashOf, currentHeader))
      ensures KeyOf(hashOf, header) in tds && header.number > 0 ==>
                && ParentKey(header) in tds
                && tds[KeyOf(hashOf, header)] == header.difficulty + tds[ParentKey(header)]
    {
      hide ChainOf, SumDifficulty;
      if KeyOf(hashOf, header) in tds && header.number > 0 {
        assert headers[KeyOf(hashOf, header)] == header;
        StoredIsRooted(hashOf, headers, header);
        assert IsTotal(hashOf, headers, tds, KeyOf(hashOf, header)) && IsTotal(hashOf, headers, tds, ParentKey(header));
        AddDifficulty(hashOf, headers, header);
      }
    }
  }

  // ----- Opening a database -----

  /** The header GetHeaderByHash finds, if any; `numbers` are the numbers filed under hashes. */
  function HeaderByHash(headers: Store, numbers: map<Hash, nat>, hash: Hash): Option<Block> {
    if hash in numbers && Key(hash, numbers[hash]) in headers then Some(headers[Key(hash, numbers[hash])]) else None
  }

  /**
   NewHeaderChain on a database: the header of the stored head block becomes the
   current one, or the genesis if there is none; without a genesis it fails.
   */
  method Open(hashOf: Block -> Hash, headers: Store, tds: map<Key, int>, canon: map<nat, Hash>, numbers: map<Hash, nat>,
              head: Hash)
    returns (r: Option<HeaderChain>)
    ensures r.None? <==> 0 !in canon || Key(canon[0], 0) !in headers
    ensures r.Some? ==>
              && var hc, found := r.value, HeaderByHash(headers, numbers, head);
              && hc.hashOf == hashOf && hc.headers == headers && hc.tds == tds && hc.canon == canon
              && hc.genesisHeader == headers[Key(canon[0], 0)] && hc.currentHeaderHash == hashOf(hc.currentHeader)
              && hc.currentHeader == if head != ZERO_HASH && found.Some? then found.value else hc.genesisHeader
  {
    if 0 !in canon || Key(canon[0], 0) !in headers { return None; }
    var genesis := headers[Key(canon[0], 0)];
    var current := genesis;
    if head != ZERO_HASH {
      var chead := HeaderByHash(headers, numbers, head);
      if chead.Some? { current := chead.value; }
    }
    var hc := new HeaderChain.Load(hashOf, headers, tds, canon, genesis, current);
    return Some(hc);
  }

  /** An index belongs to one chain only. */
  lemma IndexedOnce(hashOf: Block -> Hash, canon: map<nat, Hash>, c: seq<Block>, d: seq<Block>)
    requires Hashing(hashOf) && Indexes(hashOf, canon, c) && Indexes(hashOf, canon, d) && |c| > 0 && |d| > 0
    ensures |c| == |d| && c[|c| - 1] == d[|d| - 1]
  {
    assert |c| !in canon && |d| !in canon;
  }

  /** The parts of the invariant that a database decides. */
  lemma OpenIsValid(hc: HeaderChain, was: Block)
    requires Hashing(hc.hashOf) && Weighed(hc.hashOf, hc.headers, hc.tds, hc.genesisHeader)
    requires Stored(hc.hashOf, hc.headers, was) && Indexes(hc.hashOf, hc.canon, ChainOf(hc.hashOf, hc.headers, was))
    requires Stored(hc.hashOf, hc.headers, hc.currentHeader) && hc.currentHeaderHash == hc.hashOf(hc.currentHeader)
    ensures hc.Valid() <==> hc.currentHeader == was
  {
    hide Hashing, Indexes, Weighed;
    WeighedIsClosed(hc.hashOf, hc.headers, hc.tds, hc.genesisHeader);
    if hc.Valid() {
      IndexedOnce(hc.hashOf, hc.canon, ChainOf(hc.hashOf, hc.headers, was), ChainOf(hc.hashOf, hc.headers, hc.currentHeader));
    }
  }

  /**
   Opening what a chain has written resumes it. The invariants hold again if and
   only if the stored head block is the current header, and not one behind it.
   */
  method Reopen(hc: HeaderChain, numbers: map<Hash, nat>, head: Hash) returns (again: HeaderChain)
    requires hc.Valid() && forall k :: k in hc.headers ==> k.hash in numbers && numbers[k.hash] == k.number
    ensures again.headers == hc.headers && again.tds == hc.tds && again.canon == hc.canon
    ensures again.genesisHeader == hc.genesisHeader
    ensures again.Valid() <==> again.currentHeader == hc.currentHeader
    ensures head == hc.currentHeaderHash ==> again.currentHeader == hc.currentHeader
  {
    hc.ValidFacts();
    WeighedIsClosed(hc.hashOf, hc.headers, hc.tds, hc.genesisHeader);
    ChainStartsAtGenesis(hc.hashOf, hc.headers, hc.tds, hc.genesisHeader, hc.currentHeader);
    assert 0 in hc.canon && hc.canon[0] == hc.hashOf(hc.genesisHeader);
    var r := Open(hc.hashOf, hc.headers, hc.tds, hc.canon, numbers, head);
    assert Stored(hc.hashOf, hc.headers, hc.genesisHeader);
    again := r.value;
    OpenIsValid(again, hc.currentHeader);
  }

  // ----- A rewind that orphans -----

  /** One header on top of the current one, of positive difficulty. */
  method Append(hc: HeaderChain, h: Block)
    requires hc.Valid() && h.difficulty > 0
    requires h.number == hc.currentHeader.number + 1 && h.parentHash == hc.hashOf(hc.currentHeader)
    modifies hc
    ensures hc.Valid() && hc.currentHeader == h && hc.headers == old(hc.headers)[KeyOf(hc.hashOf, h) := h]
  {
    hide Hashing, ChainOf, Weighed, Indexes;
    hc.AllWeighed(h);
    var status := hc.WriteHeader(h, false);
  }

  /** A header next to the current one, on the same parent and lighter. */
  method Beside(hc: HeaderChain, h: Block, parent: Block)
    requires hc.Valid() && Stored(hc.hashOf, hc.headers, parent) && h.difficulty < hc.currentHeader.difficulty
    requires h.number == hc.currentHeader.number == parent.number + 1
    requires h.parentHash == hc.currentHeader.parentHash == hc.hashOf(parent)
    modifies hc
    ensures hc.Valid() && hc.currentHeader == old(hc.currentHeader)
    ensures hc.headers == old(hc.headers)[KeyOf(hc.hashOf, h) := h]
  {
    hide Hashing, ChainOf, Weighed, Indexes;
    hc.AllWeighed(hc.currentHeader);
    var status := hc.WriteHeader(h, false);
  }

  lemma OrphanLeft(hashOf: Block -> Hash, headers: Store, g: Block, a: Block, b: Block, side: Block)
    requires Hashing(hashOf) && IsChain(hashOf, [g, a, b]) && KeyOf(hashOf, side) in headers && side != b
    requires Stored(hashOf, headers, side) && side.number == 2 && side.parentHash == hashOf(a)
    ensures var was := [g, a, b];
            && KeyOf(hashOf, side) in headers - KeysOf(hashOf, was[1..])
            && ParentKey(side) in KeysOf(hashOf, was[1..]) && SideBranch(hashOf, headers, was, 1)
  {
    var was := [g, a, b];
    assert was[1] == a && was[2] == b;
    AtKey(hashOf, was, 1, 1);
    if KeyOf(hashOf, side) in KeysOf(hashOf, was[1..]) {
      var n := KeyAt(hashOf, was, 1, KeyOf(hashOf, side));
    }
    assert Branches(hashOf, headers, was, 1, side);
  }

  /** A side branch off a rewound header: its first header stays behind without a parent. */
  method RewindCanOrphan(hashOf: Block -> Hash, genesis: Block) returns (hc: HeaderChain, side: Block)
    requires Hashing(hashOf) && genesis.number == 0
    ensures hc.hashOf == hashOf && side.number > 0 && KeyOf(hashOf, side) in hc.headers && ParentKey(side) !in hc.headers
    ensures hc.currentHeader == genesis && !hc.Valid()
  {
    var a := Block(1, hashOf(genesis), 1, [], 0);
    var b := Block(2, hashOf(a), 2, [], 0);
    side := Block(2, hashOf(a), 1, [], 0);
    ghost var was := [genesis, a, b];
    assert IsChain(hashOf, was) && was[2] == b;
    hide *;
    hc := new HeaderChain(hashOf, genesis);
    Append(hc, a);
    Append(hc, b);
    Beside(hc, side, a);
    hc.ValidFacts();
    ChainIsUnique(hashOf, hc.headers, b, was);
    ghost var headers := hc.headers;
    hc.SetHead(0);
    OrphanLeft(hashOf, headers, genesis, a, b, side);
  }
}
