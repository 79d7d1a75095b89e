/**
 The chain indexer of core/chain_indexer.go. Each method is one critical
 section, or one read of the worker that runs without the lock; since every
 method keeps Valid(), every interleaving of head events with the worker does.
 */
module ChainIndexers {
  import opened Basics
  import opened Chains

  /**
   The update loop: idle, reading the headers of a section that followed on
   oldHead when it started, or holding the outcome and waiting for the lock.
   */
  datatype Worker =
    | Idle
    | Reading(section: nat, oldHead: Hash, lastHead: Hash, run: seq<Block>)
    | Finished(section: nat, oldHead: Hash, newHead: Option<Hash>, run: seq<Block>)

  /** run are linked headers, numbered from first on, that follow on prev and end in head. */
  ghost predicate Linked(hashOf: Block -> Hash, run: seq<Block>, first: nat, prev: Hash, head: Hash) {
    if run == [] then head == prev
    else
      var b := run[|run| - 1];
      && b.number == first + |run| - 1 && head == hashOf(b)
      && Linked(hashOf, run[..|run| - 1], first, prev, b.parentHash)
  }

  /** head ends a section of that many linked headers starting from prev. */
  ghost predicate IsSection(hashOf: Block -> Hash, size: nat, first: nat, prev: Hash, head: Hash) {
    exists run: seq<Block> :: |run| == size && Linked(hashOf, run, first, prev, head)
  }

  function HeadBefore(sheads: map<nat, Hash>, section: nat): Hash {
    if section > 0 && section - 1 in sheads then sheads[section - 1] else ZERO_HASH
  }

  function Least(a: nat, b: nat): nat {
    if a < b then a else b
  }

  function First(size: nat, section: nat): nat {
    section * size
  }

  ghost predicate SectionOk(hashOf: Block -> Hash, size: nat, sheads: map<nat, Hash>, s: nat) {
    && s in sheads && sheads[s] != ZERO_HASH
    && IsSection(hashOf, size, First(size, s), HeadBefore(sheads, s), sheads[s])
  }

  /** Heads are stored for exactly the sections below the count, each a section on top of the one before. */
  ghost predicate Sectioned(hashOf: Block -> Hash, size: nat, sheads: map<nat, Hash>, sections: nat) {
    && (forall s :: s in sheads ==> s < sections)
    && (forall s: nat {:trigger SectionOk(hashOf, size, sheads, s)} ::
          s < sections ==> SectionOk(hashOf, size, sheads, s))
  }

  lemma SameSection(hashOf: Block -> Hash, size: nat, sheads: map<nat, Hash>, sheads': map<nat, Hash>, s: nat)
    requires SectionOk(hashOf, size, sheads, s) && s in sheads' && sheads'[s] == sheads[s]
    requires HeadBefore(sheads', s) == HeadBefore(sheads, s)
    ensures SectionOk(hashOf, size, sheads', s)
  {}

  lemma StoreOneLess(hashOf: Block -> Hash, size: nat, sheads: map<nat, Hash>, sections: nat)
    requires Sectioned(hashOf, size, sheads, sections) && sections > 0
    ensures Sectioned(hashOf, size, sheads - {sections - 1}, sections - 1)
  {
    hide IsSection;
    var fewer := sheads - {sections - 1};
    forall s: nat | s < sections - 1 ensures SectionOk(hashOf, size, fewer, s) {
      assert SectionOk(hashOf, size, sheads, s);
      SameSection(hashOf, size, sheads, fewer, s);
    }
  }

  lemma StoreOneMore(hashOf: Block -> Hash, size: nat, sheads: map<nat, Hash>, sections: nat, head: Hash, run: seq<Block>)
    requires Sectioned(hashOf, size, sheads, sections) && head != ZERO_HASH
    requires |run| == size && Linked(hashOf, run, First(size, sections), HeadBefore(sheads, sections), head)
    ensures Sectioned(hashOf, size, sheads[sections := head], sections + 1)
  {
    hide Linked;
    var more := sheads[sections := head];
    assert SectionOk(hashOf, size, more, sections);
    forall s: nat | s < sections ensures SectionOk(hashOf, size, more, s) {
      assert SectionOk(hashOf, size, sheads, s);
      SameSection(hashOf, size, sheads, more, s);
    }
  }

  /** With as many sections as the count says, exactly their heads are there. */
  lemma HeadsOf(hashOf: Block -> Hash, size: nat, sheads: map<nat, Hash>, sections: nat, s: nat)
    requires Sectioned(hashOf, size, sheads, sections)
    ensures s in sheads <==> s < sections
    ensures s < sections ==> SectionOk(hashOf, size, sheads, s)
    ensures s > 0 ==> (HeadBefore(sheads, s) == ZERO_HASH <==> s > sections)
  {
    assert s < sections ==> SectionOk(hashOf, size, sheads, s);
    assert s > 0 && s - 1 < sections ==> SectionOk(hashOf, size, sheads, s - 1);
  }

  lemma LinkMore(hashOf: Block -> Hash, run: seq<Block>, first: nat, prev: Hash, head: Hash, b: Block)
    requires Linked(hashOf, run, first, prev, head) && b.number == first + |run| && b.parentHash == head
    ensures Linked(hashOf, run + [b], first, prev, hashOf(b))
  {
    assert (run + [b])[..|run|] == run;
  }

  lemma {:induction false} LinkBoth(hashOf: Block -> Hash, a: seq<Block>, b: seq<Block>, first: nat, prev: Hash,
                                    mid: Hash, head: Hash)
    requires Linked(hashOf, a, first, prev, mid) && Linked(hashOf, b, first + |a|, mid, head)
    ensures Linked(hashOf, a + b, first, prev, head)
  {
    if b == [] {
      assert a + b == a;
    } else {
      var n := |b| - 1;
      LinkBoth(hashOf, a, b[..n], first, prev, mid, b[n].parentHash);
      assert (a + b)[..|a + b| - 1] == a + b[..n];
    }
  }

  lemma LinkNone(hashOf: Block -> Hash, first: nat, prev: Hash)
    ensures Linked(hashOf, [], first, prev, prev)
  {}

  lemma NextFirst(size: nat, section: nat)
    ensures First(size, section + 1) == First(size, section) + size
  {}

  /** The stored sections together are one linked chain of headers from the genesis on. */
  lemma {:induction false} SectionsAreOneChain(hashOf: Block -> Hash, size: nat, sheads: map<nat, Hash>, sections: nat,
                                               n: nat)
    requires Sectioned(hashOf, size, sheads, sections) && n <= sections
    ensures exists run: seq<Block> ::
              |run| == First(size, n) && Linked(hashOf, run, 0, ZERO_HASH, HeadBefore(sheads, n))
    decreases n
  {
    hide Linked;
    if n == 0 {
      LinkNone(hashOf, 0, ZERO_HASH);
      var none: seq<Block> := [];
      assert |none| == First(size, 0) && Linked(hashOf, none, 0, ZERO_HASH, HeadBefore(sheads, 0));
    } else {
      SectionsAreOneChain(hashOf, size, sheads, sections, n - 1);
      var a :| |a| == First(size, n - 1) && Linked(hashOf, a, 0, ZERO_HASH, HeadBefore(sheads, n - 1));
      assert SectionOk(hashOf, size, sheads, n - 1);
      var b :| |b| == size && Linked(hashOf, b, First(size, n - 1), HeadBefore(sheads, n - 1), sheads[n - 1]);
      LinkBoth(hashOf, a, b, 0, ZERO_HASH, HeadBefore(sheads, n - 1), sheads[n - 1]);
      NextFirst(size, n - 1);
      assert |a + b| == First(size, n);
    }
  }

  class ChainIndexer {
    const hashOf: Block -> Hash
    const sectionSize: nat
    const confirmsReq: nat
    var storedSections: nat
    var knownSections: nat
    var count: nat
    var sheads: map<nat, Hash>
    var worker: Worker
    /** The lowest section any reorganisation has reached since the worker started; none, if above the worker's. */
    ghost var lowest: nat

    ghost predicate WorkerOk()
      reads this
    {
      match worker
      case Idle => true
      case Reading(section, oldHead, lastHead, run) =>
        && Linked(hashOf, run, First(sectionSize, section), oldHead, lastHead) && |run| <= sectionSize
        && Undisturbed(section, oldHead)
      case Finished(section, oldHead, newHead, run) =>
        && (newHead.Some? ==>
              |run| == sectionSize && Linked(hashOf, run, First(sectionSize, section), oldHead, newHead.value))
        && Undisturbed(section, oldHead)
    }

    /** Sections have only been taken away meanwhile, down to the lowest one reached. */
    ghost predicate Undisturbed(section: nat, oldHead: Hash)
      reads this
    {
      && storedSections == Least(lowest, section)
      && (oldHead == ZERO_HASH <==> section == 0)
      && (storedSections == section ==> oldHead == HeadBefore(sheads, section))
    }

    ghost predicate Valid()
      reads this
    {
      && Hashing(hashOf) && sectionSize > 0 && count == storedSections
      && Sectioned(hashOf, sectionSize, sheads, storedSections) && WorkerOk()
    }

    constructor (hashOf: Block -> Hash, sectionSize: nat, confirmsReq: nat)
      requires Hashing(hashOf) && sectionSize > 0
      ensures Valid() && storedSections == knownSections == 0 && sheads == map[] && worker == Idle
      ensures this.hashOf == hashOf && this.sectionSize == sectionSize && this.confirmsReq == confirmsReq
    {
      this.hashOf, this.sectionSize, this.confirmsReq := hashOf, sectionSize, confirmsReq;
      storedSections, knownSections, count, sheads, worker, lowest := 0, 0, 0, map[], Idle, 0;
    }

    /** A restart keeps the database and loses the rest. */
    method Restart()
      requires Valid()
      modifies this
      ensures Valid() && storedSections == old(storedSections) && sheads == old(sheads)
    {
      storedSections, knownSections, worker := count, 0, Idle;
    }

    /** Write the number of valid sections, removing the heads of reorganised ones. */
    method SetValidSections(sections: nat)
      requires Sectioned(hashOf, sectionSize, sheads, if sections > storedSections then sections else storedSections)
      modifies this`storedSections, this`count, this`sheads
      ensures count == storedSections == sections && Sectioned(hashOf, sectionSize, sheads, sections)
      ensures forall s :: s in sheads ==> s in old(sheads) && sheads[s] == old(sheads)[s]
      ensures sections >= old(storedSections) ==> sheads == old(sheads)
    {
      hide Sectioned;
      count := sections;
      while storedSections > sections
        invariant Sectioned(hashOf, sectionSize, sheads, if sections > storedSections then sections else storedSections)
        invariant count == sections
        invariant forall s :: s in sheads ==> s in old(sheads) && sheads[s] == old(sheads)[s]
        invariant sections >= old(storedSections) ==> sheads == old(sheads) && storedSections == old(storedSections)
      {
        StoreOneLess(hashOf, sectionSize, sheads, storedSections);
        storedSections := storedSections - 1;
        sheads := sheads - {storedSections};
      }
      storedSections := sections;
    }

    /** The sections that are complete and confirmed below the given head. */
    function Confirmed(head: nat, known: nat): nat
      requires sectionSize > 0
    {
      if head < confirmsReq then known
      else
        var sections := (head + 1 - confirmsReq) / sectionSize;
        if sections > known then sections else known
    }

    lemma SectionsMul(a: nat, b: nat)
      ensures (a + b) * sectionSize == a * sectionSize + b * sectionSize >= a * sectionSize
    {}

    /**
     Sections never become unknown; those that become known end at least the
     required number of headers below the head, and the next one would not.
     */
    lemma ConfirmedIsDeep(head: nat, known: nat)
      requires sectionSize > 0
      ensures Confirmed(head, known) >= known
      ensures Confirmed(head, known) > known ==> First(sectionSize, Confirmed(head, known)) + confirmsReq <= head + 1
      ensures First(sectionSize, Confirmed(head, known) + 1) + confirmsReq > head + 1
    {
      var sections := Confirmed(head, known);
      SectionsMul(sections, 1);
      if head >= confirmsReq {
        var n := head + 1 - confirmsReq;
        var q := n / sectionSize;
        assert q * sectionSize + n % sectionSize == n;
        SectionsMul(q, sections - q);
      }
    }

    /** A new chain head, or the common ancestor of a reorganisation. */
    method NewHead(head: nat, reorg: bool)
      requires Valid()
      modifies this
      ensures Valid()
      ensures reorg ==>
                && storedSections == Least(head / sectionSize, old(storedSections))
                && knownSections == Least(head / sectionSize, old(knownSections))
      ensures !reorg ==> storedSections == old(storedSections) && knownSections == Confirmed(head, old(knownSections))
      ensures !reorg ==>
                && knownSections >= old(knownSections) && First(sectionSize, knownSections + 1) + confirmsReq > head + 1
                && (knownSections > old(knownSections) ==> First(sectionSize, knownSections) + confirmsReq <= head + 1)
      ensures worker == old(worker)
      ensures lowest == if reorg then Least(head / sectionSize, old(lowest)) else old(lowest)
      ensures forall s :: s in sheads <==> s in old(sheads) && s < storedSections
      ensures forall s :: s in sheads ==> sheads[s] == old(sheads)[s]
    {
      hide Sectioned, First;
      ConfirmedIsDeep(head, knownSections);
      forall s: nat ensures s in sheads <==> s < storedSections {
        HeadsOf(hashOf, sectionSize, sheads, storedSections, s);
      }
      if reorg {
        var changed := head / sectionSize;
        if changed < knownSections { knownSections := changed; }
        if changed < lowest { lowest := changed; }
        if changed < storedSections {
          SetValidSections(changed);
          forall s: nat ensures s in sheads <==> s < storedSections {
            HeadsOf(hashOf, sectionSize, sheads, storedSections, s);
          }
        }
        return;
      }
      if head >= confirmsReq {
        var sections := (head + 1 - confirmsReq) / sectionSize;
        if sections > knownSections { knownSections := sections; }
      }
    }

    /** The update loop takes up the first section not stored yet and drops the lock. */
    method StartSection()
      requires Valid() && worker.Idle?
      modifies this`worker, this`lowest
      ensures Valid() && (worker.Idle? <==> knownSections <= storedSections)
      ensures knownSections > storedSections ==>
                && worker == Reading(storedSections, HeadBefore(sheads, storedSections), HeadBefore(sheads, storedSections), [])
                && lowest == storedSections + 1
    {
      if knownSections > storedSections {
        HeadsOf(hashOf, sectionSize, sheads, storedSections, storedSections);
        var oldHead := HeadBefore(sheads, storedSections);
        worker := Reading(storedSections, oldHead, oldHead, []);
        lowest := storedSections + 1;
      }
    }

    /** The backend cannot be reset: everything is given up. */
    method ResetFails()
      requires Valid() && worker.Reading? && worker.run == []
      modifies this`storedSections, this`count, this`sheads, this`worker, this`lowest
      ensures Valid() && storedSections == 0 && worker.Finished? && worker.newHead == None
    {
      SetValidSections(0);
      lowest := 0;
      worker := Finished(worker.section, worker.oldHead, None, worker.run);
    }

    /**
     Read the next canonical header; the chain may have changed since the last
     read. A header not known, or not following on the last one, ends the work.
     */
    method ReadHeader(canonical: Hash, header: Option<Block>)
      requires Valid() && worker.Reading? && |worker.run| < sectionSize
      requires header.Some? ==>
                 && hashOf(header.value) == canonical
                 && header.value.number == First(sectionSize, worker.section) + |worker.run|
      modifies this`worker
      ensures Valid() && !worker.Idle? && worker.section == old(worker).section
      ensures worker.Reading? <==> header.Some? && header.value.parentHash == old(worker).lastHead
      ensures worker.oldHead == old(worker).oldHead
      ensures worker.Reading? ==> worker.run == old(worker).run + [header.value] && worker.lastHead == canonical
      ensures worker.Finished? ==> worker.newHead == None
    {
      var w := worker;
      if canonical == ZERO_HASH || header.None? || header.value.parentHash != w.lastHead {
        worker := Finished(w.section, w.oldHead, None, w.run);
      } else {
        LinkMore(hashOf, w.run, First(sectionSize, w.section), w.oldHead, w.lastHead, header.value);
        worker := Reading(w.section, w.oldHead, hashOf(header.value), w.run + [header.value]);
      }
    }

    /** All headers are read; the backend may still refuse to commit. */
    method CommitSection(ok: bool)
      requires Valid() && worker.Reading? && |worker.run| == sectionSize
      modifies this`worker
      ensures Valid() && worker.Finished? && worker.section == old(worker).section
      ensures worker.newHead == (if ok then Some(old(worker).lastHead) else None) && worker.oldHead == old(worker).oldHead
    {
      var w := worker;
      worker := Finished(w.section, w.oldHead, if ok then Some(w.lastHead) else None, w.run);
    }

    /**
     Back under the lock: the section is stored exactly when it was processed and
     no reorganisation meanwhile reached below it. That is the documented rule,
     no reorganisation at all down to the section, exactly unless the lowest one
     reached is the section itself.
     */
    method FinishSection() returns (stored: bool)
      requires Valid() && worker.Finished?
      modifies this
      ensures Valid() && worker.Idle?
      ensures stored <==> old(worker).newHead.Some? && old(lowest) >= old(worker).section
      ensures (stored <==> old(worker).newHead.Some? && old(lowest) > old(worker).section)
              <==> !(old(worker).newHead.Some? && old(lowest) == old(worker).section)
      ensures stored ==>
                && storedSections == old(worker).section + 1 && knownSections == old(knownSections)
                && sheads == old(sheads)[old(worker).section := old(worker).newHead.value]
      ensures !stored ==> storedSections == old(storedSections) == knownSections && sheads == old(sheads)
    {
      var w := worker;
      if w.newHead.Some? && w.oldHead == HeadBefore(sheads, w.section) {
        StoreOneMore(hashOf, sectionSize, sheads, w.section, w.newHead.value, w.run);
        worker := Idle;
        sheads := sheads[w.section := w.newHead.value];
        SetValidSections(w.section + 1);
        return true;
      }
      worker := Idle;
      knownSections := storedSections;
      return false;
    }
  }

  lemma TwoPerSection(indexer: ChainIndexer)
    requires indexer.sectionSize == 2 && indexer.confirmsReq == 0
    ensures indexer.Confirmed(1, 0) == 1 && 0 / indexer.sectionSize == 0 && First(indexer.sectionSize, 0) == 0
  {
    assert (1 + 1 - indexer.confirmsReq) / indexer.sectionSize == 2 / 2;
  }

  /** The first section of two headers has been read and committed, and waits for the lock. */
  method ReadFirst(hashOf: Block -> Hash, h0: Block, h1: Block) returns (indexer: ChainIndexer)
    requires Hashing(hashOf) && h0.number == 0 && h0.parentHash == ZERO_HASH && h1.number == 1 && h1.parentHash == hashOf(h0)
    ensures indexer.Valid() && fresh(indexer) && indexer.hashOf == hashOf
    ensures indexer.sectionSize == 2 && indexer.confirmsReq == 0
    ensures indexer.storedSections == 0 && indexer.sheads == map[]
    ensures indexer.worker.Finished? && indexer.worker.section == 0 && indexer.worker.newHead == Some(hashOf(h1))
  {
    hide Hashing, Linked, Sectioned, ChainIndexer.Valid;
    indexer := new ChainIndexer(hashOf, 2, 0);
    TwoPerSection(indexer);
    hide ChainIndexer.Confirmed, First;
    indexer.NewHead(1, false);
    indexer.StartSection();
    indexer.ReadHeader(hashOf(h0), Some(h0));
    indexer.ReadHeader(hashOf(h1), Some(h1));
    indexer.CommitSection(true);
  }

  /**
   Sections of two headers. Both headers of the first are read and committed,
   then a reorganisation replaces the second before the worker gets the lock:
   the section is stored all the same, with the head of the replaced header, and
   when the new header arrives no work is left to do.
   */
  method ReorgIsMissed(hashOf: Block -> Hash) returns (indexer: ChainIndexer, gone: Block)
    requires Hashing(hashOf)
    ensures indexer.Valid() && gone.number == 1 && indexer.storedSections == indexer.knownSections == 1
    ensures indexer.sheads == map[0 := hashOf(gone)] && indexer.worker.Idle?
  {
    hide Hashing, Linked, Sectioned, ChainIndexer.Valid;
    var h0 := Block(0, ZERO_HASH, 1, [], 0);
    gone := Block(1, hashOf(h0), 1, [], 0);
    indexer := ReadFirst(hashOf, h0, gone);
    TwoPerSection(indexer);
    hide ChainIndexer.Confirmed;
    indexer.NewHead(0, true);
    var stored := indexer.FinishSection();
    assert stored && indexer.storedSections > indexer.knownSections;
    indexer.NewHead(1, false);
    indexer.StartSection();
  }
}
