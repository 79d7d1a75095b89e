/**
 Star-node confirmations of core/blockchain.go: who confirmed a block is kept
 as one bit per node in a 64-bit word.
 */
module Confirmations {
  const WORD_BITS: nat := 64

  /** uint64(1) << i: from the word size on, the one is shifted out. */
  function Bit(i: nat): bv64 {
    if i < WORD_BITS then (1 as bv64) << (i as bv7) else 0
  }

  /** All bits of b are set in word. */
  predicate Covers(word: bv64, b: bv64) {
    b & word == b
  }

  predicate Has(word: bv64, i: nat) {
    Covers(word, Bit(i))
  }

  // ----- Facts about words -----

  lemma RoundTrip(i: nat)
    requires i < WORD_BITS
    ensures (i as bv7) as nat == i && (i as bv7) < 64
  {}

  lemma OneBit(a: bv7)
    requires a < 64
    ensures (1 as bv64) << a != 0
  {}

  lemma TwoBits(a: bv7, b: bv7)
    requires a < 64 && b < 64 && a != b
    ensures ((1 as bv64) << a) & ((1 as bv64) << b) == 0
  {}

  lemma OrSets(word: bv64, a: bv64)
    ensures Covers(word | a, a)
  {}

  lemma Zero(word: bv64)
    ensures 0 & word == 0 && word & 0 == 0 && word | 0 == word && 0 | word == word
  {}

  lemma BitIsNotZero(i: nat)
    requires i < WORD_BITS
    ensures Bit(i) != 0
  {
    RoundTrip(i);
    OneBit(i as bv7);
  }

  lemma BitsApart(i: nat, j: nat)
    requires i < WORD_BITS && j < WORD_BITS && i != j
    ensures Bit(i) & Bit(j) == 0
  {
    RoundTrip(i);
    RoundTrip(j);
    TwoBits(i as bv7, j as bv7);
  }

  lemma OrKeepsOthers(word: bv64, a: bv64, b: bv64)
    requires a & b == 0
    ensures b & (word | a) == b & word
  {}

  lemma OrOther(word: bv64, a: bv64, b: bv64)
    requires a & b == 0
    ensures Covers(word | a, b) <==> Covers(word, b)
  {
    OrKeepsOthers(word, a, b);
  }

  lemma SetSame(word: bv64, i: nat)
    ensures Has(word | Bit(i), i)
  {
    hide Bit, Covers;
    OrSets(word, Bit(i));
  }

  lemma SetOther(word: bv64, i: nat, j: nat)
    requires Bit(i) & Bit(j) == 0
    ensures Has(word | Bit(i), j) <==> Has(word, j)
  {
    hide Bit, Covers;
    OrOther(word, Bit(i), Bit(j));
  }

  lemma ShiftedOut(i: nat)
    requires i >= WORD_BITS
    ensures Bit(i) == 0
  {}

  /** Setting one bit changes that bit and no other. */
  lemma SetOne(word: bv64, i: nat, j: nat)
    requires j < WORD_BITS
    ensures Has(word | Bit(i), j) <==> Has(word, j) || i == j
  {
    hide Bit, Has;
    if i == j {
      SetSame(word, i);
    } else {
      assert Bit(i) & Bit(j) == 0 by {
        if i < WORD_BITS {
          BitsApart(i, j);
        } else {
          ShiftedOut(i);
          Zero(Bit(j));
        }
      }
      SetOther(word, i, j);
    }
  }

  lemma EmptyWord(j: nat)
    requires j < WORD_BITS
    ensures !Has(0, j)
  {
    BitIsNotZero(j);
    Zero(Bit(j));
  }

  /** The word is exactly the set of confirmers, as far as it reaches. */
  ghost predicate Records(word: bv64, who: set<nat>) {
    forall j: nat {:trigger Has(word, j)} :: j < WORD_BITS ==> (Has(word, j) <==> j in who)
  }

  lemma RecordOne(word: bv64, who: set<nat>, i: nat)
    requires Records(word, who)
    ensures Records(word | Bit(i), who + {i})
  {
    hide Has, Bit;
    forall j: nat | j < WORD_BITS ensures Has(word | Bit(i), j) <==> j in who + {i} {
      assert Has(word, j) <==> j in who;
      SetOne(word, i, j);
    }
  }

  lemma RecordFirst(i: nat)
    ensures Records(Bit(i), {i})
  {
    hide Has, Bit;
    forall j: nat | j < WORD_BITS ensures Has(0, j) <==> j in {} { EmptyWord(j); }
    RecordOne(0, {}, i);
    Zero(Bit(i));
    assert {} + {i} == {i};
  }

  /** Bits found set among the first n; beyond the word every test succeeds. */
  ghost function Counted(who: set<nat>, n: nat): set<nat> {
    set i: nat | i < n && (i in who || i >= WORD_BITS)
  }

  /** Those of the n nodes that confirmed. */
  ghost function Members(who: set<nat>, n: nat): set<nat> {
    set i: nat | i < n && i in who
  }

  lemma CountMore(who: set<nat>, n: nat)
    ensures |Counted(who, n + 1)| == |Counted(who, n)| + if n in who || n >= WORD_BITS then 1 else 0
  {
    assert Counted(who, n + 1) == Counted(who, n) + if n in who || n >= WORD_BITS then {n} else {};
  }

  lemma NoneCounted(who: set<nat>)
    ensures |Counted(who, 0)| == 0
  {
    assert Counted(who, 0) == {};
  }

  lemma TestBit(word: bv64, who: set<nat>, i: nat)
    requires Records(word, who)
    ensures Has(word, i) <==> i in who || i >= WORD_BITS
  {
    hide Bit;
    if i < WORD_BITS {
      assert Has(word, i) <==> i in who;
    } else {
      ShiftedOut(i);
      Zero(word);
    }
  }

  ghost predicate AllRecorded(flags: map<nat, bv64>, confirmers: map<nat, set<nat>>) {
    && flags.Keys == confirmers.Keys
    && forall h :: h in flags ==> Records(flags[h], confirmers[h]) && confirmers[h] != {}
  }

  lemma RecordMore(flags: map<nat, bv64>, confirmers: map<nat, set<nat>>, h: nat, word: bv64, who: set<nat>)
    requires AllRecorded(flags, confirmers) && Records(word, who) && who != {}
    ensures AllRecorded(flags[h := word], confirmers[h := who])
  {
    hide Records;
  }

  lemma Smaller(a: set<nat>, b: set<nat>, x: nat)
    requires a <= b && x in b && x !in a
    ensures |a| < |b|
  {
    assert b == a + (b - a);
    assert |b - a| > 0;
  }

  /** The count is the number of distinct confirmers exactly when every node has a bit or those without one confirmed. */
  lemma CountIsHonest(who: set<nat>, n: nat)
    requires forall i :: i in who ==> i < n
    ensures |Counted(who, n)| == |who| <==> n <= WORD_BITS || forall i :: WORD_BITS <= i < n ==> i in who
    ensures |Counted(who, n)| >= |who|
  {
    var all := Counted(who, n);
    assert who <= all;
    if exists i :: WORD_BITS <= i < n && i !in who {
      var i :| WORD_BITS <= i < n && i !in who;
      assert i in all;
      Smaller(who, all, i);
    } else {
      assert all == who;
    }
  }

  /** With a bit for every node, the count is that of the confirmers. */
  lemma AllMembers(who: set<nat>, n: nat)
    ensures n <= WORD_BITS ==> Counted(who, n) == Members(who, n)
  {}

  ghost function Upto(k: nat): (s: set<nat>)
    ensures |s| == k && forall i: nat :: i in s <==> i < k
  {
    if k == 0 then {} else Upto(k - 1) + {k - 1}
  }

  /** The count is what the word holds, and every node it has no bit for. */
  lemma {:induction false} CountIs(who: set<nat>, n: nat)
    ensures |Counted(who, n)|
         == |Members(who, if n < WORD_BITS then n else WORD_BITS)| + if n < WORD_BITS then 0 else n - WORD_BITS
  {
    if n <= WORD_BITS {
      AllMembers(who, n);
    } else {
      CountIs(who, n - 1);
      CountMore(who, n - 1);
    }
  }

  /** Two thirds of n, rounded down. */
  predicate Enough(count: nat, n: nat) {
    count >= n * 2 / 3
  }

  /** The decision is right for these confirmers. */
  ghost predicate Honest(who: set<nat>, n: nat) {
    Enough(|Counted(who, n)|, n) <==> Enough(|Members(who, n)|, n)
  }

  /** With more nodes, some confirmers are too few and yet enough. */
  lemma TooFew(n: nat) returns (who: set<nat>)
    requires n > WORD_BITS
    ensures who != {} && who <= Upto(n) && !Honest(who, n)
  {
    var least := n * 2 / 3;
    var k: nat := if least > n - WORD_BITS then least - (n - WORD_BITS) else 1;
    who := Upto(k);
    CountIs(who, n);
    assert Members(who, n) == who && Members(who, WORD_BITS) == who;
    assert 0 in who;
  }

  /** Whoever confirms, the decision is right: exactly for up to 64 nodes. */
  lemma DecisionIsHonest(n: nat)
    ensures (forall who: set<nat> {:trigger Honest(who, n)} :: who != {} && who <= Upto(n) ==> Honest(who, n))
            <==> n <= WORD_BITS
  {
    if n <= WORD_BITS {
      forall who: set<nat> ensures Honest(who, n) { AllMembers(who, n); }
    } else {
      var who := TooFew(n);
      assert !Honest(who, n);
    }
  }

  class Tracker {
    const nodeCount: nat
    var flags: map<nat, bv64>
    /** Who has confirmed each block. */
    ghost var confirmers: map<nat, set<nat>>

    ghost predicate Valid()
      reads this
    {
      AllRecorded(flags, confirmers)
    }

    ghost function Who(hash: nat): set<nat>
      reads this
    {
      if hash in confirmers then confirmers[hash] else {}
    }

    constructor (nodeCount: nat)
      ensures Valid() && this.nodeCount == nodeCount && confirmers == map[]
    {
      this.nodeCount, flags, confirmers := nodeCount, map[], map[];
    }

    /** The words are kept in memory only. */
    method Forget()
      modifies this
      ensures Valid() && confirmers == map[]
    {
      flags, confirmers := map[], map[];
    }

    /** Note a node's confirmation; index is negative for an unknown address. */
    method SetConsensusFlag(hash: nat, index: int)
      requires Valid()
      modifies this
      ensures Valid()
      ensures confirmers == if index < 0 then old(confirmers) else old(confirmers)[hash := old(Who(hash)) + {index}]
    {
      if index < 0 { return; }
      hide Bit, Has, Records;
      var v := Bit(index);
      ghost var who := Who(hash) + {index};
      if hash in flags {
        RecordOne(flags[hash], confirmers[hash], index);
        v := flags[hash] | v;
      } else {
        RecordFirst(index);
        assert who == {index};
      }
      RecordMore(flags, confirmers, hash, v, who);
      confirmers, flags := confirmers[hash := who], flags[hash := v];
    }

    /**
     Whether two thirds have confirmed, rounded down. With up to 64 nodes these
     are distinct confirmers; every further node counts without confirming.
     */
    method VerifyConsensusOK(hash: nat) returns (ok: bool)
      requires Valid()
      ensures ok <==> hash in confirmers && |Counted(confirmers[hash], nodeCount)| >= nodeCount * 2 / 3
      ensures nodeCount <= WORD_BITS ==>
                (ok <==> hash in confirmers && |Members(confirmers[hash], nodeCount)| >= nodeCount * 2 / 3)
    {
      if hash !in flags { return false; }
      AllMembers(confirmers[hash], nodeCount);
      hide Bit, Has, Records, Counted, Members;
      NoneCounted(confirmers[hash]);
      var flag := flags[hash];
      var count := 0;
      for i := 0 to nodeCount
        invariant count == |Counted(confirmers[hash], i)|
      {
        CountMore(confirmers[hash], i);
        TestBit(flag, confirmers[hash], i);
        if Has(flag, i) { count := count + 1; }
      }
      return count >= nodeCount * 2 / 3;
    }
  }

  /** Of 192 nodes, the first one alone has the two thirds. */
  method LoneConfirmer() returns (tracker: Tracker, ok: bool)
    ensures tracker.nodeCount == 192 && tracker.Who(5) == {0} && ok
  {
    tracker := new Tracker(192);
    tracker.SetConsensusFlag(5, 0);
    assert {} + {0} == {0};
    CountIs({0}, 192);
    assert Members({0}, WORD_BITS) == {0};
    ok := tracker.VerifyConsensusOK(5);
  }
}
