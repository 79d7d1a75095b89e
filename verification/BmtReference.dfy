/**
 The binary Merkle tree hash of a chunk, twice: as the recursive reference
 hasher computes it over byte spans (bmt/bmt_r.go), and as the hash of a tree
 of double segments, which is the shape the concurrent hasher works on.
 The base hash is an arbitrary function of byte strings; nothing about it,
 not even the length of its result, is assumed.
 */
module BmtReference {

  newtype byte = x: int | 0 <= x < 256
  type Bytes = seq<byte>
  type BaseHash = Bytes -> Bytes

  function Pow2(n: nat): (p: nat)
    ensures p > 0
  {
    if n == 0 then 1 else 2 * Pow2(n - 1)
  }

  lemma {:induction false} Pow2Mono(a: nat, b: nat)
    requires a <= b
    ensures Pow2(a) <= Pow2(b)
    decreases b
  {
    if a < b { Pow2Mono(a, b - 1); }
  }

  // ----- The reference hasher -----

  /** `for ; s >= l; s /= 2 {}` */
  function ShrinkSpan(s: nat, l: nat): (r: nat)
    requires s > 0 && l > 1
    ensures 0 < r < l
    ensures s < l ==> r == s
  {
    if s >= l then ShrinkSpan(s / 2, l) else s
  }

  function RefHash(H: BaseHash, size: nat, d: Bytes, s: nat): Bytes
    requires size > 0 && s > 0
    decreases |d|
  {
    if |d| > 2 * size then
      var span := ShrinkSpan(s, |d|);
      var left := RefHash(H, size, d[..span], span);
      var rest := d[span..];
      var right := if |d| - span > size then RefHash(H, size, rest, span) else rest;
      H(left + right)
    else
      H(d)
  }

  /** The span in segments that NewRefHasher picks for a segment count. */
  function Span(count: nat): (c: nat)
    ensures c > 0
  {
    var c := DoubleUntil(2, count);
    if c > 2 then c / 2 else c
  }

  function DoubleUntil(c: nat, count: nat): (r: nat)
    requires c > 0
    ensures r >= c && r >= count
    decreases count - c
  {
    if c < count then DoubleUntil(2 * c, count) else c
  }

  method NewRefSpan(count: nat) returns (c: nat)
    ensures c == Span(count)
  {
    c := 2;
    while c < count
      invariant c >= 2 && DoubleUntil(c, count) == DoubleUntil(2, count)
      decreases count - c
    {
      c := c * 2;
    }
    if c > 2 { c := c / 2; }
  }

  lemma {:induction false} DoubleUntilIsPow2(e: nat, count: nat) returns (f: nat)
    ensures f >= e && DoubleUntil(Pow2(e), count) == Pow2(f)
    ensures f > e ==> Pow2(f - 1) < count
    decreases count - Pow2(e)
  {
    if Pow2(e) < count {
      assert Pow2(e + 1) == 2 * Pow2(e);
      f := DoubleUntilIsPow2(e + 1, count);
    } else {
      f := e;
    }
  }

  /** The span covers half of every chunk that is longer than one double segment. */
  lemma SpanIsPow2(count: nat) returns (e: nat)
    ensures e >= 1 && Span(count) == Pow2(e)
    ensures count <= 2 * Pow2(e)
  {
    assert Pow2(1) == 2 * Pow2(0) == 2;
    var f := DoubleUntilIsPow2(1, count);
    if f > 1 {
      assert Pow2(f) == 2 * Pow2(f - 1);
      Pow2Mono(1, f - 1);
      e := f - 1;
    } else {
      e := 1;
    }
  }

  lemma MulMono(a: nat, b: nat, size: nat)
    requires a <= b
    ensures size * a <= size * b
  {}

  function Truncate(d: Bytes, cap: nat): Bytes {
    if |d| > cap then d[..cap] else d
  }

  /** Nothing is lost up to the capacity, and exactly what is beyond it above. */
  lemma WholeChunk(d: Bytes, cap: nat)
    ensures |d| <= cap ==> Truncate(d, cap) == d
    ensures |d| >= cap ==> Truncate(d, cap) == d[..cap]
  {
    assert d[..|d|] == d;
  }

  /** RefHasher.Hash. */
  function Reference(H: BaseHash, size: nat, count: nat, d: Bytes): Bytes
    requires size > 0 && count > 0
  {
    assert Span(count) * size > 0;
    RefHash(H, size, Truncate(d, size * count), Span(count) * size)
  }

  // ----- The same hash, by tree height -----

  /** size * 2^e bytes: a node of height h covers Doubled(size, h + 1) of them. */
  function Doubled(size: nat, e: nat): (w: nat)
    ensures w >= size
  {
    if e == 0 then size else 2 * Doubled(size, e - 1)
  }

  lemma {:induction false} DoubledIsPow2(size: nat, e: nat)
    ensures Doubled(size, e) == Pow2(e) * size
  {
    if e > 0 { DoubledIsPow2(size, e - 1); }
  }

  lemma {:induction false} DoubledMono(size: nat, a: nat, b: nat)
    requires a <= b
    ensures Doubled(size, a) <= Doubled(size, b)
    ensures a < b ==> 2 * Doubled(size, a) <= Doubled(size, b)
    decreases b
  {
    if a < b { DoubledMono(size, a, b - 1); }
  }

  /** The value a node of height h hands to its parent when d is the data below it. */
  function TreeHash(H: BaseHash, size: nat, h: nat, d: Bytes): Bytes
    decreases h
  {
    if h == 0 then
      if |d| > size then H(d) else d
    else
      var half := Doubled(size, h);
      if |d| <= half then TreeHash(H, size, h - 1, d)
      else H(TreeHash(H, size, h - 1, d[..half]) + TreeHash(H, size, h - 1, d[half..]))
  }

  lemma {:induction false} ShortPassesThrough(H: BaseHash, size: nat, h: nat, d: Bytes)
    requires |d| <= size
    ensures TreeHash(H, size, h, d) == d
  {
    if h > 0 { ShortPassesThrough(H, size, h - 1, d); }
  }

  /** Halving the span stops at the largest one below the length. */
  lemma {:induction false} ShrinkStopsAtHalf(size: nat, e: nat, h: nat, l: nat)
    requires size > 0 && h <= e && l > 1
    requires Doubled(size, h) < l <= 2 * Doubled(size, h)
    ensures ShrinkSpan(Doubled(size, e), l) == Doubled(size, h)
    decreases e
  {
    if e > h {
      DoubledMono(size, h, e);
      ShrinkStopsAtHalf(size, e - 1, h, l);
    }
  }

  lemma RefShort(H: BaseHash, size: nat, d: Bytes, s: nat)
    requires size > 0 && s > 0 && |d| <= 2 * size
    ensures RefHash(H, size, d, s) == H(d)
  {}

  /** A chunk longer than half a node splits at the node's middle. */
  lemma RefSplits(H: BaseHash, size: nat, h: nat, e: nat, d: Bytes)
    requires size > 0 && h > 0 && Doubled(size, h) < |d| <= Doubled(size, h + 1)
    requires |d| <= Doubled(size, e + 1)
    ensures var half := Doubled(size, h);
            var r := d[half..];
            RefHash(H, size, d, Doubled(size, e))
            == H(RefHash(H, size, d[..half], half) + if |r| > size then RefHash(H, size, r, half) else r)
  {
    assert h <= e by { if e < h { DoubledMono(size, e + 1, h); } }
    DoubledMono(size, 0, h);
    ShrinkStopsAtHalf(size, e, h, |d|);
  }

  /** The reference hash of a slice is the value of any tree node that covers it. */
  lemma {:induction false} RefIsTreeHash(H: BaseHash, size: nat, h: nat, e: nat, d: Bytes)
    requires size > 0 && size < |d| <= Doubled(size, h + 1)
    requires |d| <= Doubled(size, e + 1)
    ensures RefHash(H, size, d, Doubled(size, e)) == TreeHash(H, size, h, d)
    decreases h
  {
    hide RefHash;
    var half := Doubled(size, h);
    if h == 0 {
      RefShort(H, size, d, Doubled(size, e));
    } else if |d| <= half {
      RefIsTreeHash(H, size, h - 1, e, d);
    } else {
      RefSplits(H, size, h, e, d);
      RefIsTreeHash(H, size, h - 1, h, d[..half]);
      var r := d[half..];
      if |r| > size {
        RefIsTreeHash(H, size, h - 1, h, r);
      } else {
        ShortPassesThrough(H, size, h - 1, r);
      }
    }
  }
}
