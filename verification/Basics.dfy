/** Notions several components share. */
module Basics {
  datatype Option<T> = None | Some(value: T)

  /** k * w, unfolding one step at a time. */
  function Times(k: nat, w: nat): nat {
    if k == 0 then 0 else Times(k - 1, w) + w
  }

  lemma {:induction false} TimesIsMul(k: nat, w: nat)
    ensures Times(k, w) == k * w
  {
    if k > 0 { TimesIsMul(k - 1, w); }
  }

  // ----- The sum of a map's values -----

  ghost function SumOf(m: map<nat, int>): int {
    if m == map[] then 0
    else
      var a :| a in m;
      m[a] + SumOf(m - {a})
  }

  function ValueOf(m: map<nat, int>, a: nat): int {
    if a in m then m[a] else 0
  }

  lemma SumUnfolds(m: map<nat, int>) returns (b: nat)
    requires m != map[]
    ensures b in m && SumOf(m) == m[b] + SumOf(m - {b})
  {
    b :| b in m && SumOf(m) == m[b] + SumOf(m - {b});
  }

  lemma WithoutOne(m: map<nat, int>, a: nat)
    requires a in m
    ensures |m - {a}| < |m|
  {
    assert m.Keys == (m - {a}).Keys + {a};
  }

  lemma WithoutTwo(m: map<nat, int>, a: nat, b: nat)
    ensures m - {a} - {b} == m - {b} - {a}
  {}

  /** Any key may be summed first. */
  lemma {:induction false} SumPick(m: map<nat, int>, a: nat)
    requires a in m
    ensures SumOf(m) == m[a] + SumOf(m - {a})
    decreases |m|
  {
    hide SumOf;
    var b := SumUnfolds(m);
    if b != a {
      WithoutOne(m, a);
      WithoutOne(m, b);
      SumPick(m - {b}, a);
      SumPick(m - {a}, b);
      WithoutTwo(m, a, b);
    }
  }

  /** Changing one value changes the sum by the difference. */
  lemma SumUpdate(m: map<nat, int>, a: nat, v: int)
    ensures SumOf(m[a := v]) == SumOf(m) - ValueOf(m, a) + v
    ensures SumOf(m - {a}) == SumOf(m) - ValueOf(m, a)
  {
    hide SumOf;
    SumPick(m[a := v], a);
    assert m[a := v] - {a} == m - {a};
    if a in m { SumPick(m, a); } else { assert m - {a} == m; }
  }

  lemma SumOfNone()
    ensures SumOf(map[]) == 0
  {}

  lemma {:induction false} SumIsNat(m: map<nat, int>)
    requires forall a :: a in m ==> m[a] >= 0
    ensures SumOf(m) >= 0
    decreases |m|
  {
    hide SumOf;
    if m == map[] {
      SumOfNone();
    } else {
      var b := SumUnfolds(m);
      WithoutOne(m, b);
      SumIsNat(m - {b});
    }
  }
}
