/**
 Hyperperiod arithmetic: Euclid's algorithm, the checked LCM of the Rust orchestrator and the
 wrapping LCM of the C++ orchestrator, all measured against the least common multiple.
 Numbers are unbounded; the 64-bit limit appears as U64.
 */
module HyperperiodMath {
  import opened Wrappers

  const U64: nat := 0x1_0000_0000_0000_0000

  datatype HyperperiodError =
    | NoValidPeriods
    | Overflow(a: nat, b: nat)
    | TooLarge(valueUs: nat, limitUs: nat)

  // ----- divisibility

  predicate Divides(d: nat, n: int)
  {
    d != 0 && n % d == 0
  }

  lemma MultipleIsDivisible(d: nat, k: int)
    requires d > 0
    ensures (k * d) % d == 0 && (k * d) / d == k
  {
    var q, r := (k * d) / d, (k * d) % d;
    assert k * d == d * q + r;
    var e := k - q;
    assert e * d == r;
    assert e >= 1 ==> e * d >= d;
    assert e <= -1 ==> e * d <= (-1) * d;
  }

  lemma DividesFromFactor(d: nat, n: int, k: int)
    requires d > 0 && n == k * d
    ensures Divides(d, n)
  {
    MultipleIsDivisible(d, k);
  }

  lemma DividesTransitive(a: nat, b: nat, c: int)
    requires Divides(a, b) && Divides(b, c)
    ensures Divides(a, c)
  {
    var k, l := b / a, c / b;
    assert b == a * k && c == b * l;
    assert c == (k * l) * a;
    DividesFromFactor(a, c, k * l);
  }

  lemma DividesCombination(d: nat, m: int, n: int, x: int, y: int)
    requires Divides(d, m) && Divides(d, n)
    ensures Divides(d, x * m + y * n)
  {
    var k, l := m / d, n / d;
    assert m == d * k && n == d * l;
    assert x * m + y * n == (x * k + y * l) * d by {
      assert x * m == (x * k) * d;
      assert y * n == (y * l) * d;
    }
    DividesFromFactor(d, x * m + y * n, x * k + y * l);
  }

  lemma DividesBounds(d: nat, n: nat)
    requires Divides(d, n) && n > 0
    ensures d <= n
  {
  }

  lemma DividesAntisymmetric(a: nat, b: nat)
    requires Divides(a, b) && Divides(b, a)
    ensures a == b
  {
  }

  // ----- greatest common divisor

  function Gcd(a: nat, b: nat): nat
    decreases b
  {
    if b == 0 then a else Gcd(b, a % b)
  }

  /** Euclid's loop. gcd(0, 0) is 0; with one zero argument the result is the other argument. */
  method EuclidGcd(a0: nat, b0: nat) returns (g: nat)
    ensures g == Gcd(a0, b0)
    ensures g == 0 <==> a0 == 0 && b0 == 0
    ensures g != 0 ==> Divides(g, a0) && Divides(g, b0)
    ensures forall c: nat :: Divides(c, a0) && Divides(c, b0) ==> Divides(c, g)
  {
    var a, b := a0, b0;
    while b != 0
      invariant Gcd(a, b) == Gcd(a0, b0)
      decreases b
    {
      var t := b;
      b := a % b;
      a := t;
    }
    g := a;
    if a0 != 0 || b0 != 0 {
      GcdDividesBoth(a0, b0);
    }
    forall c: nat | Divides(c, a0) && Divides(c, b0) ensures Divides(c, g) {
      GcdIsGreatest(a0, b0, c);
    }
  }

  lemma {:induction false} GcdDividesBoth(a: nat, b: nat)
    requires a != 0 || b != 0
    ensures Gcd(a, b) > 0 && Divides(Gcd(a, b), a) && Divides(Gcd(a, b), b)
    decreases b
  {
    if b != 0 {
      GcdDividesBoth(b, a % b);
      DividesCombination(Gcd(a, b), b, a % b, a / b, 1);
      assert (a / b) * b + 1 * (a % b) == a;
    }
  }

  /** Bezout: the gcd is an integer combination of its arguments. */
  lemma {:induction false} GcdIsCombination(a: nat, b: nat) returns (x: int, y: int)
    ensures x * a + y * b == Gcd(a, b)
    decreases b
  {
    if b == 0 {
      x, y := 1, 0;
    } else {
      var u, v := GcdIsCombination(b, a % b);
      x, y := v, u - v * (a / b);
      assert a % b == a - (a / b) * b;
      assert v * (a % b) == v * a - (v * (a / b)) * b;
      assert (u - v * (a / b)) * b == u * b - (v * (a / b)) * b;
    }
  }

  lemma GcdIsGreatest(a: nat, b: nat, c: nat)
    requires Divides(c, a) && Divides(c, b)
    ensures Divides(c, Gcd(a, b))
  {
    var x, y := GcdIsCombination(a, b);
    DividesCombination(c, a, b, x, y);
  }

  // ----- least common multiple of two numbers

  function ExactLcm(a: nat, b: nat): nat
  {
    if a == 0 || b == 0 then 0 else
      GcdDividesBoth(a, b);
      (a / Gcd(a, b)) * b
  }

  lemma LcmIsCommonMultiple(a: nat, b: nat)
    requires a > 0 && b > 0
    ensures ExactLcm(a, b) > 0 && Divides(a, ExactLcm(a, b)) && Divides(b, ExactLcm(a, b))
  {
    GcdDividesBoth(a, b);
    var g := Gcd(a, b);
    var k, l := a / g, b / g;
    assert a == g * k && b == g * l;
    assert k > 0 && k * b > 0;
    assert k * b == l * a;
    DividesFromFactor(a, k * b, l);
    DividesFromFactor(b, k * b, k);
  }

  lemma LcmDividesCommonMultiples(a: nat, b: nat, m: nat)
    requires Divides(a, m) && Divides(b, m)
    ensures ExactLcm(a, b) > 0 && Divides(ExactLcm(a, b), m)
  {
    LcmIsCommonMultiple(a, b);
    GcdDividesBoth(a, b);
    var g := Gcd(a, b);
    var x, y := GcdIsCombination(a, b);
    BezoutQuotient(a, b, m, g, x, y);
    DividesFromFactor(ExactLcm(a, b), m, x * (m / b) + y * (m / a));
  }

  /** Multiplying x*a + y*b == g by m and cancelling g exhibits m as a multiple of (a / g) * b. */
  lemma BezoutQuotient(a: nat, b: nat, m: nat, g: nat, x: int, y: int)
    requires Divides(a, m) && Divides(b, m) && Divides(g, a) && x * a + y * b == g
    ensures m == (x * (m / b) + y * (m / a)) * ((a / g) * b)
  {
  }

  // ----- least common multiple of a list

  ghost predicate CommonMultiple(m: nat, ps: seq<nat>)
  {
    forall i :: 0 <= i < |ps| ==> Divides(ps[i], m)
  }

  /** l is the least common multiple of ps in the strong sense: it divides all the others. */
  ghost predicate IsLcm(l: nat, ps: seq<nat>)
  {
    l > 0 && CommonMultiple(l, ps) && forall m: nat :: CommonMultiple(m, ps) ==> Divides(l, m)
  }

  predicate Positive(ps: seq<nat>)
  {
    forall i :: 0 <= i < |ps| ==> ps[i] > 0
  }

  /** The least common multiple computed without any width limit. */
  function ListLcm(ps: seq<nat>): nat
  {
    if ps == [] then 1 else ExactLcm(ListLcm(ps[..|ps| - 1]), ps[|ps| - 1])
  }

  lemma {:induction false} ListLcmIsLcm(ps: seq<nat>)
    requires Positive(ps)
    ensures IsLcm(ListLcm(ps), ps)
  {
    if ps != [] {
      var init, p := ps[..|ps| - 1], ps[|ps| - 1];
      ListLcmIsLcm(init);
      var l0, l := ListLcm(init), ListLcm(ps);
      LcmIsCommonMultiple(l0, p);
      forall i | 0 <= i < |ps| ensures Divides(ps[i], l) {
        if i < |ps| - 1 {
          assert Divides(init[i], l0);
          DividesTransitive(ps[i], l0, l);
        }
      }
      forall m: nat | CommonMultiple(m, ps) ensures Divides(l, m) {
        assert CommonMultiple(m, init);
        LcmDividesCommonMultiples(l0, p, m);
      }
    }
  }

  lemma LcmIsUnique(k: nat, l: nat, ps: seq<nat>, qs: seq<nat>)
    requires IsLcm(k, ps) && IsLcm(l, qs)
    requires forall p :: p in ps <==> p in qs
    ensures k == l
  {
    assert CommonMultiple(k, qs) by {
      forall i | 0 <= i < |qs| ensures Divides(qs[i], k) { assert qs[i] in ps; }
    }
    assert CommonMultiple(l, ps) by {
      forall i | 0 <= i < |ps| ensures Divides(ps[i], l) { assert ps[i] in qs; }
    }
    DividesAntisymmetric(k, l);
  }

  /** Neither the order nor the repetition of periods matters, so sorting and deduplicating is harmless. */
  lemma OrderAndDuplicatesIrrelevant(ps: seq<nat>, qs: seq<nat>)
    requires Positive(ps)
    requires forall p :: p in ps <==> p in qs
    ensures ListLcm(ps) == ListLcm(qs)
  {
    forall i | 0 <= i < |qs| ensures qs[i] > 0 { assert qs[i] in ps; }
    ListLcmIsLcm(ps);
    ListLcmIsLcm(qs);
    LcmIsUnique(ListLcm(ps), ListLcm(qs), ps, qs);
  }

  lemma PrefixLcmIsSmaller(ps: seq<nat>, n: nat)
    requires Positive(ps) && n <= |ps|
    ensures 0 < ListLcm(ps[..n]) <= ListLcm(ps)
  {
    ListLcmIsLcm(ps[..n]);
    ListLcmIsLcm(ps);
    forall i | 0 <= i < n ensures Divides(ps[..n][i], ListLcm(ps)) { assert ps[..n][i] == ps[i]; }
    DividesBounds(ListLcm(ps[..n]), ListLcm(ps));
  }

  // ----- the Rust form: checked multiplication, left fold that stops at the first overflow

  function CheckedLcm(a: nat, b: nat): Result<nat, HyperperiodError>
  {
    if a == 0 || b == 0 then Ok(0) else
      GcdDividesBoth(a, b);
      var reduced := a / Gcd(a, b);
      if reduced * b < U64 then Ok(reduced * b) else Err(Overflow(a, b))
  }

  function TryFoldLcm(acc: nat, ps: seq<nat>): Result<nat, HyperperiodError>
  {
    if ps == [] then Ok(acc) else
      match TryFoldLcm(acc, ps[..|ps| - 1])
      case Err(e) => Err(e)
      case Ok(l) => CheckedLcm(l, ps[|ps| - 1])
  }

  function LcmOfSlice(ps: seq<nat>): Result<nat, HyperperiodError>
  {
    TryFoldLcm(if ps == [] then 0 else ps[0], ps)
  }

  lemma LcmOfOneAndOfEqual(p: nat)
    requires p > 0
    ensures ExactLcm(1, p) == p && ExactLcm(p, p) == p
  {
    GcdDividesBoth(1, p);
    DividesBounds(Gcd(1, p), 1);
    assert Gcd(p, p) == Gcd(p, p % p) == p;
    assert p / p == 1;
  }

  lemma {:induction false} FoldMatchesExactLcm(ps: seq<nat>, n: nat)
    requires Positive(ps) && 1 <= n <= |ps| && ListLcm(ps[..n]) < U64
    ensures TryFoldLcm(ps[0], ps[..n]) == Ok(ListLcm(ps[..n]))
  {
    LcmOfOneAndOfEqual(ps[0]);
    var init := ps[..n][..n - 1];
    assert init == ps[..n - 1];
    if n == 1 {
      assert TryFoldLcm(ps[0], init) == Ok(ps[0]);
      assert ListLcm(init) == 1;
    } else {
      PrefixLcmIsSmaller(ps[..n], n - 1);
      FoldMatchesExactLcm(ps, n - 1);
    }
  }

  /** A fold that overflows stops at the first prefix whose LCM no longer fits, and names it. */
  lemma {:induction false} FoldStopsAtFirstOverflow(ps: seq<nat>, n: nat) returns (k: nat)
    requires Positive(ps) && 1 <= n <= |ps| && ps[0] < U64 <= ListLcm(ps[..n])
    ensures 1 <= k < n && ListLcm(ps[..k]) < U64 <= ListLcm(ps[..k + 1])
    ensures TryFoldLcm(ps[0], ps[..n]) == Err(Overflow(ListLcm(ps[..k]), ps[k]))
  {
    LcmOfOneAndOfEqual(ps[0]);
    assert ps[..1][..0] == [];
    assert ListLcm(ps[..1]) == ExactLcm(1, ps[0]);
    assert ps[..n][..n - 1] == ps[..n - 1];
    if ListLcm(ps[..n - 1]) >= U64 {
      k := FoldStopsAtFirstOverflow(ps, n - 1);
    } else {
      k := n - 1;
      FoldMatchesExactLcm(ps, n - 1);
      PrefixLcmIsSmaller(ps, n - 1);
    }
  }

  /** lcm_of_slice is exact: the true LCM when it fits in 64 bits, and an overflow report exactly
      when it does not, carrying the LCM of the longest prefix that fits and the period that breaks it. */
  lemma LcmOfSliceIsExact(ps: seq<nat>)
    requires ps != [] && Positive(ps) && forall i :: 0 <= i < |ps| ==> ps[i] < U64
    ensures IsLcm(ListLcm(ps), ps)
    ensures ListLcm(ps) < U64 ==> LcmOfSlice(ps) == Ok(ListLcm(ps))
    ensures ListLcm(ps) >= U64 ==>
      exists k | 1 <= k < |ps| ::
        ListLcm(ps[..k]) < U64 <= ListLcm(ps[..k + 1]) && LcmOfSlice(ps) == Err(Overflow(ListLcm(ps[..k]), ps[k]))
  {
    ListLcmIsLcm(ps);
    assert ps[..|ps|] == ps;
    if ListLcm(ps) < U64 {
      FoldMatchesExactLcm(ps, |ps|);
    } else {
      var k := FoldStopsAtFirstOverflow(ps, |ps|);
    }
  }

  // ----- the C++ form: 64-bit multiplication wraps silently

  method WrappingLcm(a: nat, b: nat) returns (l: nat)
    ensures l == ExactLcm(a, b) % U64
  {
    if a == 0 || b == 0 {
      return 0;
    }
    var g := EuclidGcd(a, b);
    return (a / g) * b % U64;
  }

  /** The unchecked loop: it yields the least common multiple exactly when that fits in 64 bits. */
  method CalculateLcm(periods: seq<nat>) returns (result: nat)
    requires forall i :: 0 <= i < |periods| ==> periods[i] < U64
    ensures periods == [] ==> result == 0
    ensures result < U64
    ensures periods != [] && Positive(periods) ==>
      (IsLcm(result, periods) <==> ListLcm(periods) < U64) &&
      (ListLcm(periods) < U64 ==> result == ListLcm(periods))
  {
    if periods == [] {
      return 0;
    }
    result := periods[0];
    assert periods[..1][..0] == [];
    assert ListLcm(periods[..1]) == ExactLcm(1, periods[0]);
    if periods[0] > 0 { LcmOfOneAndOfEqual(periods[0]); }
    for i := 1 to |periods|
      invariant result < U64
      invariant Positive(periods) && ListLcm(periods) < U64 ==> result == ListLcm(periods[..i])
    {
      if Positive(periods) {
        PrefixLcmIsSmaller(periods, i + 1);
        assert periods[..i + 1][..i] == periods[..i];
      }
      result := WrappingLcm(result, periods[i]);
    }
    assert periods[..|periods|] == periods;
    if Positive(periods) {
      ListLcmIsLcm(periods);
      if IsLcm(result, periods) {
        LcmIsUnique(result, ListLcm(periods), periods, periods);
      }
    }
  }
}
