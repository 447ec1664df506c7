/** The simplified E-model of core-go/qos.go over the reals: R factor, MOS, and their order in jitter and loss. */
module Mos {
  function Clamp(r: real): (c: real)
    ensures 0.0 <= c <= 100.0
    ensures 0.0 <= r <= 100.0 ==> c == r
  {
    if r < 0.0 then 0.0 else if r > 100.0 then 100.0 else r
  }

  /** The R factor before it is clamped. */
  function RawR(jitterMs: real, lossPct: real): real {
    93.0 - jitterMs / 10.0 - lossPct * 2.5
  }

  /** The cubic of Annex B of ITU-T G.107. */
  function Cubic(r: real): real {
    1.0 + 0.035 * r + r * (r - 60.0) * (100.0 - r) * 0.000007
  }

  function MosOf(r: real): real {
    if r < 6.5 then 1.0 else if r > 100.0 then 4.5 else Cubic(r)
  }

  /** Rounding to the nearest integer, halves away from zero. */
  function Round(x: real): int {
    if x >= 0.0 then (x + 0.5).Floor else -((0.5 - x).Floor)
  }

  function MosX10(jitterMs: real, lossPct: real): int {
    Round(MosOf(Clamp(RawR(jitterMs, lossPct))) * 10.0)
  }

  /** Conversion to int truncates; what is left here is not negative. */
  function RFactor(jitterMs: real, lossPct: real): int {
    var r := RawR(jitterMs, lossPct);
    if r < 0.0 then 0 else if r > 100.0 then 100 else r.Floor
  }

  // ----- the cubic rises on [6.5, 100] -----

  /** (b - a) times this is the rise of the cubic, scaled. */
  function Slope(a: real, b: real): real {
    160.0 * (a + b) - 1000.0 - (a * a + a * b + b * b)
  }

  lemma Product(x: real, y: real)
    requires x >= 0.0 && y >= 0.0
    ensures x * y >= 0.0
  {
  }

  lemma SquareBound(x: real)
    requires 6.5 <= x <= 100.0
    ensures x * x <= 106.5 * x - 650.0
  {
    Product(x - 6.5, 100.0 - x);
    assert (x - 6.5) * (100.0 - x) == 106.5 * x - 650.0 - x * x;
  }

  lemma SlopePositive(a: real, b: real)
    requires 6.5 <= a <= 100.0 && 6.5 <= b <= 100.0
    ensures Slope(a, b) >= 0.0
  {
    SquareBound(a);
    SquareBound(b);
    if a >= b {
      Product(a - b, a - b);
    } else {
      Product(b - a, b - a);
    }
    assert (a - b) * (a - b) == a * a - 2.0 * (a * b) + b * b;
  }

  lemma CubicRises(a: real, b: real)
    requires 6.5 <= a <= b <= 100.0
    ensures Cubic(a) <= Cubic(b)
  {
    SlopePositive(a, b);
    Product(b - a, Slope(a, b));
  }

  // ----- rounding hides the dip at 6.5 -----

  /** Just above 6.5 the MOS is a little below one, which rounding to tenths does not show. */
  lemma TenthsMonotone(a: real, b: real)
    requires 0.0 <= a <= b <= 100.0
    ensures 10 <= Round(MosOf(a) * 10.0) <= Round(MosOf(b) * 10.0)
  {
    assert Cubic(6.5) == 0.999897625;
    assert Round(10.0) == 10 && Round(9.99897625) == 10;
    if b >= 6.5 {
      CubicRises(6.5, b);
      if a >= 6.5 {
        CubicRises(6.5, a);
        CubicRises(a, b);
      }
    }
  }

  /** The zeros of this quadratic are the factors at which the cubic is one: 6.52 and 153.48, rounded. */
  function Excess(r: real): real {
    r * r - 160.0 * r + 1000.0
  }

  lemma CubicBelowOne(r: real)
    requires 0.0 < r
    ensures Cubic(r) < 1.0 <==> Excess(r) > 0.0
  {
    assert Cubic(r) == 1.0 - 0.000007 * r * Excess(r);
    if Excess(r) > 0.0 {
      Product(r, Excess(r));
    } else {
      Product(r, -Excess(r));
    }
  }

  /**
   Without the rounding the order holds exactly where it does not compare a factor below 6.5, scored one, with one
   from 6.5 on whose cubic is still below one.
   */
  lemma MosOrderExact(a: real, b: real)
    requires 0.0 <= a <= b <= 100.0
    ensures MosOf(a) <= MosOf(b) <==> !(a < 6.5 <= b && Excess(b) > 0.0)
  {
    if b >= 6.5 {
      CubicBelowOne(b);
      if a >= 6.5 {
        CubicRises(a, b);
      }
    }
  }

  /** Less jitter with the smaller MOS: 866 milliseconds score one, 865 score less. */
  lemma MosDips()
    ensures MosOf(Clamp(RawR(866.0, 0.0))) == 1.0 > MosOf(Clamp(RawR(865.0, 0.0)))
  {
    assert RawR(866.0, 0.0) == 6.4 && RawR(865.0, 0.0) == 6.5;
    MosOrderExact(6.4, 6.5);
  }

  // ----- the scale -----

  /** One per cent of loss costs as much as 25 milliseconds of jitter, and both together cost what each costs. */
  lemma LossAgainstJitter(j: real, l: real, d: real)
    ensures MosX10(j + 25.0 * d, l) == MosX10(j, l + d) && RFactor(j + 25.0 * d, l) == RFactor(j, l + d)
  {
    assert RawR(j + 25.0 * d, l) == RawR(j, l + d);
  }

  /** The R factor is 93 less a tenth of the jitter in milliseconds and five halves of the loss in per cent, rounded down. */
  lemma FactorIs(j: real, l: real, f: nat)
    requires f < 100
    ensures RFactor(j, l) == f <==>
      if f == 0 then 93.0 - j / 10.0 - 5.0 * l / 2.0 < 1.0
      else f as real <= 93.0 - j / 10.0 - 5.0 * l / 2.0 < f as real + 1.0
  {
    assert RawR(j, l) == 93.0 - j / 10.0 - 5.0 * l / 2.0;
    if 0.0 <= RawR(j, l) <= 100.0 && RawR(j, l).Floor != f {
      assert RawR(j, l).Floor as real <= RawR(j, l) < RawR(j, l).Floor as real + 1.0;
    }
  }

  /** Scores at loss and jitter that a call may have, in tenths. */
  lemma Scores()
    ensures MosX10(0.0, 0.0) == 44 && MosX10(0.0, 10.0) == 35 && MosX10(30.0, 2.0) == 42
    ensures MosX10(100.0, 20.0) == 17 && MosX10(0.0, 40.0) == 10
  {
    assert RawR(0.0, 0.0) == 93.0 && Cubic(93.0) == 4.405381;
    assert RawR(0.0, 10.0) == 68.0 && Cubic(68.0) == 3.501856;
    assert RawR(30.0, 2.0) == 85.0 && Cubic(85.0) == 4.198125;
    assert RawR(100.0, 20.0) == 33.0 && Cubic(33.0) == 1.737121;
    assert RawR(0.0, 40.0) == -7.0;
    assert Round(44.05381) == 44 && Round(35.01856) == 35 && Round(41.98125) == 42 && Round(17.37121) == 17;
    assert Round(10.0) == 10;
  }

  // ----- order in jitter and loss -----

  /** Worse jitter and worse loss never give a better MOS; for loss and jitter of zero or more it lies in [10, 44]. */
  lemma MosOrder(j: real, l: real, jj: real, ll: real)
    requires j <= jj && l <= ll
    ensures 10 <= MosX10(jj, ll) <= MosX10(j, l)
    ensures 0.0 <= j && 0.0 <= l ==> MosX10(j, l) <= 44
  {
    TenthsMonotone(Clamp(RawR(jj, ll)), Clamp(RawR(j, l)));
    if 0.0 <= j && 0.0 <= l {
      TenthsMonotone(Clamp(RawR(j, l)), 93.0);
      assert Cubic(93.0) == 4.405381;
    }
  }

  lemma FactorOrder(j: real, l: real, jj: real, ll: real)
    requires j <= jj && l <= ll
    ensures 0 <= RFactor(jj, ll) <= RFactor(j, l) <= 100
  {
  }
}
