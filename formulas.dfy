/**
 * The closed-form electrical formulas of the cable calculator: load current
 * from power for single- and three-phase supplies, and the percentage
 * voltage drop along a run. Arithmetic is exact (`real`); the square root of 3
 * is passed in as a value `s` that the caller must show satisfies IsSqrt3.
 */
module Formulas {

  /** `s` is the positive square root of 3. */
  predicate IsSqrt3(s: real) {
    s > 0.0 && s * s == 3.0
  }

  /** Any square root of 3 lies strictly between 1.732 and 1.7321. */
  lemma Sqrt3Bounds(s: real)
    requires IsSqrt3(s)
    ensures 1.732 < s < 1.7321
  {
  }

  /** Supply parameters the formulas divide by; the UI clamps them positive. */
  predicate ValidSupply(u: real, pf: real, eff: real) {
    u > 0.0 && pf > 0.0 && eff > 0.0
  }

  /**
   * Single-phase current I = P·1000 / (U·pf·η) for a load of `kW` kilowatts:
   * the current for which the delivered power U·I·pf·η equals the load.
   */
  function SinglePhaseCurrent(kW: real, u: real, pf: real, eff: real): (i: real)
    requires ValidSupply(u, pf, eff)
    ensures i * (u * pf * eff) == kW * 1000.0
    ensures kW > 0.0 ==> i > 0.0
    ensures kW == 0.0 ==> i == 0.0
  {
    var d := u * pf * eff;
    assert d > 0.0 by { assert u * pf > 0.0; }
    (kW * 1000.0) / d
  }

  /**
   * Three-phase current I = P·1000 / (√3·U·pf·η): the current for which the
   * delivered power √3·U·I·pf·η equals the load.
   */
  function ThreePhaseCurrent(kW: real, u: real, pf: real, eff: real, s: real): (i: real)
    requires IsSqrt3(s) && ValidSupply(u, pf, eff)
    ensures s * (u * pf * eff) * i == kW * 1000.0
    ensures kW > 0.0 ==> i > 0.0
    ensures kW == 0.0 ==> i == 0.0
  {
    var d := s * u * pf * eff;
    assert d > 0.0 by { assert s * u > 0.0; assert s * u * pf > 0.0; }
    assert d == s * (u * pf * eff);
    (kW * 1000.0) / d
  }

  /** For the same load and supply, the three-phase current is the single-phase one divided by √3. */
  lemma ThreePhaseIsSinglePhaseOverSqrt3(kW: real, u: real, pf: real, eff: real, s: real)
    requires IsSqrt3(s) && ValidSupply(u, pf, eff)
    ensures ThreePhaseCurrent(kW, u, pf, eff, s) * s == SinglePhaseCurrent(kW, u, pf, eff)
    ensures kW > 0.0 ==> ThreePhaseCurrent(kW, u, pf, eff, s) < SinglePhaseCurrent(kW, u, pf, eff)
  {
    var i3 := ThreePhaseCurrent(kW, u, pf, eff, s);
    var i1 := SinglePhaseCurrent(kW, u, pf, eff);
    var d := u * pf * eff;
    assert d > 0.0 by { assert u * pf > 0.0; }
    assert (i3 * s) * d == kW * 1000.0;
    assert i1 * d == kW * 1000.0;
    assert (i3 * s - i1) * d == 0.0;
    Sqrt3Bounds(s);
    if kW > 0.0 {
      assert i3 > 0.0;
      assert i3 * s > i3 * 1.0;
    }
  }

  /**
   * The current the calculator uses: the three-phase formula exactly when
   * `phases == 3`, the single-phase formula for any other phase count.
   */
  function LoadCurrent(phases: int, kW: real, u: real, pf: real, eff: real, s: real): (i: real)
    requires IsSqrt3(s) && ValidSupply(u, pf, eff)
    ensures phases == 3 ==> s * (u * pf * eff) * i == kW * 1000.0
    ensures phases != 3 ==> i * (u * pf * eff) == kW * 1000.0
    ensures kW > 0.0 ==> i > 0.0
  {
    if phases == 3 then ThreePhaseCurrent(kW, u, pf, eff, s)
    else SinglePhaseCurrent(kW, u, pf, eff)
  }

  /**
   * Voltage drop in percent of the nominal voltage for current `i` (A) over
   * `lengthM` metres of cable with coefficient `mVAm` (mV per A per m):
   * (I·m·L / 1000) / U · 100, which is I·m·L / (10·U).
   */
  function VoltageDropPercent(i: real, lengthM: real, mVAm: real, u: real): (pct: real)
    requires u > 0.0
    ensures pct * (10.0 * u) == i * mVAm * lengthM
    ensures pct / 100.0 * u == i * mVAm * lengthM / 1000.0
  {
    ((i * mVAm * lengthM / 1000.0) / u) * 100.0
  }

  /** No current, no voltage drop. */
  lemma VoltageDropZeroCurrent(lengthM: real, mVAm: real, u: real)
    requires u > 0.0
    ensures VoltageDropPercent(0.0, lengthM, mVAm, u) == 0.0
  {
  }

  lemma VoltageDropLinearInCurrent(a: real, b: real, i1: real, i2: real, lengthM: real, mVAm: real, u: real)
    requires u > 0.0
    ensures VoltageDropPercent(a * i1 + b * i2, lengthM, mVAm, u)
         == a * VoltageDropPercent(i1, lengthM, mVAm, u) + b * VoltageDropPercent(i2, lengthM, mVAm, u)
  {
    var p1 := VoltageDropPercent(i1, lengthM, mVAm, u);
    var p2 := VoltageDropPercent(i2, lengthM, mVAm, u);
    var p := VoltageDropPercent(a * i1 + b * i2, lengthM, mVAm, u);
    var d := 10.0 * u;
    assert p * d == (a * i1 + b * i2) * mVAm * lengthM;
    assert (a * p1 + b * p2) * d == a * (p1 * d) + b * (p2 * d);
    assert (p - (a * p1 + b * p2)) * d == 0.0;
  }

  lemma VoltageDropLinearInLength(a: real, b: real, l1: real, l2: real, i: real, mVAm: real, u: real)
    requires u > 0.0
    ensures VoltageDropPercent(i, a * l1 + b * l2, mVAm, u)
         == a * VoltageDropPercent(i, l1, mVAm, u) + b * VoltageDropPercent(i, l2, mVAm, u)
  {
    var p1 := VoltageDropPercent(i, l1, mVAm, u);
    var p2 := VoltageDropPercent(i, l2, mVAm, u);
    var p := VoltageDropPercent(i, a * l1 + b * l2, mVAm, u);
    var d := 10.0 * u;
    assert p * d == i * mVAm * (a * l1 + b * l2);
    assert (a * p1 + b * p2) * d == a * (p1 * d) + b * (p2 * d);
    assert (p - (a * p1 + b * p2)) * d == 0.0;
  }
}
