/**
 * The cable-sizing page end to end: load current from the supply inputs,
 * the selected table row, and the voltage drop over the given length using
 * that row's coefficient.
 */
module CableDemo {
  import opened Formulas
  import opened Ampacity

  /** The figures the page shows: current, section, coefficient and drop. */
  datatype Sizing = Sizing(current: real, csaMm2: real, mVAm: real, dropPercent: real)

  function SizeCable(phases: int, kW: real, u: real, pf: real, eff: real, lengthM: real, s: real): (r: Sizing)
    requires IsSqrt3(s) && ValidSupply(u, pf, eff)
    ensures r.current == LoadCurrent(phases, kW, u, pf, eff, s)
    // cross-section and coefficient come from one and the same table row, which
    // covers the current with margin unless it is the fallback largest row
    ensures exists k :: (0 <= k < |Table| && Table[k].csaMm2 == r.csaMm2 && Table[k].mVAm == r.mVAm
      && (Fits(Table[k], r.current) || (k == |Table| - 1 && NoneFits(Table, r.current))))
    // and it is the smallest qualifying section: the row the selection rule picks
    ensures forall j :: 0 <= j < |Table| && Fits(Table[j], r.current) ==> r.csaMm2 <= Table[j].csaMm2
    ensures r.csaMm2 == SelectRow(r.current).csaMm2 && r.mVAm == SelectRow(r.current).mVAm
    ensures r.dropPercent == VoltageDropPercent(r.current, lengthM, r.mVAm, u)
  {
    var i := LoadCurrent(phases, kW, u, pf, eff, s);
    var row := SelectRow(i);
    assert Table[SelectIndex(Table, i)] == row;
    Sizing(i, row.csaMm2, row.mVAm, VoltageDropPercent(i, lengthM, row.mVAm, u))
  }

  /**
   * 5 kW three-phase at 400 V, pf 0.9, η 1, 50 m: about 8.02 A, 1.5 mm²,
   * 29 mV/A/m and a drop of about 2.91 %.
   */
  lemma ThreePhaseScenario(s: real)
    requires IsSqrt3(s)
    ensures var r := SizeCable(3, 5.0, 400.0, 0.9, 1.0, 50.0, s);
      8.01 < r.current < 8.02 && r.csaMm2 == 1.5 && r.mVAm == 29.0 && 2.90 < r.dropPercent < 2.91
  {
    Sqrt3Bounds(s);
    var i := ThreePhaseCurrent(5.0, 400.0, 0.9, 1.0, s);
    assert s * 360.0 * i == 5000.0;
    assert i > 0.0;
    assert 8.01 < i < 8.02 by {
      assert 1.732 * i < s * i < 1.7321 * i;
    }
    FirstFitUnique(Table, i, 0);
  }

  /**
   * 5 kW single-phase at 230 V, pf 0.9, η 1, 50 m: I = 5000/207 ≈ 24.15 A, so
   * 1.25·I ≈ 30.19 A, which 4 mm² (28 A) misses and 6 mm² (36 A) covers;
   * the drop at 7.3 mV/A/m is about 3.83 %.
   */
  lemma SinglePhaseScenario(s: real)
    requires IsSqrt3(s)
    ensures var r := SizeCable(1, 5.0, 230.0, 0.9, 1.0, 50.0, s);
      r.current == 5000.0 / 207.0 && r.csaMm2 == 6.0 && r.mVAm == 7.3 && 3.83 < r.dropPercent < 3.84
  {
    var i := SinglePhaseCurrent(5.0, 230.0, 0.9, 1.0);
    assert i * 207.0 == 5000.0;
    SelectSixSquare(i);
  }
}
