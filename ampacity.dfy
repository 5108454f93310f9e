/**
 * The ampacity reference table and the rule that picks a cable from it: the
 * first row, in table order, whose rated current covers the load current
 * with a 25 % margin, and the last (largest) row when none does.
 */
module Ampacity {
  import opened Wrappers

  /** One table row: cross-section (mm²), rated current (A), voltage-drop coefficient (mV/A/m). */
  datatype Row = Row(csaMm2: real, amps: nat, mVAm: real)

  /** Required headroom: a row qualifies when its rating is at least 1.25 times the current. */
  const Margin: real := 1.25

  /** The compiled-in table, ordered by increasing cross-section. */
  const Table: seq<Row> := [
    Row(1.5, 15, 29.0),
    Row(2.5, 21, 18.0),
    Row(4.0, 28, 11.0),
    Row(6.0, 36, 7.3),
    Row(10.0, 50, 4.4),
    Row(16.0, 68, 2.8),
    Row(25.0, 89, 1.75),
    Row(35.0, 110, 1.25),
    Row(50.0, 140, 0.93)
  ]

  /** The largest row, used when nothing in the table is big enough. */
  const LargestRow: Row := Table[|Table| - 1]

  /** A row is rated for any load current up to 80 % of its rating (1 / 1.25). */
  predicate Fits(row: Row, current: real)
    ensures Fits(row, current) <==> current <= 0.8 * row.amps as real
  {
    row.amps as real >= Margin * current
  }

  predicate NoneFits(t: seq<Row>, current: real) {
    forall j :: 0 <= j < |t| ==> !Fits(t[j], current)
  }

  /** Index `k` is the first row of `t` that fits `current`. */
  predicate IsFirstFit(t: seq<Row>, current: real, k: nat) {
    k < |t| && Fits(t[k], current) && forall j :: 0 <= j < k ==> !Fits(t[j], current)
  }

  /** Each row is larger in cross-section and rating, and smaller in drop coefficient, than the one before. */
  predicate AdjacentSorted(t: seq<Row>) {
    forall i :: 0 < i < |t| ==>
      t[i-1].csaMm2 < t[i].csaMm2 && t[i-1].amps < t[i].amps && t[i-1].mVAm > t[i].mVAm
  }

  /**
   * The table's size order over any two rows: a later row has a larger
   * cross-section and rating and a smaller drop coefficient.
   */
  predicate Sorted(t: seq<Row>) {
    forall i, j :: 0 <= i < j < |t| ==>
      t[i].csaMm2 < t[j].csaMm2 && t[i].amps < t[j].amps && t[i].mVAm > t[j].mVAm
  }

  /** Ratings strictly increase down the table (nothing is assumed of the other columns). */
  predicate RatingsIncreasing(t: seq<Row>) {
    forall i, j :: 0 <= i < j < |t| ==> t[i].amps < t[j].amps
  }

  lemma {:induction false} AdjacentGivesSorted(t: seq<Row>)
    requires AdjacentSorted(t)
    ensures Sorted(t)
  {
    if |t| > 1 {
      var u := t[..|t|-1];
      assert AdjacentSorted(u);
      AdjacentGivesSorted(u);
      forall i, j | 0 <= i < j < |t|
        ensures t[i].csaMm2 < t[j].csaMm2 && t[i].amps < t[j].amps && t[i].mVAm > t[j].mVAm
      {
        if j < |t| - 1 {
          assert u[i] == t[i] && u[j] == t[j];
        } else if i < j - 1 {
          assert u[i] == t[i] && u[j-1] == t[j-1];
        }
      }
    }
  }

  /** The table is sorted: cross-section and rating strictly increase, the coefficient strictly decreases. */
  lemma TableSorted()
    ensures Sorted(Table)
  {
    assert AdjacentSorted(Table) by {
      forall i | 0 < i < |Table|
        ensures Table[i-1].csaMm2 < Table[i].csaMm2 && Table[i-1].amps < Table[i].amps
             && Table[i-1].mVAm > Table[i].mVAm
      {
        assert i in {1, 2, 3, 4, 5, 6, 7, 8};
      }
    }
    AdjacentGivesSorted(Table);
  }

  /** The first row of `t` that fits `current`, if any (the boolean filter followed by `head(1)`). */
  function FirstFit(t: seq<Row>, current: real): (r: Option<nat>)
    ensures r.Some? ==> IsFirstFit(t, current, r.value)
    ensures r.None? <==> NoneFits(t, current)
  {
    if t == [] then None
    else if Fits(t[0], current) then Some(0)
    else match FirstFit(t[1..], current)
      case None => None
      case Some(k) => Some(k + 1)
  }

  /** Index of the selected row: the first fit, or the last row when nothing fits. */
  function SelectIndex(t: seq<Row>, current: real): (k: nat)
    requires |t| > 0
    ensures k < |t|
    ensures !NoneFits(t, current) ==> IsFirstFit(t, current, k)
    ensures NoneFits(t, current) ==> k == |t| - 1
  {
    match FirstFit(t, current)
    case Some(k) => k
    case None => |t| - 1
  }

  /** The first fit is unique: any index meeting IsFirstFit is the one selected. */
  lemma FirstFitUnique(t: seq<Row>, current: real, k: nat)
    requires |t| > 0 && IsFirstFit(t, current, k)
    ensures SelectIndex(t, current) == k
  {
    assert !NoneFits(t, current) by { assert Fits(t[k], current); }
  }

  /**
   * Selection never moves backwards as the current grows: a row that fits
   * the larger current fits the smaller one, and the fallback is the last row.
   * This holds for any table, sorted or not.
   */
  lemma SelectIndexMonotone(t: seq<Row>, i1: real, i2: real)
    requires |t| > 0 && i1 <= i2
    ensures SelectIndex(t, i1) <= SelectIndex(t, i2)
  {
    var k1, k2 := SelectIndex(t, i1), SelectIndex(t, i2);
    if !NoneFits(t, i2) {
      assert Fits(t[k2], i1);
      assert !NoneFits(t, i1);
    }
  }

  /**
   * In a table whose ratings increase, row `k` is selected when the row
   * before it (if any) is rated below 1.25·I and row `k` is not.
   */
  lemma SelectBand(t: seq<Row>, current: real, k: nat)
    requires RatingsIncreasing(t)
    requires k < |t| && (k == 0 || !Fits(t[k-1], current)) && Fits(t[k], current)
    ensures SelectIndex(t, current) == k
  {
    forall j | 0 <= j < k ensures !Fits(t[j], current) {
      assert t[j].amps <= t[k-1].amps;
    }
    FirstFitUnique(t, current, k);
  }

  /** The row the calculator selects for `current`. */
  function SelectRow(current: real): (row: Row)
    ensures row in Table
    ensures Fits(row, current) || (row == LargestRow && NoneFits(Table, current))
    ensures forall j :: 0 <= j < |Table| && Fits(Table[j], current) ==> row.csaMm2 <= Table[j].csaMm2
  {
    var k := SelectIndex(Table, current);
    TableSorted();
    assert forall j :: 0 <= j < |Table| && Fits(Table[j], current) ==> k <= j;
    Table[k]
  }

  /** If no row fits (1.25·I above 140 A), the largest row is chosen: 50 mm², 0.93 mV/A/m. */
  lemma SelectFallback(current: real)
    requires Margin * current > 140.0
    ensures SelectRow(current) == LargestRow
  {
    TableSorted();
    assert NoneFits(Table, current) by {
      forall j | 0 <= j < |Table| ensures !Fits(Table[j], current) {
        assert Table[j].amps <= Table[8].amps;
      }
    }
  }

  /** The selected cable never gets smaller, and its coefficient never larger, as the current grows. */
  lemma SelectRowMonotone(i1: real, i2: real)
    requires i1 <= i2
    ensures SelectRow(i1).csaMm2 <= SelectRow(i2).csaMm2
    ensures SelectRow(i1).amps <= SelectRow(i2).amps
    ensures SelectRow(i1).mVAm >= SelectRow(i2).mVAm
  {
    SelectIndexMonotone(Table, i1, i2);
    TableSorted();
  }

  /** No load current selects the smallest row, 1.5 mm² at 29 mV/A/m. */
  lemma SelectZeroCurrent()
    ensures SelectRow(0.0) == Row(1.5, 15, 29.0)
  {
    FirstFitUnique(Table, 0.0, 0);
  }

  /** A current with 28 A < 1.25·I ≤ 36 A selects 6 mm² at 7.3 mV/A/m. */
  lemma SelectSixSquare(current: real)
    requires 28.0 < Margin * current <= 36.0
    ensures SelectRow(current) == Row(6.0, 36, 7.3)
  {
    TableSorted();
    SelectBand(Table, current, 3);
  }
}
