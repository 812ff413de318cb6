/**
 * Cell-voltage to state-of-charge estimator (bms/SoCEstimator.kt):
 * piecewise-linear interpolation over a fixed LiFePO4 table whose top row
 * depends on the charge direction. Voltages are exact reals here, so only
 * the ordering of the table literals matters.
 */
module SoCEstimator {
  import opened Wrappers

  /** One calibration row; `charging == None` applies to both directions. */
  datatype TableEntry = TableEntry(voltage: real, soc: int, charging: Option<bool>)

  /** The calibration table, from high voltage to low, as the source lists it. */
  const Table: seq<TableEntry> := [
    TableEntry(3.65, 100, Some(true)),
    TableEntry(3.4, 100, Some(false)),
    TableEntry(3.35, 99, None),
    TableEntry(3.33, 90, None),
    TableEntry(3.3, 70, None),
    TableEntry(3.28, 40, None),
    TableEntry(3.25, 30, None),
    TableEntry(3.23, 20, None),
    TableEntry(3.2, 17, None),
    TableEntry(3.13, 14, None),
    TableEntry(3.0, 9, None),
    TableEntry(2.5, 0, None)
  ]

  /** `List.reversed()`. */
  function Reversed<T>(s: seq<T>): (r: seq<T>)
    ensures |r| == |s|
    ensures forall i :: 0 <= i < |s| ==> r[i] == s[|s| - 1 - i]
  {
    seq(|s|, i requires 0 <= i < |s| => s[|s| - 1 - i])
  }

  /** The row filter of `estimate`: no direction constraint, or the given one. */
  predicate Applies(e: TableEntry, charging: bool) {
    e.charging == None || e.charging == Some(charging)
  }

  /** `filter { it.charging == null || it.charging == charging }`, keeping the order. */
  function Applicable(rows: seq<TableEntry>, charging: bool): seq<TableEntry> {
    if rows == [] then []
    else if Applies(rows[0], charging) then [rows[0]] + Applicable(rows[1..], charging)
    else Applicable(rows[1..], charging)
  }

  /** `finalTable` of `estimate`: the reversed table filtered by direction. */
  function FinalTable(charging: bool): seq<TableEntry> {
    Applicable(Reversed(Table), charging)
  }

  /** The rows that hold in both directions, in ascending order. */
  const CommonRows: seq<TableEntry> := [
    TableEntry(2.5, 0, None),
    TableEntry(3.0, 9, None),
    TableEntry(3.13, 14, None),
    TableEntry(3.2, 17, None),
    TableEntry(3.23, 20, None),
    TableEntry(3.25, 30, None),
    TableEntry(3.28, 40, None),
    TableEntry(3.3, 70, None),
    TableEntry(3.33, 90, None),
    TableEntry(3.35, 99, None)
  ]

  /** The direction-specific top row: 3.65 V when charging, 3.4 V otherwise. */
  function TopRow(charging: bool): TableEntry {
    if charging then TableEntry(3.65, 100, Some(true)) else TableEntry(3.4, 100, Some(false))
  }

  /** `Table` reversed. */
  const AscendingTable: seq<TableEntry> := [
    TableEntry(2.5, 0, None),
    TableEntry(3.0, 9, None),
    TableEntry(3.13, 14, None),
    TableEntry(3.2, 17, None),
    TableEntry(3.23, 20, None),
    TableEntry(3.25, 30, None),
    TableEntry(3.28, 40, None),
    TableEntry(3.3, 70, None),
    TableEntry(3.33, 90, None),
    TableEntry(3.35, 99, None),
    TableEntry(3.4, 100, Some(false)),
    TableEntry(3.65, 100, Some(true))
  ]

  lemma ReversedTable()
    ensures Reversed(Table) == AscendingTable
  {
    assert |Table| == 12;
    forall i | 0 <= i < 12 ensures Reversed(Table)[i] == AscendingTable[i] {
      assert Reversed(Table)[i] == Table[11 - i];
    }
  }

  lemma CommonRowsShared()
    ensures forall i :: 0 <= i < |CommonRows| ==> CommonRows[i].charging == None
  {
    assert |CommonRows| == 10;
    forall i | 0 <= i < 10 ensures CommonRows[i].charging == None {
      assert CommonRows[i] in CommonRows;
    }
  }

  /** Rows with no direction constraint all pass the filter. */
  lemma {:induction false} ApplicableKeepsCommon(rows: seq<TableEntry>, charging: bool)
    requires forall i :: 0 <= i < |rows| ==> rows[i].charging == None
    ensures Applicable(rows, charging) == rows
  {
    if rows != [] {
      ApplicableKeepsCommon(rows[1..], charging);
      assert rows == [rows[0]] + rows[1..];
    }
  }

  /** Filtering a concatenation filters each part. */
  lemma {:induction false} ApplicableAppend(a: seq<TableEntry>, b: seq<TableEntry>, charging: bool)
    ensures Applicable(a + b, charging) == Applicable(a, charging) + Applicable(b, charging)
  {
    if a == [] {
      assert a + b == b;
    } else {
      assert (a + b)[0] == a[0] && (a + b)[1..] == a[1..] + b;
      ApplicableAppend(a[1..], b, charging);
      var x, y := Applicable(a[1..], charging), Applicable(b, charging);
      assert [a[0]] + (x + y) == ([a[0]] + x) + y;
    }
  }

  /** The table `estimate` works on: the ten shared rows, then the direction's top row. */
  lemma FinalTableValue(charging: bool)
    ensures FinalTable(charging) == CommonRows + [TopRow(charging)]
  {
    ReversedTable();
    assert AscendingTable == CommonRows + TopRows;
    ApplicableAppend(CommonRows, TopRows, charging);
    CommonRowsShared();
    ApplicableKeepsCommon(CommonRows, charging);
    TopRowsApplicable(charging);
  }

  /** The two direction-specific rows, discharging first as in the ascending table. */
  const TopRows: seq<TableEntry> := [TopRow(false), TopRow(true)]

  /** Of the two top rows, the filter keeps the one for the direction. */
  lemma TopRowsApplicable(charging: bool)
    ensures Applicable(TopRows, charging) == [TopRow(charging)]
  {
    assert TopRows[1..] == [TopRow(true)];
    assert TopRows[1..][1..] == [];
  }

  /** Adjacent rows rise strictly in voltage and weakly in SoC. */
  predicate Ascending(rows: seq<TableEntry>) {
    forall i :: 0 <= i < |rows| - 1 ==>
      rows[i].voltage < rows[i + 1].voltage && rows[i].soc <= rows[i + 1].soc
  }

  lemma {:induction false} AscendingTransitive(rows: seq<TableEntry>, i: int, j: int)
    requires Ascending(rows) && 0 <= i < j < |rows|
    ensures rows[i].voltage < rows[j].voltage && rows[i].soc <= rows[j].soc
    decreases j - i
  {
    if i + 1 < j {
      AscendingTransitive(rows, i + 1, j);
    }
  }

  /** The facts about the final table that the estimator relies on. */
  lemma FinalTableShape(charging: bool)
    ensures |FinalTable(charging)| == 11
    ensures FinalTable(charging)[0] == TableEntry(2.5, 0, None)
    ensures FinalTable(charging)[10] == TopRow(charging)
    ensures Ascending(FinalTable(charging))
    ensures forall i :: 0 <= i < 11 ==> 0 <= FinalTable(charging)[i].soc <= 100
  {
    FinalTableValue(charging);
  }

  /**
   * For either direction, the reversed and filtered table is strictly
   * ascending in voltage (and non-decreasing in SoC).
   */
  lemma FinalTableAscending(charging: bool)
    ensures forall i, j :: 0 <= i < j < |FinalTable(charging)| ==>
              FinalTable(charging)[i].voltage < FinalTable(charging)[j].voltage
              && FinalTable(charging)[i].soc <= FinalTable(charging)[j].soc
  {
    FinalTableShape(charging);
    forall i, j | 0 <= i < j < |FinalTable(charging)|
      ensures FinalTable(charging)[i].voltage < FinalTable(charging)[j].voltage
      ensures FinalTable(charging)[i].soc <= FinalTable(charging)[j].soc
    {
      AscendingTransitive(FinalTable(charging), i, j);
    }
  }

  /** `cellVoltage in left.voltage..right.voltage` for the window starting at row j. */
  predicate InWindow(rows: seq<TableEntry>, j: int, v: real)
    requires 0 <= j && j + 1 < |rows|
  {
    rows[j].voltage <= v <= rows[j + 1].voltage
  }

  /**
   * `windowed(2, 1).firstOrNull { v in window }`, searching from window
   * `from`: the index of the first window that contains v, if any.
   */
  function FindWindow(rows: seq<TableEntry>, v: real, from: nat): (r: Option<nat>)
    ensures r.Some? ==> from <= r.value && r.value + 1 < |rows| && InWindow(rows, r.value, v)
    ensures r.Some? ==> forall j :: from <= j < r.value ==> !InWindow(rows, j, v)
    ensures r.None? ==> forall j :: from <= j && j + 1 < |rows| ==> !InWindow(rows, j, v)
    decreases |rows| - from
  {
    if from + 1 >= |rows| then None
    else if InWindow(rows, from, v) then Some(from)
    else FindWindow(rows, v, from + 1)
  }

  /** The windows cover every voltage between the first and the last row. */
  lemma {:induction false} WindowsCover(rows: seq<TableEntry>, v: real, from: nat)
    requires from + 1 < |rows| && rows[from].voltage <= v <= rows[|rows| - 1].voltage
    ensures FindWindow(rows, v, from).Some?
    decreases |rows| - from
  {
    if !InWindow(rows, from, v) {
      WindowsCover(rows, v, from + 1);
    }
  }

  /** `left.soc + (right.soc - left.soc) * (v - left.voltage) / (right.voltage - left.voltage)`. */
  function Interpolate(left: TableEntry, right: TableEntry, v: real): (r: real)
    requires left.voltage < right.voltage
    ensures left.voltage <= v <= right.voltage && left.soc <= right.soc ==>
              left.soc as real <= r <= right.soc as real
  {
    var percentage := (v - left.voltage) / (right.voltage - left.voltage);
    InterpolationBounds(left, right, v);
    left.soc as real + (right.soc - left.soc) as real * percentage
  }

  lemma InterpolationBounds(left: TableEntry, right: TableEntry, v: real)
    requires left.voltage < right.voltage
    ensures var p := (v - left.voltage) / (right.voltage - left.voltage);
            left.voltage <= v <= right.voltage && left.soc <= right.soc ==>
              0.0 <= (right.soc - left.soc) as real * p <= (right.soc - left.soc) as real
  {
    var p := (v - left.voltage) / (right.voltage - left.voltage);
    var d := (right.soc - left.soc) as real;
    if left.voltage <= v <= right.voltage && left.soc <= right.soc {
      FractionBounds(v - left.voltage, right.voltage - left.voltage);
      assert 0.0 <= d * p <= d;
    }
  }

  lemma FractionBounds(a: real, w: real)
    requires 0.0 <= a <= w && 0.0 < w
    ensures 0.0 <= a / w <= 1.0
  {
    assert a / w * w == a;
  }

  /** Interpolation within one window is non-decreasing in the voltage. */
  lemma InterpolateMonotone(left: TableEntry, right: TableEntry, v1: real, v2: real)
    requires left.voltage < right.voltage && left.soc <= right.soc && v1 <= v2
    ensures Interpolate(left, right, v1) <= Interpolate(left, right, v2)
  {
    var w := right.voltage - left.voltage;
    var d := (right.soc - left.soc) as real;
    var p1, p2 := (v1 - left.voltage) / w, (v2 - left.voltage) / w;
    assert p1 <= p2;
    assert d * p1 <= d * p2;
  }

  /**
   * `SoCEstimator.estimate`: the first window of the final table that holds
   * the voltage gives a linear interpolation; outside every window the result
   * is 0 below the first row and 100 above the last. The source's `error("")`
   * branch (strictly between the first and last row, yet in no window) is
   * unreachable, which the function proves on the spot.
   */
  function Estimate(cellVoltage: real, charging: bool): (r: real)
    ensures 0.0 <= r <= 100.0
  {
    var rows := FinalTable(charging);
    FinalTableShape(charging);
    match FindWindow(rows, cellVoltage, 0)
    case Some(i) =>
      AscendingTransitive(rows, 0, i + 1);
      Interpolate(rows[i], rows[i + 1], cellVoltage)
    case None =>
      if cellVoltage <= rows[0].voltage then 0.0
      else if cellVoltage >= rows[|rows| - 1].voltage then 100.0
      else
        WindowsCover(rows, cellVoltage, 0);
        assert false;
        0.0
  }

  /** At a row's own voltage the estimate is that row's SoC. */
  lemma EstimateAtTableVoltage(charging: bool, k: int)
    requires 0 <= k < |FinalTable(charging)|
    ensures Estimate(FinalTable(charging)[k].voltage, charging) == FinalTable(charging)[k].soc as real
  {
    var rows := FinalTable(charging);
    FinalTableShape(charging);
    var w := RowWindow(rows, k);
    InterpolateAtEnds(rows[w], rows[w + 1]);
  }

  /** Interpolation reproduces the SoC of either end of its window. */
  lemma InterpolateAtEnds(left: TableEntry, right: TableEntry)
    requires left.voltage < right.voltage
    ensures Interpolate(left, right, left.voltage) == left.soc as real
    ensures Interpolate(left, right, right.voltage) == right.soc as real
  {
    var w := right.voltage - left.voltage;
    assert (left.voltage - left.voltage) / w == 0.0;
    DivSelf(w);
  }

  /** Real division by itself, kept apart so the solver proves it without the table in scope. */
  lemma DivSelf(w: real)
    requires w > 0.0
    ensures w / w == 1.0
  {
  }

  /** The window the search finds for a row's own voltage: the one that row closes (or opens, for row 0). */
  lemma RowWindow(rows: seq<TableEntry>, k: int) returns (w: nat)
    requires Ascending(rows) && 2 <= |rows| && 0 <= k < |rows|
    ensures w + 1 < |rows| && FindWindow(rows, rows[k].voltage, 0) == Some(w)
    ensures w == k || w + 1 == k
  {
    var v := rows[k].voltage;
    w := if k == 0 then 0 else k - 1;
    forall j | 0 <= j < w ensures !InWindow(rows, j, v) {
      AscendingTransitive(rows, j + 1, k);
    }
    FirstWindowIs(rows, v, 0, w);
  }

  /** When window w holds v and no earlier one does, the search returns w. */
  lemma {:induction false} FirstWindowIs(rows: seq<TableEntry>, v: real, from: nat, w: nat)
    requires from <= w && w + 1 < |rows| && InWindow(rows, w, v)
    requires forall j :: from <= j < w ==> !InWindow(rows, j, v)
    ensures FindWindow(rows, v, from) == Some(w)
    decreases w - from
  {
    if from < w {
      FirstWindowIs(rows, v, from + 1, w);
    }
  }

  /** Over an ascending table, no window holds v exactly when v lies outside the table's range. */
  lemma NoWindowOutside(rows: seq<TableEntry>, v: real)
    requires Ascending(rows) && 2 <= |rows|
    ensures FindWindow(rows, v, 0).None? <==> v < rows[0].voltage || rows[|rows| - 1].voltage < v
  {
    var last := |rows| - 1;
    if rows[0].voltage <= v <= rows[last].voltage {
      WindowsCover(rows, v, 0);
    } else {
      forall j | 0 <= j && j + 1 < |rows| ensures !InWindow(rows, j, v) {
        if 0 < j { AscendingTransitive(rows, 0, j); }
        if j + 1 < last { AscendingTransitive(rows, j + 1, last); }
      }
    }
  }

  /** A higher voltage is never found in an earlier window. */
  lemma WindowsOrdered(rows: seq<TableEntry>, v1: real, v2: real, i: nat, j: nat)
    requires Ascending(rows) && v1 <= v2
    requires FindWindow(rows, v1, 0) == Some(i) && FindWindow(rows, v2, 0) == Some(j)
    ensures i <= j
  {
    if j < i {
      if j + 1 < i { AscendingTransitive(rows, j + 1, i); }
    }
  }

  lemma EstimateFullWhenCharging()
    ensures Estimate(3.65, true) == 100.0
  {
    FinalTableShape(true);
    EstimateAtTableVoltage(true, 10);
  }

  lemma EstimateEmptyWhenDischarging()
    ensures Estimate(2.5, false) == 0.0
  {
    FinalTableShape(false);
    EstimateAtTableVoltage(false, 0);
  }

  /** Any voltage at or below the lowest row, 2.5 V, estimates 0. */
  lemma EstimateBelowRange(v: real, charging: bool)
    requires v <= 2.5
    ensures Estimate(v, charging) == 0.0
  {
    FinalTableShape(charging);
    if v == 2.5 {
      EstimateAtTableVoltage(charging, 0);
    } else {
      NoWindowOutside(FinalTable(charging), v);
    }
  }

  /** Any voltage at or above the direction's top row (3.65 V charging, 3.4 V otherwise) estimates 100. */
  lemma EstimateAboveRange(v: real, charging: bool)
    requires v >= TopRow(charging).voltage
    ensures Estimate(v, charging) == 100.0
  {
    FinalTableShape(charging);
    if v == TopRow(charging).voltage {
      EstimateAtTableVoltage(charging, 10);
    } else {
      AscendingTransitive(FinalTable(charging), 0, 10);
      NoWindowOutside(FinalTable(charging), v);
    }
  }

  /** Within one direction the estimate never decreases as the voltage rises. */
  lemma EstimateMonotone(v1: real, v2: real, charging: bool)
    requires v1 <= v2
    ensures Estimate(v1, charging) <= Estimate(v2, charging)
  {
    var rows := FinalTable(charging);
    FinalTableShape(charging);
    AscendingTransitive(rows, 0, 10);
    NoWindowOutside(rows, v1);
    NoWindowOutside(rows, v2);
    match FindWindow(rows, v1, 0)
    case None =>
    case Some(i) =>
      match FindWindow(rows, v2, 0)
      case None =>
      case Some(j) =>
        WindowsOrdered(rows, v1, v2, i, j);
        if i == j {
          InterpolateMonotone(rows[i], rows[i + 1], v1, v2);
        } else {
          if i + 1 < j {
            AscendingTransitive(rows, i + 1, j);
          }
          assert Estimate(v1, charging) <= rows[i + 1].soc as real;
          assert rows[j].soc as real <= Estimate(v2, charging);
        }
  }
}
