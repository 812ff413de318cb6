/**
 * Reassembly of the multi-frame CELL_VOLTAGES reply (`readDataInternal`
 * in bms/DalyBmsConnection.kt): every frame carries a sequence number in
 * data byte 0 and three cell voltages (millivolts, big-endian) at data
 * offsets 1, 3 and 5.
 */
module DalyCells {
  import opened Wrappers
  import opened ByteUtils
  import opened DalyFrames

  /** The frame's sequence number, `data[0].toUnsignedInt()`. */
  function Number(f: Frame): int {
    ToUnsignedInt(f.data[0])
  }

  /** Cell `i` (0..2) of a frame in volts. */
  function CellValue(f: Frame, i: int): real
    requires 0 <= i < 3
  {
    ReadInt16Bits(f.data, 1 + 2 * i) as real / 1000.0
  }

  /** The sequence numbers present among the frames. */
  function NumberSet(fs: seq<Frame>): set<int> {
    if fs == [] then {} else {Number(fs[0])} + NumberSet(fs[1..])
  }

  lemma {:induction false} NumberSetMembers(fs: seq<Frame>, k: int)
    ensures k in NumberSet(fs) <==> exists i :: 0 <= i < |fs| && Number(fs[i]) == k
    decreases |fs|
  {
    if fs != [] {
      NumberSetMembers(fs[1..], k);
      if k in NumberSet(fs[1..]) {
        var i :| 0 <= i < |fs| - 1 && Number(fs[1..][i]) == k;
        assert Number(fs[i + 1]) == k;
      }
      if exists i :: 0 <= i < |fs| && Number(fs[i]) == k {
        var i :| 0 <= i < |fs| && Number(fs[i]) == k;
        if i > 0 { assert Number(fs[1..][i - 1]) == k; }
      }
    }
  }

  lemma {:induction false} NumberSetConcat(a: seq<Frame>, b: seq<Frame>)
    ensures NumberSet(a + b) == NumberSet(a) + NumberSet(b)
    decreases |a|
  {
    if a == [] {
      assert a + b == b;
    } else {
      assert (a + b)[1..] == a[1..] + b;
      NumberSetConcat(a[1..], b);
    }
  }

  /** The numbers present are exactly 1..k for some k (k = 0 when there are none). */
  predicate Contiguous(fs: seq<Frame>) {
    forall k :: k in NumberSet(fs) ==> 1 <= k && (k > 1 ==> k - 1 in NumberSet(fs))
  }

  /** The first frame carrying number `k`. */
  function FirstWithNumber(fs: seq<Frame>, k: int): (f: Frame)
    requires k in NumberSet(fs)
    ensures f in fs && Number(f) == k
  {
    if Number(fs[0]) == k then fs[0]
    else FirstWithNumber(fs[1..], k)
  }

  /**
   * The cell voltages the reply yields, stated without the source's
   * de-duplicate, sort and count steps: defined iff the numbers present are
   * 1..k and every one of the `numberOfCells` cells falls in a frame that
   * is present (cell c in frame c / 3 + 1, slot c % 3); a repeated frame
   * number counts with its first occurrence.
   */
  function CellVoltagesSpec(fs: seq<Frame>, numberOfCells: int): (r: Option<seq<real>>)
    ensures r.Some? ==> |r.value| == numberOfCells
  {
    if Contiguous(fs) && 0 <= numberOfCells && Covers(fs, numberOfCells)
    then Some(seq(numberOfCells, c requires 0 <= c < numberOfCells && c / 3 + 1 in NumberSet(fs) =>
                CellValue(FirstWithNumber(fs, c / 3 + 1), c % 3)))
    else None
  }

  /** Every one of the first `n` cells falls in a frame that is present. */
  predicate Covers(fs: seq<Frame>, n: int) {
    forall c :: 0 <= c < n ==> c / 3 + 1 in NumberSet(fs)
  }

  /** `distinctBy { data[0].toUnsignedInt() }`, with the numbers in `seen` already taken. */
  function DistinctFrom(fs: seq<Frame>, seen: set<int>): seq<Frame> {
    if fs == [] then []
    else if Number(fs[0]) in seen then DistinctFrom(fs[1..], seen)
    else [fs[0]] + DistinctFrom(fs[1..], seen + {Number(fs[0])})
  }

  /** `distinctBy`: the first frame of each number, in order of arrival. */
  function DistinctByNumber(fs: seq<Frame>): seq<Frame> {
    DistinctFrom(fs, {})
  }

  /** No number occurs twice. */
  predicate DistinctNumbers(s: seq<Frame>) {
    forall i, j :: 0 <= i < j < |s| ==> Number(s[i]) != Number(s[j])
  }

  /**
   * De-duplication keeps one frame per number not yet seen, and the frame
   * it keeps is the first of its number.
   */
  lemma {:induction false} DistinctFromKeepsFirst(fs: seq<Frame>, seen: set<int>)
    ensures var r := DistinctFrom(fs, seen);
      && DistinctNumbers(r)
      && NumberSet(r) == NumberSet(fs) - seen
      && forall f :: f in r ==>
           f in fs && Number(f) !in seen && Number(f) in NumberSet(fs) && f == FirstWithNumber(fs, Number(f))
    decreases |fs|
  {
    if fs != [] {
      var n0 := Number(fs[0]);
      if n0 in seen {
        DistinctFromKeepsFirst(fs[1..], seen);
        var r := DistinctFrom(fs[1..], seen);
        forall f | f in r ensures f in fs && Number(f) in NumberSet(fs) && f == FirstWithNumber(fs, Number(f)) {
          assert Number(f) != n0;
        }
      } else {
        DistinctFromKeepsFirst(fs[1..], seen + {n0});
        var tail := DistinctFrom(fs[1..], seen + {n0});
        var r := [fs[0]] + tail;
        assert r[1..] == tail;
        forall i, j | 0 <= i < j < |r| ensures Number(r[i]) != Number(r[j]) {
          if i == 0 {
            assert r[j] in tail;
          } else {
            assert r[i] == tail[i - 1] && r[j] == tail[j - 1];
          }
        }
        forall f | f in r
          ensures f in fs && Number(f) !in seen && Number(f) in NumberSet(fs) && f == FirstWithNumber(fs, Number(f))
        {
          if f != fs[0] {
            assert f in tail;
            assert Number(f) != n0;
          }
        }
      }
    }
  }

  predicate Sorted(s: seq<Frame>) {
    forall i, j :: 0 <= i < j < |s| ==> Number(s[i]) <= Number(s[j])
  }

  predicate StrictlySorted(s: seq<Frame>) {
    forall i, j :: 0 <= i < j < |s| ==> Number(s[i]) < Number(s[j])
  }

  /** Insertion after every frame whose number is not larger, which keeps the sort stable. */
  function Insert(f: Frame, s: seq<Frame>): seq<Frame> {
    if s == [] then [f]
    else if Number(f) < Number(s[0]) then [f] + s
    else [s[0]] + Insert(f, s[1..])
  }

  /** Insertion adds exactly the one frame, and its number. */
  lemma {:induction false} InsertMembers(f: Frame, s: seq<Frame>)
    ensures |Insert(f, s)| == |s| + 1
    ensures forall x :: x in Insert(f, s) <==> x == f || x in s
    ensures NumberSet(Insert(f, s)) == NumberSet(s) + {Number(f)}
    decreases |s|
  {
    if s == [] {
    } else if Number(f) < Number(s[0]) {
      NumberSetConcat([f], s);
    } else {
      InsertMembers(f, s[1..]);
      assert s == [s[0]] + s[1..];
      NumberSetConcat([s[0]], Insert(f, s[1..]));
      NumberSetConcat([s[0]], s[1..]);
    }
  }

  /** A bound below every number of `s` and of `f` is a bound below every number of the insertion. */
  lemma {:induction false} InsertKeepsBound(f: Frame, s: seq<Frame>, b: int)
    ensures (forall i :: 0 <= i < |s| ==> b <= Number(s[i])) && b <= Number(f) ==>
              forall i :: 0 <= i < |Insert(f, s)| ==> b <= Number(Insert(f, s)[i])
    ensures (forall i :: 0 <= i < |s| ==> b < Number(s[i])) && b < Number(f) ==>
              forall i :: 0 <= i < |Insert(f, s)| ==> b < Number(Insert(f, s)[i])
    decreases |s|
  {
    if s != [] && Number(f) >= Number(s[0]) {
      InsertKeepsBound(f, s[1..], b);
      var r := Insert(f, s);
      assert forall i :: 0 < i < |r| ==> r[i] == Insert(f, s[1..])[i - 1];
    }
  }

  /** A frame whose number bounds a sorted sequence from below can go in front of it. */
  lemma ConsSorted(x: Frame, t: seq<Frame>)
    requires Sorted(t) && forall k :: 0 <= k < |t| ==> Number(x) <= Number(t[k])
    ensures Sorted([x] + t)
  {
    var r := [x] + t;
    forall i, j | 0 <= i < j < |r| ensures Number(r[i]) <= Number(r[j]) {
      assert r[j] == t[j - 1];
      if i > 0 {
        assert r[i] == t[i - 1];
      }
    }
  }

  /** The same with strict bounds. */
  lemma ConsStrictlySorted(x: Frame, t: seq<Frame>)
    requires StrictlySorted(t) && forall k :: 0 <= k < |t| ==> Number(x) < Number(t[k])
    ensures StrictlySorted([x] + t)
  {
    var r := [x] + t;
    forall i, j | 0 <= i < j < |r| ensures Number(r[i]) < Number(r[j]) {
      assert r[j] == t[j - 1];
      if i > 0 {
        assert r[i] == t[i - 1];
      }
    }
  }

  /** Insertion keeps a sorted sequence sorted. */
  lemma {:induction false} InsertSorted(f: Frame, s: seq<Frame>)
    requires Sorted(s)
    ensures Sorted(Insert(f, s))
    decreases |s|
  {
    if s == [] {
    } else if Number(f) < Number(s[0]) {
      ConsSorted(f, s);
    } else {
      var tail := Insert(f, s[1..]);
      assert Insert(f, s) == [s[0]] + tail;
      assert Sorted(s[1..]);
      InsertSorted(f, s[1..]);
      InsertKeepsBound(f, s[1..], Number(s[0]));
      ConsSorted(s[0], tail);
    }
  }

  /** Inserting a new number into a strictly sorted sequence keeps it strictly sorted. */
  lemma {:induction false} InsertStrictlySorted(f: Frame, s: seq<Frame>)
    requires StrictlySorted(s) && Number(f) !in NumberSet(s)
    ensures StrictlySorted(Insert(f, s))
    decreases |s|
  {
    if s == [] {
    } else if Number(f) < Number(s[0]) {
      ConsStrictlySorted(f, s);
    } else {
      assert s == [s[0]] + s[1..];
      NumberSetConcat([s[0]], s[1..]);
      assert Number(f) != Number(s[0]);
      var tail := Insert(f, s[1..]);
      assert Insert(f, s) == [s[0]] + tail;
      assert StrictlySorted(s[1..]);
      InsertStrictlySorted(f, s[1..]);
      InsertKeepsBound(f, s[1..], Number(s[0]));
      ConsStrictlySorted(s[0], tail);
    }
  }

  /** `sortedBy { data[0].toUnsignedInt() }`, as an insertion sort. */
  function SortByNumber(fs: seq<Frame>): seq<Frame> {
    if fs == [] then []
    else Insert(fs[|fs| - 1], SortByNumber(fs[..|fs| - 1]))
  }

  /** Dropping the last frame keeps the numbers distinct, and the last number is not among the others. */
  lemma DistinctInit(fs: seq<Frame>)
    requires fs != [] && DistinctNumbers(fs)
    ensures DistinctNumbers(fs[..|fs| - 1])
    ensures Number(fs[|fs| - 1]) !in NumberSet(fs[..|fs| - 1])
  {
    var init := fs[..|fs| - 1];
    forall i, j | 0 <= i < j < |init| ensures Number(init[i]) != Number(init[j]) {
      assert init[i] == fs[i] && init[j] == fs[j];
    }
    NumberSetMembers(init, Number(fs[|fs| - 1]));
  }

  /** Sorting keeps the frames and their numbers, orders them, and strictly so when the numbers are distinct. */
  lemma {:induction false} SortFacts(fs: seq<Frame>)
    ensures var r := SortByNumber(fs);
      && |r| == |fs|
      && (forall x :: x in r <==> x in fs)
      && NumberSet(r) == NumberSet(fs)
      && Sorted(r)
      && (DistinctNumbers(fs) ==> StrictlySorted(r))
    decreases |fs|
  {
    if fs != [] {
      var init, last := fs[..|fs| - 1], fs[|fs| - 1];
      assert fs == init + [last];
      SortFacts(init);
      var sorted := SortByNumber(init);
      assert SortByNumber(fs) == Insert(last, sorted);
      InsertMembers(last, sorted);
      InsertSorted(last, sorted);
      NumberSetConcat(init, [last]);
      assert NumberSet([last]) == {Number(last)};
      if DistinctNumbers(fs) {
        DistinctInit(fs);
        InsertStrictlySorted(last, sorted);
      }
    }
  }

  /**
   * The order the source checks the frames in: one frame per number, the
   * first received, sorted strictly by number.
   */
  lemma ReassemblyOrder(frames: seq<Frame>)
    ensures var sorted := SortByNumber(DistinctByNumber(frames));
      && StrictlySorted(sorted)
      && NumberSet(sorted) == NumberSet(frames)
      && forall j :: 0 <= j < |sorted| ==>
           Number(sorted[j]) in NumberSet(frames) && sorted[j] == FirstWithNumber(frames, Number(sorted[j]))
  {
    var distinct := DistinctByNumber(frames);
    DistinctFromKeepsFirst(frames, {});
    SortFacts(distinct);
    var sorted := SortByNumber(distinct);
    forall j | 0 <= j < |sorted|
      ensures Number(sorted[j]) in NumberSet(frames) && sorted[j] == FirstWithNumber(frames, Number(sorted[j]))
    {
      assert sorted[j] in distinct;
    }
  }

  /** In a strictly sorted sequence whose numbers are 1..k, position j holds number j + 1. */
  lemma {:induction false} NumberedFromOne(s: seq<Frame>, j: int)
    requires StrictlySorted(s) && Contiguous(s) && 0 <= j < |s|
    ensures Number(s[j]) == j + 1
    decreases j
  {
    var m := Number(s[j]);
    assert m in NumberSet(s) by { NumberSetMembers(s, m); }
    if j > 0 {
      NumberedFromOne(s, j - 1);
    }
    if m > j + 1 {
      NumberSetMembers(s, m - 1);
      assert false;
    }
  }

  /** The source's per-frame check `frameNumber == index + 1` passes throughout iff the numbers are 1..k. */
  lemma ContiguousIffNumbered(s: seq<Frame>)
    requires StrictlySorted(s)
    ensures Contiguous(s) <==> forall j :: 0 <= j < |s| ==> Number(s[j]) == j + 1
  {
    if Contiguous(s) {
      forall j | 0 <= j < |s| ensures Number(s[j]) == j + 1 {
        NumberedFromOne(s, j);
      }
    }
    if forall j :: 0 <= j < |s| ==> Number(s[j]) == j + 1 {
      forall k | k in NumberSet(s) ensures 1 <= k && (k > 1 ==> k - 1 in NumberSet(s)) {
        NumberSetMembers(s, k);
        var j :| 0 <= j < |s| && Number(s[j]) == k;
        if k > 1 {
          NumberSetMembers(s, k - 1);
          assert Number(s[j - 1]) == k - 1;
        }
      }
    }
  }

  /** How many cells the loop has taken after `m` slots: at most `numberOfCells`, none when that is negative. */
  function Filled(numberOfCells: int, m: nat): nat {
    if numberOfCells < 0 then 0 else if numberOfCells < m then numberOfCells else m
  }

  /**
   * The cell-voltage step of `readDataInternal`: de-duplicate and sort the
   * frames, require sorted frame i to carry number i + 1, take three cells
   * per frame until `numberOfCells` are taken, and require exactly that
   * many. None stands for a failed `check`.
   */
  method ReassembleCells(frames: seq<Frame>, numberOfCells: int) returns (r: Option<seq<real>>)
    ensures r == CellVoltagesSpec(frames, numberOfCells)
  {
    var sorted := SortByNumber(DistinctByNumber(frames));
    var result: seq<real> := [];
    for index := 0 to |sorted|
      invariant forall j :: 0 <= j < index ==> Number(sorted[j]) == j + 1
      invariant |result| == Filled(numberOfCells, 3 * index)
      invariant forall c :: 0 <= c < |result| ==> result[c] == CellValue(sorted[c / 3], c % 3)
    {
      var f := sorted[index];
      var frameNumber := Number(f);
      if frameNumber != index + 1 {
        NotNumberedFails(frames, sorted, index);
        return None;
      }
      result := TakeCells(f, index, result, numberOfCells);
    }
    NumberedResult(frames, sorted, numberOfCells, result);
    if |result| != numberOfCells {
      return None;
    }
    return Some(result);
  }

  /**
   * The `repeat(3)` step for sorted frame `index`: append the frame's cells
   * in slot order while fewer than `numberOfCells` are taken.
   */
  method TakeCells(f: Frame, index: nat, result: seq<real>, numberOfCells: int) returns (r: seq<real>)
    requires |result| == Filled(numberOfCells, 3 * index)
    ensures |r| == Filled(numberOfCells, 3 * index + 3) && |result| <= |r|
    ensures r[..|result|] == result
    ensures forall c :: |result| <= c < |r| ==> c / 3 == index && r[c] == CellValue(f, c % 3)
  {
    r := result;
    var i := 0;
    while i < 3
      invariant 0 <= i <= 3
      invariant |r| == Filled(numberOfCells, 3 * index + i) && |result| <= |r|
      invariant r[..|result|] == result
      invariant forall c :: |result| <= c < |r| ==> c / 3 == index && r[c] == CellValue(f, c % 3)
    {
      if |r| >= numberOfCells {
        break;
      }
      assert (3 * index + i) / 3 == index && (3 * index + i) % 3 == i;
      r := r + [CellValue(f, i)];
      i := i + 1;
    }
  }

  /** A sorted frame out of place means the numbers are not 1..k, so the reply is rejected. */
  lemma NotNumberedFails(frames: seq<Frame>, sorted: seq<Frame>, index: int)
    requires sorted == SortByNumber(DistinctByNumber(frames))
    requires 0 <= index < |sorted| && Number(sorted[index]) != index + 1
    ensures forall n :: CellVoltagesSpec(frames, n) == None
  {
    ReassemblyOrder(frames);
    ContiguousIffNumbered(sorted);
    ContiguousSameNumbers(sorted, frames);
  }

  /** Contiguity depends on the set of numbers only. */
  lemma ContiguousSameNumbers(a: seq<Frame>, b: seq<Frame>)
    requires NumberSet(a) == NumberSet(b)
    ensures Contiguous(a) <==> Contiguous(b)
  {
  }

  /** When position j holds number j + 1, the numbers present are exactly 1..|s|. */
  lemma InPlaceNumbers(s: seq<Frame>, k: int)
    requires forall j :: 0 <= j < |s| ==> Number(s[j]) == j + 1
    ensures k in NumberSet(s) <==> 1 <= k <= |s|
  {
    NumberSetMembers(s, k);
    if 1 <= k <= |s| {
      assert Number(s[k - 1]) == k;
    }
  }

  /**
   * When every sorted frame is in place, the numbers received are 1..|sorted|,
   * cell c falls in a received frame exactly when c < 3 * |sorted|, and that
   * frame is sorted[c / 3].
   */
  lemma NumberedCoverage(frames: seq<Frame>, sorted: seq<Frame>)
    requires sorted == SortByNumber(DistinctByNumber(frames))
    requires forall j :: 0 <= j < |sorted| ==> Number(sorted[j]) == j + 1
    ensures Contiguous(frames)
    ensures forall c :: 0 <= c ==> (c / 3 + 1 in NumberSet(frames) <==> c < 3 * |sorted|)
    ensures forall c :: 0 <= c < 3 * |sorted| ==>
      c / 3 + 1 in NumberSet(frames) && FirstWithNumber(frames, c / 3 + 1) == sorted[c / 3]
  {
    ReassemblyOrder(frames);
    ContiguousIffNumbered(sorted);
    ContiguousSameNumbers(sorted, frames);
    forall c | 0 <= c ensures c / 3 + 1 in NumberSet(frames) <==> c < 3 * |sorted| {
      InPlaceNumbers(sorted, c / 3 + 1);
    }
    forall c | 0 <= c < 3 * |sorted|
      ensures c / 3 + 1 in NumberSet(frames) && FirstWithNumber(frames, c / 3 + 1) == sorted[c / 3]
    {
      var j := c / 3;
      assert 0 <= j < |sorted|;
      assert Number(sorted[j]) == j + 1;
    }
  }

  /** When every sorted frame is in place and the loop took `n` cells, they are the specified ones. */
  lemma NumberedEnough(frames: seq<Frame>, sorted: seq<Frame>, result: seq<real>)
    requires sorted == SortByNumber(DistinctByNumber(frames))
    requires forall j :: 0 <= j < |sorted| ==> Number(sorted[j]) == j + 1
    requires |result| <= 3 * |sorted|
    requires forall c :: 0 <= c < |result| ==> result[c] == CellValue(sorted[c / 3], c % 3)
    ensures CellVoltagesSpec(frames, |result|) == Some(result)
  {
    NumberedCoverage(frames, sorted);
    var n := |result|;
    assert Covers(frames, n);
    var spec := CellVoltagesSpec(frames, n);
    forall c | 0 <= c < n ensures spec.value[c] == result[c] {
      assert FirstWithNumber(frames, c / 3 + 1) == sorted[c / 3];
    }
    assert spec.value == result;
  }

  /** When every sorted frame is in place but they carry fewer than `n` cells, the reply is rejected. */
  lemma NumberedShort(frames: seq<Frame>, sorted: seq<Frame>, n: int)
    requires sorted == SortByNumber(DistinctByNumber(frames))
    requires forall j :: 0 <= j < |sorted| ==> Number(sorted[j]) == j + 1
    requires 3 * |sorted| < n
    ensures CellVoltagesSpec(frames, n) == None
  {
    NumberedCoverage(frames, sorted);
    var c := 3 * |sorted|;
    assert c / 3 + 1 !in NumberSet(frames);
    assert !Covers(frames, n);
  }

  /** When every sorted frame is in place, the loop's cells are the specified ones, exactly when there are enough. */
  lemma NumberedResult(frames: seq<Frame>, sorted: seq<Frame>, n: int, result: seq<real>)
    requires sorted == SortByNumber(DistinctByNumber(frames))
    requires forall j :: 0 <= j < |sorted| ==> Number(sorted[j]) == j + 1
    requires |result| == Filled(n, 3 * |sorted|)
    requires forall c :: 0 <= c < |result| ==> result[c] == CellValue(sorted[c / 3], c % 3)
    ensures CellVoltagesSpec(frames, n) == if |result| == n then Some(result) else None
  {
    if |result| == n {
      NumberedEnough(frames, sorted, result);
    } else if n >= 0 {
      NumberedShort(frames, sorted, n);
    }
  }

  /**
   * A checksum-valid cell-voltage frame (as `exec` passes them on) with
   * number `k` whose three cells all read `hi * 256 + lo` millivolts (as
   * unsigned bytes); the raw bytes are not needed here.
   */
  function SampleFrame(k: Byte, hi: Byte, lo: Byte): Frame {
    ResponseFrame(0xa5, 1, 0x95, 8, [k, hi, lo, hi, lo, hi, lo, 0], true, seq(13, _ => 0))
  }

  lemma SampleFrameFields(k: Byte, hi: Byte, lo: Byte)
    requires 0 <= k
    ensures Number(SampleFrame(k, hi, lo)) == k
    ensures forall i :: 0 <= i < 3 ==>
      CellValue(SampleFrame(k, hi, lo), i) == (ToUnsignedInt(hi) * 256 + ToUnsignedInt(lo)) as real / 1000.0
  {
    var d := SampleFrame(k, hi, lo).data;
    assert d == [k, hi, lo, hi, lo, hi, lo, 0];
    forall i | 0 <= i < 3
      ensures ReadInt16Bits(d, 1 + 2 * i) == ToUnsignedInt(hi) * 256 + ToUnsignedInt(lo)
    {
      var r := ReadInt16Bits(d, 1 + 2 * i);
      assert d[1 + 2 * i] == hi && d[2 + 2 * i] == lo;
      assert r == (r / 256) * 256 + r % 256;
    }
  }

  /**
   * Frames numbered 2, 1, 2, 3 are accepted: the repeated 2 is dropped and
   * the first frame 2 (3.3 V cells) wins over the second (0 V cells).
   */
  lemma RepeatedFrameAccepted()
    ensures var fs := [SampleFrame(2, 12, -28), SampleFrame(1, 12, -28), SampleFrame(2, 0, 0), SampleFrame(3, 12, -28)];
      CellVoltagesSpec(fs, 8).Some? && CellVoltagesSpec(fs, 8).value[3] == 3.3
  {
    var f2, f1, g2, f3 := SampleFrame(2, 12, -28), SampleFrame(1, 12, -28), SampleFrame(2, 0, 0), SampleFrame(3, 12, -28);
    SampleFrameFields(2, 12, -28);
    SampleFrameFields(1, 12, -28);
    SampleFrameFields(2, 0, 0);
    SampleFrameFields(3, 12, -28);
    var fs := [f2, f1, g2, f3];
    assert NumberSet(fs) == {1, 2, 3} by {
      assert NumberSet([f3]) == {3} by { assert [f3][1..] == []; }
      assert NumberSet([g2, f3]) == {2, 3} by { assert [g2, f3][1..] == [f3]; }
      assert NumberSet([f1, g2, f3]) == {1, 2, 3} by { assert [f1, g2, f3][1..] == [g2, f3]; }
      assert fs[1..] == [f1, g2, f3];
    }
    assert Contiguous(fs);
    assert Covers(fs, 8);
    assert FirstWithNumber(fs, 2) == f2;
    assert CellValue(f2, 0) == 3.3;
  }

  /** Frames numbered 1 and 3 are rejected: frame 2 is missing. */
  lemma GapRejected(n: int)
    ensures CellVoltagesSpec([SampleFrame(1, 12, -28), SampleFrame(3, 12, -28)], n) == None
  {
    var f1, f3 := SampleFrame(1, 12, -28), SampleFrame(3, 12, -28);
    SampleFrameFields(1, 12, -28);
    SampleFrameFields(3, 12, -28);
    var fs := [f1, f3];
    assert NumberSet(fs) == {1, 3} by {
      assert NumberSet([f3]) == {3} by { assert [f3][1..] == []; }
      assert fs[1..] == [f3];
    }
    assert !Contiguous(fs) by {
      assert 3 in NumberSet(fs) && 2 !in NumberSet(fs);
    }
  }

  /** More cells than the frames carry are rejected, even when the numbering is right. */
  lemma TooFewFramesRejected()
    ensures CellVoltagesSpec([SampleFrame(1, 12, -28)], 4) == None
  {
    var fs := [SampleFrame(1, 12, -28)];
    SampleFrameFields(1, 12, -28);
    assert NumberSet(fs) == {1} by {
      assert fs[1..] == [];
    }
    assert 3 / 3 + 1 !in NumberSet(fs);
    assert !Covers(fs, 4);
  }
}
