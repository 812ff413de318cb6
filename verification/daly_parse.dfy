/**
 * `parseData` and the fault table `errorsCodes` (bms/DalyBmsConnection.kt):
 * one `BmsData` snapshot from the seven single-frame replies and the
 * reassembled cell voltages.
 */
module DalyParse {
  import opened ByteUtils
  import opened DalyFrames
  import opened BmsTypes
  import opened SoCEstimator
  import opened RealStats
  import Collections

  /** `BmStatus.values().firstOrNull { it.value == statusInt } ?: stationary`. */
  function StatusOf(statusInt: int): (s: BmStatus)
    ensures 0 <= statusInt <= 2 ==> StatusValue(s) == statusInt
    ensures !(0 <= statusInt <= 2) ==> s == Stationary
  {
    if statusInt == 1 then Charged else if statusInt == 2 then Discharged else Stationary
  }

  /** Every status survives being sent as its value and read back. */
  lemma StatusRoundTrip(s: BmStatus)
    ensures StatusOf(StatusValue(s)) == s
  {
  }

  /** One entry of the fault table: bit `bitN` of failure-data byte `byteN`. */
  datatype ErrorCode = ErrorCode(byteN: nat, bitN: nat, description: string)

  /** The description of bit `bitN` of failure byte `byteN`; "" where the table has no entry. */
  function Description(byteN: nat, bitN: nat): string {
    match (byteN, bitN)
    case (0, 0) => "one stage warning of unit over voltage"
    case (0, 1) => "one stage warning of unit over voltage"
    case (0, 2) => "one stage warning of unit over voltage"
    case (0, 3) => "two stage warning of unit over voltage"
    case (0, 4) => "Total voltage is too high One alarm"
    case (0, 5) => "Total voltage is too high Level two alarm"
    case (0, 6) => "Total voltage is too low One alarm"
    case (0, 7) => "Total voltage is too low Level two alarm"
    case (1, 0) => "Charging temperature too high. One alarm"
    case (1, 1) => "Charging temperature too high. Level two alarm"
    case (1, 2) => "Charging temperature too low. One alarm"
    case (1, 3) => "Charging temperature's too low. Level two alarm"
    case (1, 4) => "Discharge temperature is too high. One alarm"
    case (1, 5) => "Discharge temperature is too high. Level two alarm"
    case (1, 6) => "Discharge temperature is too low. One alarm"
    case (1, 7) => "Discharge temperature is too low. Level two alarm"
    case (2, 0) => "Charge over current. Level one alarm"
    case (2, 1) => "Charge over current, level two alarm"
    case (2, 2) => "Discharge over current. Level one alarm"
    case (2, 3) => "Discharge over current, level two alarm"
    case (2, 4) => "SOC is too high an alarm"
    case (2, 5) => "SOC is too high. Alarm Two"
    case (2, 6) => "SOC is too low. level one alarm"
    case (2, 7) => "SOC is too low. level two alarm"
    case (3, 0) => "Excessive differential pressure level one alarm"
    case (3, 1) => "Excessive differential pressure level two alar"
    case (3, 2) => "Excessive temperature difference level one alarm"
    case (3, 3) => "Excessive temperature difference level two alarm"
    case (4, 0) => "charging MOS overtemperature warning"
    case (4, 1) => "discharge MOS overtemperature warning"
    case (4, 2) => "discharge MOS temperature detection sensor failure"
    case (4, 3) => "discharge MOS temperature detection sensor failure"
    case (4, 4) => "charging MOS adhesion failure"
    case (4, 5) => "discharge MOS adhesion failure"
    case (4, 6) => "charging MOS breaker failure"
    case (4, 7) => "discharge MOS breaker failure"
    case (5, 0) => "AFE acquisition chip malfunction"
    case (5, 1) => "monomer collect drop off"
    case (5, 2) => "Single Temperature Sensor Fault"
    case (5, 3) => "EEPROM storage failures"
    case (5, 4) => "RTC clock malfunction"
    case (5, 5) => "Precharge Failure"
    case (5, 6) => "vehicle communications malfunction"
    case (5, 7) => "intranet communication module malfunction"
    case (6, 0) => "Current Module Failure"
    case (6, 1) => "main pressure detection module"
    case (6, 2) => "Short circuit protection failure"
    case (6, 3) => "Low Voltage No Charging"
    case _ => ""
  }

  /** The entries of failure byte `byteN`: one per bit below `width`. */
  function ByteRow(byteN: nat, width: nat): (r: seq<ErrorCode>)
    ensures |r| == width
    ensures forall i :: 0 <= i < |r| ==> r[i] == ErrorCode(byteN, i, Description(byteN, i))
  {
    seq(width, i requires 0 <= i < width => ErrorCode(byteN, i, Description(byteN, i)))
  }

  /** How many bits of failure byte `b` carry a fault. */
  function RowWidth(b: nat): nat {
    if b == 3 || b == 6 then 4 else 8
  }

  /** The position of an entry's bit among the 56 bits of failure bytes 0..6. */
  function BitIndex(e: ErrorCode): int {
    e.byteN * 8 + e.bitN
  }

  /** Entry `e` fits the failure frame: bytes 0..6, and only bits 0..3 of bytes 3 and 6. */
  predicate InFrame(e: ErrorCode) {
    e.byteN < 7 && e.bitN < (if e.byteN == 3 || e.byteN == 6 then 4 else 8)
  }

  /** A table prefix covering bytes below `next`: in the frame, bits strictly ascending. */
  predicate TableShape(codes: seq<ErrorCode>, next: nat) {
    (forall k :: 0 <= k < |codes| ==> InFrame(codes[k]) && BitIndex(codes[k]) < next * 8)
    && (forall i, j :: 0 <= i < j < |codes| ==> BitIndex(codes[i]) < BitIndex(codes[j]))
  }

  /** Appending the row of the next byte keeps the shape. */
  lemma AppendRow(codes: seq<ErrorCode>, byteN: nat, width: nat)
    requires TableShape(codes, byteN)
    requires byteN < 7 && width <= RowWidth(byteN)
    ensures TableShape(codes + ByteRow(byteN, width), byteN + 1)
  {
    var row := ByteRow(byteN, width);
    var all := codes + row;
    forall i, j | 0 <= i < j < |all| ensures BitIndex(all[i]) < BitIndex(all[j]) {
      if j >= |codes| {
        assert all[j] == row[j - |codes|];
        if i >= |codes| {
          assert all[i] == row[i - |codes|];
        }
      }
    }
  }

  /** `errorsCodes`, in the source's order: byte by byte, bit by bit. */
  const ErrorCodes: seq<ErrorCode> := TablePrefix(7)

  /** The rows of failure bytes 0..n-1, one after the other. */
  function TablePrefix(n: nat): seq<ErrorCode>
    requires n <= 7
  {
    if n == 0 then [] else TablePrefix(n - 1) + ByteRow(n - 1, RowWidth(n - 1))
  }

  /** How many entries bytes 0..n-1 carry together. */
  function Widths(n: nat): nat {
    if n == 0 then 0 else Widths(n - 1) + RowWidth(n - 1)
  }

  /** Every prefix of the table has the frame's shape and the entries its widths add up to. */
  lemma {:induction false} TablePrefixShape(n: nat)
    requires n <= 7
    ensures TableShape(TablePrefix(n), n) && |TablePrefix(n)| == Widths(n)
    decreases n
  {
    if n > 0 {
      var before, row := TablePrefix(n - 1), ByteRow(n - 1, RowWidth(n - 1));
      assert TablePrefix(n) == before + row;
      TablePrefixShape(n - 1);
      AppendRow(before, n - 1, RowWidth(n - 1));
      assert |before + row| == |before| + |row|;
    }
  }

  /**
   * The fault table has 48 entries inside the failure frame; every bit
   * appears at most once (it is a map); bytes 3 and 6 use only bits 0..3.
   */
  lemma ErrorCodesShape()
    ensures |ErrorCodes| == 48
    ensures forall k :: 0 <= k < |ErrorCodes| ==> InFrame(ErrorCodes[k])
    ensures forall i, j :: 0 <= i < j < |ErrorCodes| ==>
              (ErrorCodes[i].byteN, ErrorCodes[i].bitN) != (ErrorCodes[j].byteN, ErrorCodes[j].bitN)
  {
    TablePrefixShape(7);
    assert Widths(7) == 48;
  }

  /** `b.toUnsignedInt().and(1 shl bitN) > 0`. */
  predicate BitSet(b: Byte, bitN: nat)
    requires bitN < 8
  {
    (ToUnsignedInt(b) as bv8) & ((1 as bv8) << bitN) != 0
  }

  /** Bit `bitN` of a byte is set iff its unsigned value has a 1 in binary place `bitN`. */
  lemma BitSetIsBinaryDigit(b: Byte, bitN: nat)
    requires bitN < 8
    ensures BitSet(b, bitN) <==> (ToUnsignedInt(b) / Pow2(bitN)) % 2 == 1
  {
    var u := ToUnsignedInt(b);
    var x := u as bv8;
    assert x as int == u;
    BitOfBv8(x, bitN);
  }

  function Pow2(n: nat): (r: nat)
    ensures r > 0
  {
    if n == 0 then 1 else 2 * Pow2(n - 1)
  }

  /** Bit `n` of an 8-bit value, one mask at a time; each `MaskBit` lemma proves one mask alone, which keeps every bit-vector proof small. */
  lemma BitOfBv8(x: bv8, n: nat)
    requires n < 8
    ensures (x & ((1 as bv8) << n) != 0) <==> ((x as int) / Pow2(n)) % 2 == 1
  {
    if n == 0 {
      MaskBit0(x, n);
    } else if n == 1 {
      MaskBit1(x, n);
    } else if n == 2 {
      MaskBit2(x, n);
    } else if n == 3 {
      MaskBit3(x, n);
    } else if n == 4 {
      MaskBit4(x, n);
    } else if n == 5 {
      MaskBit5(x, n);
    } else if n == 6 {
      MaskBit6(x, n);
    } else {
      MaskBit7(x, n);
    }
  }

  lemma MaskBit0(x: bv8, n: nat)
    requires n == 0
    ensures (x & ((1 as bv8) << n) != 0) <==> ((x as int) / Pow2(n)) % 2 == 1
  {
    assert Pow2(n) == 1 && (1 as bv8) << n == 1;
  }

  lemma MaskBit1(x: bv8, n: nat)
    requires n == 1
    ensures (x & ((1 as bv8) << n) != 0) <==> ((x as int) / Pow2(n)) % 2 == 1
  {
    assert Pow2(n) == 2 && (1 as bv8) << n == 2;
  }

  lemma MaskBit2(x: bv8, n: nat)
    requires n == 2
    ensures (x & ((1 as bv8) << n) != 0) <==> ((x as int) / Pow2(n)) % 2 == 1
  {
    assert Pow2(n) == 4 && (1 as bv8) << n == 4;
  }

  lemma MaskBit3(x: bv8, n: nat)
    requires n == 3
    ensures (x & ((1 as bv8) << n) != 0) <==> ((x as int) / Pow2(n)) % 2 == 1
  {
    assert Pow2(n) == 8 && (1 as bv8) << n == 8;
  }

  lemma MaskBit4(x: bv8, n: nat)
    requires n == 4
    ensures (x & ((1 as bv8) << n) != 0) <==> ((x as int) / Pow2(n)) % 2 == 1
  {
    assert Pow2(n) == 16 && (1 as bv8) << n == 16;
  }

  lemma MaskBit5(x: bv8, n: nat)
    requires n == 5
    ensures (x & ((1 as bv8) << n) != 0) <==> ((x as int) / Pow2(n)) % 2 == 1
  {
    assert Pow2(n) == 32 && (1 as bv8) << n == 32;
  }

  lemma MaskBit6(x: bv8, n: nat)
    requires n == 6
    ensures (x & ((1 as bv8) << n) != 0) <==> ((x as int) / Pow2(n)) % 2 == 1
  {
    assert Pow2(n) == 64 && (1 as bv8) << n == 64;
  }

  lemma MaskBit7(x: bv8, n: nat)
    requires n == 7
    ensures (x & ((1 as bv8) << n) != 0) <==> ((x as int) / Pow2(n)) % 2 == 1
  {
    assert Pow2(n) == 128 && (1 as bv8) << n == 128;
  }

  /** Every entry addresses one of the data bytes. */
  predicate Addressable(data: seq<Byte>, codes: seq<ErrorCode>) {
    forall k :: 0 <= k < |codes| ==> codes[k].byteN < |data| && codes[k].bitN < 8
  }

  /** `errorsCodes.mapNotNull { ... }`: the descriptions whose bit is set, in table order. */
  function ActiveErrors(data: seq<Byte>, codes: seq<ErrorCode>): (r: seq<string>)
    requires Addressable(data, codes)
    ensures |r| <= |codes|
  {
    if codes == [] then []
    else
      var rest := ActiveErrors(data, codes[1..]);
      if BitSet(data[codes[0].byteN], codes[0].bitN) then [codes[0].description] + rest else rest
  }

  /** A description is reported iff some entry with that description has its bit set. */
  lemma {:induction false} ActiveErrorsMembers(data: seq<Byte>, codes: seq<ErrorCode>, s: string)
    requires Addressable(data, codes)
    ensures s in ActiveErrors(data, codes) <==>
      exists k :: 0 <= k < |codes| && codes[k].description == s && BitSet(data[codes[k].byteN], codes[k].bitN)
    decreases |codes|
  {
    if codes != [] {
      ActiveErrorsMembers(data, codes[1..], s);
      if exists k :: 0 <= k < |codes| && codes[k].description == s && BitSet(data[codes[k].byteN], codes[k].bitN) {
        var k :| 0 <= k < |codes| && codes[k].description == s && BitSet(data[codes[k].byteN], codes[k].bitN);
        if k > 0 {
          assert codes[1..][k - 1] == codes[k];
        }
      }
      if s in ActiveErrors(data, codes[1..]) {
        var k :| 0 <= k < |codes| - 1 && codes[1..][k].description == s
          && BitSet(data[codes[1..][k].byteN], codes[1..][k].bitN);
        assert codes[k + 1] == codes[1..][k];
      }
    }
  }

  /** Entry `c` is raised in `data`: its byte exists and its bit is set. */
  predicate Raised(data: seq<Byte>, c: ErrorCode) {
    c.byteN < |data| && c.bitN < 8 && BitSet(data[c.byteN], c.bitN)
  }

  /** The descriptions of table entries, in order. */
  function Descriptions(cs: seq<ErrorCode>): seq<string> {
    seq(|cs|, i requires 0 <= i < |cs| => cs[i].description)
  }

  /**
   * `mapNotNull` is `filter` then `map`: the reported faults are the
   * descriptions of the raised entries, in table order, an entry repeated
   * in the table reported once per raised entry.
   */
  lemma {:induction false} ActiveErrorsInOrder(data: seq<Byte>, codes: seq<ErrorCode>, raised: ErrorCode -> bool)
    requires Addressable(data, codes)
    requires forall c :: raised(c) == Raised(data, c)
    ensures ActiveErrors(data, codes) == Descriptions(Collections.Filter(codes, raised))
    decreases |codes|
  {
    if codes != [] {
      ActiveErrorsInOrder(data, codes[1..], raised);
      var head := if raised(codes[0]) then [codes[0]] else [];
      var tail := Collections.Filter(codes[1..], raised);
      assert Collections.Filter(codes, raised) == head + tail;
      assert Descriptions(head + tail) == Descriptions(head) + Descriptions(tail);
    }
  }

  /** With no bit set, no fault is reported. */
  lemma {:induction false} NoFaultBits(data: seq<Byte>, codes: seq<ErrorCode>)
    requires Addressable(data, codes)
    requires forall i :: 0 <= i < |data| ==> data[i] == 0
    ensures ActiveErrors(data, codes) == []
    decreases |codes|
  {
    if codes != [] {
      NoFaultBits(data, codes[1..]);
    }
  }

  /** With every bit set, every entry is reported, in table order. */
  lemma {:induction false} AllFaultBits(data: seq<Byte>, codes: seq<ErrorCode>)
    requires Addressable(data, codes)
    requires forall i :: 0 <= i < |data| ==> data[i] == -1
    ensures ActiveErrors(data, codes) == seq(|codes|, k requires 0 <= k < |codes| => codes[k].description)
    decreases |codes|
  {
    if codes != [] {
      AllFaultBits(data, codes[1..]);
      var b := codes[0].bitN;
      assert ToUnsignedInt(data[codes[0].byteN]) == 255;
      assert (255 as bv8) & ((1 as bv8) << b) != 0;
    }
  }

  /**
   * The reported faults of a failure reply: the descriptions of the
   * entries of `errorsCodes` whose bit is set, in table order.
   */
  function Faults(failureCodes: Frame): (r: seq<string>)
    ensures forall s :: s in r <==>
              exists k :: 0 <= k < |ErrorCodes| && ErrorCodes[k].description == s
                && BitSet(failureCodes.data[ErrorCodes[k].byteN], ErrorCodes[k].bitN)
  {
    ErrorCodesShape();
    var r := ActiveErrors(failureCodes.data, ErrorCodes);
    forall s ensures s in r <==>
              exists k :: 0 <= k < |ErrorCodes| && ErrorCodes[k].description == s
                && BitSet(failureCodes.data[ErrorCodes[k].byteN], ErrorCodes[k].bitN)
    {
      ActiveErrorsMembers(failureCodes.data, ErrorCodes, s);
    }
    r
  }

  /** The faults come in table order, once per raised entry, as `mapNotNull` lists them. */
  lemma FaultsInOrder(failureCodes: Frame)
    ensures Faults(failureCodes)
            == Descriptions(Collections.Filter(ErrorCodes, (c: ErrorCode) => Raised(failureCodes.data, c)))
  {
    ErrorCodesShape();
    ActiveErrorsInOrder(failureCodes.data, ErrorCodes, (c: ErrorCode) => Raised(failureCodes.data, c));
  }

  /**
   * The estimated state of charge of every cell, and their average.
   * `parseData` passes `current < 0` as the estimator's `charging` flag.
   */
  function CellEstimates(cellVoltages: seq<real>, charging: bool): (r: (seq<real>, real))
    ensures |r.0| == |cellVoltages| && AllWithin(r.0, 0.0, 100.0)
    ensures forall i :: 0 <= i < |cellVoltages| ==> r.0[i] == Estimate(cellVoltages[i], charging)
    ensures r.1 == Average(r.0) && 0.0 <= r.1 <= 100.0
  {
    var estimates := seq(|cellVoltages|, i requires 0 <= i < |cellVoltages| => Estimate(cellVoltages[i], charging));
    assert 0.0 <= Average(estimates) <= 100.0 by {
      if estimates != [] { AverageWithin(estimates, 0.0, 100.0); }
    }
    (estimates, Average(estimates))
  }

  /**
   * `parseData`: the snapshot the seven replies and the cell voltages
   * decode to. Offsets index the 8 data bytes of each frame; `now` is the
   * timestamp the source takes from the clock.
   */
  function ParseData(
    bmsId: BmsId, now: real,
    voutIoutSoc: Frame, minMaxCell: Frame, minMaxTemp: Frame,
    chargeDischargeStatus: Frame, statusInfo: Frame,
    cellVoltages: seq<real>, failureCodes: Frame): (r: BmsData)
    ensures r.bmsId == bmsId && r.timestamp == now && r.cellVoltages == cellVoltages
    ensures 0.0 <= r.voltage <= 6553.5 && -3000.0 <= r.current <= 3553.5 && 0.0 <= r.soc <= 6553.5
    ensures 0.0 <= r.maxCellVoltage <= 65.535 && 0.0 <= r.minCellVoltage <= 65.535
    ensures -168 <= r.maxTemp <= 87 && -168 <= r.minTemp <= 87
    ensures r.maxCellVoltage == ReadInt16Bits(minMaxCell.data, 0) as real / 1000.0
    ensures r.minCellVoltage == ReadInt16Bits(minMaxCell.data, 3) as real / 1000.0
    ensures r.maxCellNumber == minMaxCell.data[2] && r.minCellNumber == minMaxCell.data[5]
    ensures r.maxTemp == minMaxTemp.data[0] as int - 40 && r.minTemp == minMaxTemp.data[2] as int - 40
    ensures r.maxTempCellNumber == minMaxTemp.data[1] && r.minTempCellNumber == minMaxTemp.data[3]
    ensures r.status == StatusOf(chargeDischargeStatus.data[0])
    ensures r.mosfetCharging <==> chargeDischargeStatus.data[1] == 1
    ensures r.mosfetDischarging <==> chargeDischargeStatus.data[2] == 1
    ensures 0 <= r.lifeCycles <= 255 && 0 <= r.cycles <= 65535
    ensures r.lifeCycles == ToUnsignedInt(chargeDischargeStatus.data[3])
    ensures r.remainingCapacity == ReadInt32Bits(chargeDischargeStatus.data, 4) as real / 1000.0
    ensures r.chargerStatus <==> statusInfo.data[2] == 1
    ensures r.loadStatus <==> statusInfo.data[3] == 1
    ensures r.cycles == ReadInt16Bits(statusInfo.data, 5)
    ensures |r.socEstimates| == |cellVoltages| && AllWithin(r.socEstimates, 0.0, 100.0)
    ensures forall i :: 0 <= i < |cellVoltages| ==> r.socEstimates[i] == Estimate(cellVoltages[i], r.current < 0.0)
    ensures r.avgEstimatedSoc == Average(r.socEstimates) && 0.0 <= r.avgEstimatedSoc <= 100.0
    ensures r.errors == Faults(failureCodes)
  {
    var current := (ReadInt16Bits(voutIoutSoc.data, 4) as real - 30000.0) / 10.0;
    var estimates := CellEstimates(cellVoltages, current < 0.0);
    BmsData(
      bmsId := bmsId,
      timestamp := now,
      voltage := ReadInt16Bits(voutIoutSoc.data, 0) as real / 10.0,
      current := current,
      soc := ReadInt16Bits(voutIoutSoc.data, 6) as real / 10.0,
      avgEstimatedSoc := estimates.1,
      maxCellVoltage := ReadInt16Bits(minMaxCell.data, 0) as real / 1000.0,
      maxCellNumber := minMaxCell.data[2],
      minCellVoltage := ReadInt16Bits(minMaxCell.data, 3) as real / 1000.0,
      minCellNumber := minMaxCell.data[5],
      maxTemp := minMaxTemp.data[0] as int - 40,
      maxTempCellNumber := minMaxTemp.data[1],
      minTemp := minMaxTemp.data[2] as int - 40,
      minTempCellNumber := minMaxTemp.data[3],
      status := StatusOf(chargeDischargeStatus.data[0]),
      mosfetCharging := chargeDischargeStatus.data[1] == 1,
      mosfetDischarging := chargeDischargeStatus.data[2] == 1,
      lifeCycles := ToUnsignedInt(chargeDischargeStatus.data[3]),
      remainingCapacity := ReadInt32Bits(chargeDischargeStatus.data, 4) as real / 1000.0,
      chargerStatus := statusInfo.data[2] == 1,
      loadStatus := statusInfo.data[3] == 1,
      cycles := ReadInt16Bits(statusInfo.data, 5),
      cellVoltages := cellVoltages,
      socEstimates := estimates.0,
      errors := Faults(failureCodes))
  }

  /**
   * Pack voltage, current and state of charge decode from the big-endian
   * deci-units the BMS sends, the current offset by 30000 (3000 A).
   */
  lemma VoutIoutSocDecodes(
    bmsId: BmsId, now: real,
    voutIoutSoc: Frame, minMaxCell: Frame, minMaxTemp: Frame,
    chargeDischargeStatus: Frame, statusInfo: Frame,
    cellVoltages: seq<real>, failureCodes: Frame,
    deciVolts: int, deciAmps: int, deciPercent: int)
    requires 0 <= deciVolts < TwoTo16 && -30000 <= deciAmps < TwoTo16 - 30000 && 0 <= deciPercent < TwoTo16
    requires voutIoutSoc.data[0..2] == Int16Bytes(deciVolts)
    requires voutIoutSoc.data[4..6] == Int16Bytes(deciAmps + 30000)
    requires voutIoutSoc.data[6..8] == Int16Bytes(deciPercent)
    ensures var r := ParseData(bmsId, now, voutIoutSoc, minMaxCell, minMaxTemp,
                               chargeDischargeStatus, statusInfo, cellVoltages, failureCodes);
            r.voltage == deciVolts as real / 10.0
            && r.current == deciAmps as real / 10.0
            && r.soc == deciPercent as real / 10.0
  {
    var d := voutIoutSoc.data;
    Int16RoundTrip(deciVolts);
    Int16RoundTrip(deciAmps + 30000);
    Int16RoundTrip(deciPercent);
    ReadShifted(d, 0, Int16Bytes(deciVolts));
    ReadShifted(d, 4, Int16Bytes(deciAmps + 30000));
    ReadShifted(d, 6, Int16Bytes(deciPercent));
  }

  /**
   * The cell extremes decode from millivolts, and the temperatures from
   * degrees Celsius offset by 40, for every temperature the signed byte
   * carries unchanged (-40..87 °C).
   */
  lemma ExtremesDecode(
    bmsId: BmsId, now: real,
    voutIoutSoc: Frame, minMaxCell: Frame, minMaxTemp: Frame,
    chargeDischargeStatus: Frame, statusInfo: Frame,
    cellVoltages: seq<real>, failureCodes: Frame,
    maxMillivolts: int, minMillivolts: int, maxCelsius: int, minCelsius: int)
    requires 0 <= maxMillivolts < TwoTo16 && 0 <= minMillivolts < TwoTo16
    requires -40 <= maxCelsius <= 87 && -40 <= minCelsius <= 87
    requires minMaxCell.data[0..2] == Int16Bytes(maxMillivolts)
    requires minMaxCell.data[3..5] == Int16Bytes(minMillivolts)
    requires minMaxTemp.data[0] == ToByte(maxCelsius + 40) && minMaxTemp.data[2] == ToByte(minCelsius + 40)
    ensures var r := ParseData(bmsId, now, voutIoutSoc, minMaxCell, minMaxTemp,
                               chargeDischargeStatus, statusInfo, cellVoltages, failureCodes);
            r.maxCellVoltage == maxMillivolts as real / 1000.0
            && r.minCellVoltage == minMillivolts as real / 1000.0
            && r.maxTemp == maxCelsius && r.minTemp == minCelsius
  {
    Int16RoundTrip(maxMillivolts);
    Int16RoundTrip(minMillivolts);
    ReadShifted(minMaxCell.data, 0, Int16Bytes(maxMillivolts));
    ReadShifted(minMaxCell.data, 3, Int16Bytes(minMillivolts));
  }

  /**
   * Status, remaining capacity (signed milliampere-hours) and cycle count
   * decode from the values the BMS sends.
   */
  lemma StatusFieldsDecode(
    bmsId: BmsId, now: real,
    voutIoutSoc: Frame, minMaxCell: Frame, minMaxTemp: Frame,
    chargeDischargeStatus: Frame, statusInfo: Frame,
    cellVoltages: seq<real>, failureCodes: Frame,
    status: BmStatus, milliampHours: int, cycles: int)
    requires -TwoTo31 <= milliampHours < TwoTo31 && 0 <= cycles < TwoTo16
    requires chargeDischargeStatus.data[0] == StatusValue(status)
    requires chargeDischargeStatus.data[4..8] == Int32Bytes(milliampHours)
    requires statusInfo.data[5..7] == Int16Bytes(cycles)
    ensures var r := ParseData(bmsId, now, voutIoutSoc, minMaxCell, minMaxTemp,
                               chargeDischargeStatus, statusInfo, cellVoltages, failureCodes);
            r.status == status
            && r.remainingCapacity == milliampHours as real / 1000.0
            && r.cycles == cycles
  {
    StatusRoundTrip(status);
    Int32RoundTrip(milliampHours);
    Int16RoundTrip(cycles);
    ReadShifted32(chargeDischargeStatus.data, 4, Int32Bytes(milliampHours));
    ReadShifted(statusInfo.data, 5, Int16Bytes(cycles));
  }

  /** A 32-bit read only looks at its four bytes. */
  lemma ReadShifted32(buf: seq<Byte>, offset: int, four: seq<Byte>)
    requires 0 <= offset && offset + 4 <= |buf| && buf[offset..offset + 4] == four
    ensures ReadInt32Bits(buf, offset) == ReadInt32Bits(four, 0)
  {
    assert buf[offset] == four[0] && buf[offset + 1] == four[1];
    assert buf[offset + 2] == four[2] && buf[offset + 3] == four[3];
  }

  /** A 16-bit read only looks at its two bytes. */
  lemma ReadShifted(buf: seq<Byte>, offset: int, two: seq<Byte>)
    requires 0 <= offset && offset + 2 <= |buf| && buf[offset..offset + 2] == two
    ensures ReadInt16Bits(buf, offset) == ReadInt16Bits(two, 0)
  {
    assert buf[offset] == two[0] && buf[offset + 1] == two[1];
  }

  /** A reply with no failure bit set reports no fault; one with all bits set reports all 48. */
  lemma FaultsExtremes(failureCodes: Frame)
    ensures (forall i :: 0 <= i < |failureCodes.data| ==> failureCodes.data[i] == 0) ==> Faults(failureCodes) == []
    ensures (forall i :: 0 <= i < |failureCodes.data| ==> failureCodes.data[i] == -1) ==>
              Faults(failureCodes) == seq(|ErrorCodes|, k requires 0 <= k < |ErrorCodes| => ErrorCodes[k].description)
  {
    ErrorCodesShape();
    if forall i :: 0 <= i < |failureCodes.data| ==> failureCodes.data[i] == 0 {
      NoFaultBits(failureCodes.data, ErrorCodes);
    }
    if forall i :: 0 <= i < |failureCodes.data| ==> failureCodes.data[i] == -1 {
      AllFaultBits(failureCodes.data, ErrorCodes);
    }
  }
}
