/**
 * The older revision of the BMS connection (bms/BmsConnection.kt): the
 * same serial framing, but requests sent from host address 0x80, one
 * write and one read per command with no retry and no frame check, and
 * replies decoded at fixed offsets of the raw bytes.
 *
 * The port is the same oracle as in DalyConnection: `input` is what the
 * serial line will deliver, `written` the requests sent so far.
 */
module LegacyConnection {
  import opened Wrappers
  import opened ByteUtils
  import opened DalyWire
  import DalyParse
  import BmsTypes
  import DalyFrames
  import DalyConnection
  import Collections

  /** The `DalyBmsCommand` enum of this revision. */
  datatype Command =
    | VoutIoutSoc | MinMaxCellVoltage | MinMaxTemperature | DischargeChargeMosStatus
    | StatusInfo | CellVoltages | CellTemperature | CellBalanceState | FailureCodes
    | DischrgFet | ChrgFet | BmsReset

  function CommandId(c: Command): (id: int)
    ensures 0 <= id <= 0xff
  {
    match c
    case VoutIoutSoc => 0x90
    case MinMaxCellVoltage => 0x91
    case MinMaxTemperature => 0x92
    case DischargeChargeMosStatus => 0x93
    case StatusInfo => 0x94
    case CellVoltages => 0x95
    case CellTemperature => 0x96
    case CellBalanceState => 0x97
    case FailureCodes => 0x98
    case DischrgFet => 0xd9
    case ChrgFet => 0xda
    case BmsReset => 0x00
  }

  /** No two commands share an id. */
  lemma CommandIdInjective(a: Command, b: Command)
    ensures CommandId(a) == CommandId(b) <==> a == b
  {
  }

  /** `responseFrames`: how many 13-byte frames the reply to a command has. */
  function ResponseFrames(c: Command): nat {
    if c == CellVoltages then 11 else 1
  }

  /** How many bytes `exec` asks `read` for. */
  function ReadLength(c: Command): nat {
    DalyFrames.FrameSize * ResponseFrames(c)
  }

  /** The cell-voltage reply is read as 143 bytes, every other reply as one 13-byte frame. */
  lemma ReadLengths(c: Command)
    ensures ReadLength(c) == if c == CellVoltages then 143 else 13
    ensures ReadLength(c) <= DalyConnection.RxBufSize
  {
  }

  /** The host address this revision sends from. */
  const HostAddress: int := 0x80

  /** Bytes 0..11 of a request: start byte, host 0x80, command id, length 8, then eight zeros. */
  function RequestBody(cmd: Command): (b: seq<Byte>)
    ensures |b| == 12
  {
    [ToByte(DalyFrames.StartByte), ToByte(HostAddress), ToByte(CommandId(cmd)), ToByte(DalyFrames.DataLength),
     0, 0, 0, 0, 0, 0, 0, 0]
  }

  /** The request for a command: its body, then the checksum of the body. */
  function RequestFrame(cmd: Command): (f: seq<Byte>)
    ensures |f| == DalyFrames.FrameSize
  {
    RequestBody(cmd) + [Checksum(RequestBody(cmd))]
  }

  /** `toSerialBytes`: fills a zeroed 13-byte buffer and closes it with the checksum of bytes 0..11. */
  method ToSerialBytes(cmd: Command) returns (r: seq<Byte>)
    ensures r == RequestFrame(cmd)
  {
    var buf := new Byte[13](_ => 0);
    ghost var zeros := buf[..];
    PutHeader(buf, cmd);
    var body := buf[..12];
    assert buf[4..12] == zeros[4..12] by {
      assert buf[4..12] == buf[4..][..8] && zeros[4..12] == zeros[4..][..8];
    }
    assert body == buf[..4] + buf[4..12];
    assert body == RequestBody(cmd);
    var checksum := DalyFrames.ComputeChecksum(body);
    assert body[..12] == body;
    buf[12] := checksum;
    assert buf[..] == body + [checksum];
    r := buf[..];
  }

  /** The four header assignments of `toSerialBytes`. */
  method PutHeader(buf: array<Byte>, cmd: Command)
    requires buf.Length == 13
    modifies buf
    ensures buf[..4] == RequestBody(cmd)[..4] && buf[4..] == old(buf[4..])
  {
    buf[0] := ToByte(DalyFrames.StartByte);
    buf[1] := ToByte(HostAddress);
    buf[2] := ToByte(CommandId(cmd));
    buf[3] := ToByte(DalyFrames.DataLength);
  }

  /**
   * Every request of this revision has the fixed layout, carries no
   * payload, and is a frame whose checksum is valid.
   */
  lemma RequestLayout(cmd: Command)
    ensures var f := RequestFrame(cmd);
      && ToUnsignedInt(f[0]) == 0xa5 && ToUnsignedInt(f[1]) == 0x80
      && ToUnsignedInt(f[2]) == CommandId(cmd) && f[3] == 8
      && (forall k :: 4 <= k < 12 ==> f[k] == 0)
      && ToUnsignedInt(f[12]) == UnsignedSum(f[..12]) % 256
      && DalyFrames.FrameOf(f).isChecksumValid && DalyFrames.FrameOf(f).hostAddr == 0x80
  {
    var f := RequestFrame(cmd);
    var body := RequestBody(cmd);
    assert f[..12] == body;
    ChecksumIsSumMod256(body);
  }

  /**
   * `exec`: one write of the request, then one read of 13 bytes per
   * expected frame. Whatever arrived is returned, however short.
   */
  function ExecSpec(p: DalyConnection.Port, cmd: Command): (r: (seq<Byte>, DalyConnection.Port))
    ensures |r.0| <= ReadLength(cmd)
    ensures r.1.written == p.written + [RequestFrame(cmd)]
    ensures r.0 + AllData(r.1.input) == AllData(p.input)
  {
    var (bytes, rest) := Drain(p.input, ReadLength(cmd));
    DrainConserves(p.input, ReadLength(cmd));
    (bytes, DalyConnection.Port(rest, p.written + [RequestFrame(cmd)]))
  }

  /** One snapshot of a pack, as this revision decodes it (no timestamp, no SoC estimates). */
  datatype BmsData = BmsData(
    bmsId: BmsTypes.BmsId,
    voltage: real,
    current: real,
    soc: real,
    maxCellVoltage: real,
    maxCellNumber: int,
    minCellVoltage: real,
    minCellNumber: int,
    maxTemp: int,
    maxTempCellNumber: int,
    minTemp: int,
    minTempCellNumber: int,
    status: BmsTypes.BmStatus,
    mosfetCharging: bool,
    mosfetDischarging: bool,
    lifeCycles: int,
    remainingCapacity: real,
    chargerStatus: bool,
    loadStatus: bool,
    cycles: int,
    cellVoltages: seq<real>,
    errors: seq<string>)

  /** The offset of cell `c`'s two bytes in the raw cell-voltage reply: frame c / 3, data slot c % 3. */
  function CellOffset(c: nat): nat {
    13 * (c / 3) + 5 + 2 * (c % 3)
  }

  /** `(0 until frames).flatMap { ... }`: three raw 16-bit values per frame, in frame order. */
  function Triples(cells: seq<Byte>, frames: nat): (r: seq<real>)
    requires frames <= 6 && |cells| >= 76
  {
    if frames == 0 then []
    else
      var base := 13 * (frames - 1);
      Triples(cells, frames - 1)
        + [ReadInt16Bits(cells, base + 5) as real, ReadInt16Bits(cells, base + 7) as real,
           ReadInt16Bits(cells, base + 9) as real]
  }

  /** The flattened list holds, at index c, the raw value at `CellOffset(c)`. */
  lemma {:induction false} TriplesAt(cells: seq<Byte>, frames: nat)
    requires frames <= 6 && |cells| >= 76
    ensures |Triples(cells, frames)| == 3 * frames
    ensures forall c :: 0 <= c < 3 * frames ==> Triples(cells, frames)[c] == ReadInt16Bits(cells, CellOffset(c)) as real
  {
    if frames > 0 {
      TriplesAt(cells, frames - 1);
      var prev := Triples(cells, frames - 1);
      var all := Triples(cells, frames);
      forall c | 0 <= c < 3 * frames
        ensures all[c] == ReadInt16Bits(cells, CellOffset(c)) as real
      {
        if c < 3 * (frames - 1) {
          assert all[c] == prev[c];
        } else {
          assert c / 3 == frames - 1;
        }
      }
    }
  }

  /**
   * The cell voltages of this revision: the raw millivolt values of the
   * first 16 cells, taken at fixed offsets with no check of frame number
   * or checksum.
   */
  function RawCells(cells: seq<Byte>): (r: seq<real>)
    requires |cells| >= 76
    ensures |r| == 16
    ensures forall c :: 0 <= c < 16 ==> r[c] == ReadInt16Bits(cells, CellOffset(c)) as real
    ensures forall c :: 0 <= c < 16 ==> 0.0 <= r[c] < TwoTo16 as real
  {
    TriplesAt(cells, 6);
    Triples(cells, 6)[..16]
  }

  /**
   * Only the voltage bytes matter: two replies that agree on them give the
   * same cells, whatever their start bytes, frame numbers and checksums.
   */
  lemma RawCellsIgnoreFraming(cells: seq<Byte>, other: seq<Byte>)
    requires |cells| >= 76 && |other| >= 76
    requires forall c :: 0 <= c < 16 ==>
      cells[CellOffset(c)] == other[CellOffset(c)] && cells[CellOffset(c) + 1] == other[CellOffset(c) + 1]
    ensures RawCells(cells) == RawCells(other)
  {
    var a, b := RawCells(cells), RawCells(other);
    forall c | 0 <= c < 16
      ensures a[c] == b[c]
    {
      assert cells[CellOffset(c)] == other[CellOffset(c)];
      assert cells[CellOffset(c) + 1] == other[CellOffset(c) + 1];
    }
  }

  /** A cell whose two bytes carry `mv` big-endian decodes to `mv` itself: millivolts, not volts. */
  lemma RawCellIsMillivolts(cells: seq<Byte>, c: nat, mv: int)
    requires |cells| >= 76 && c < 16 && 0 <= mv < TwoTo16
    requires cells[CellOffset(c)..CellOffset(c) + 2] == Int16Bytes(mv)
    ensures RawCells(cells)[c] == mv as real
  {
    Int16RoundTrip(mv);
    DalyParse.ReadShifted(cells, CellOffset(c), Int16Bytes(mv));
  }

  /** The fault table read at raw offsets: entry (byte n, bit b) looks at raw byte n + 4. */
  function RawFaults(failureCodes: seq<Byte>): (r: seq<string>)
    requires |failureCodes| >= 11
    ensures |r| <= |DalyParse.ErrorCodes|
  {
    DalyParse.ErrorCodesShape();
    DalyParse.ActiveErrors(failureCodes[4..], DalyParse.ErrorCodes)
  }

  /** An entry (byte n, bit b) is raised when bit b of raw byte n + 4 is set. */
  predicate RawRaised(failureCodes: seq<Byte>, c: DalyParse.ErrorCode) {
    c.byteN + 4 < |failureCodes| && c.bitN < 8 && DalyParse.BitSet(failureCodes[c.byteN + 4], c.bitN)
  }

  /** A description is reported iff the bit of some entry with it is set in raw byte n + 4. */
  lemma RawFaultsMembers(failureCodes: seq<Byte>, s: string)
    requires |failureCodes| >= 11
    ensures s in RawFaults(failureCodes) <==>
      exists k :: 0 <= k < |DalyParse.ErrorCodes| && DalyParse.ErrorCodes[k].description == s
        && RawRaised(failureCodes, DalyParse.ErrorCodes[k])
  {
    var codes := DalyParse.ErrorCodes;
    DalyParse.ErrorCodesShape();
    assert forall k :: 0 <= k < |codes| ==> codes[k].byteN + 4 < |failureCodes| && codes[k].bitN < 8;
    ShiftedMembers(failureCodes, codes, s);
  }

  /** Reading the table at data offset n of the bytes from raw offset 4 is reading raw byte n + 4. */
  lemma ShiftedMembers(failureCodes: seq<Byte>, codes: seq<DalyParse.ErrorCode>, s: string)
    requires |failureCodes| >= 4
    requires forall k :: 0 <= k < |codes| ==> codes[k].byteN + 4 < |failureCodes| && codes[k].bitN < 8
    ensures DalyParse.Addressable(failureCodes[4..], codes)
    ensures s in DalyParse.ActiveErrors(failureCodes[4..], codes) <==>
      exists k :: 0 <= k < |codes| && codes[k].description == s && RawRaised(failureCodes, codes[k])
  {
    var data := failureCodes[4..];
    DalyParse.ActiveErrorsMembers(data, codes, s);
    forall k | 0 <= k < |codes|
      ensures data[codes[k].byteN] == failureCodes[codes[k].byteN + 4]
    {
    }
  }

  /** The faults come in table order, once per raised entry, as `mapNotNull` lists them. */
  lemma RawFaultsInOrder(failureCodes: seq<Byte>)
    requires |failureCodes| >= 11
    ensures RawFaults(failureCodes) == DalyParse.Descriptions(
              Collections.Filter(DalyParse.ErrorCodes, (c: DalyParse.ErrorCode) => RawRaised(failureCodes, c)))
  {
    DalyParse.ErrorCodesShape();
    var data := failureCodes[4..];
    var raised := (c: DalyParse.ErrorCode) => RawRaised(failureCodes, c);
    forall c ensures raised(c) == DalyParse.Raised(data, c) {
      if c.byteN < |data| {
        assert data[c.byteN] == failureCodes[c.byteN + 4];
      }
    }
    DalyParse.ActiveErrorsInOrder(data, DalyParse.ErrorCodes, raised);
  }

  /** The replies are long enough for every offset `parseData` reads; otherwise it throws. */
  predicate Decodable(
    voutIoutSoc: seq<Byte>, minMaxCell: seq<Byte>, minMaxTemp: seq<Byte>,
    chargeDischargeStatus: seq<Byte>, statusInfo: seq<Byte>,
    cellVoltages: seq<Byte>, failureCodes: seq<Byte>)
  {
    && |voutIoutSoc| >= 12 && |minMaxCell| >= 10 && |minMaxTemp| >= 8
    && |chargeDischargeStatus| >= 12 && |statusInfo| >= 11
    && |cellVoltages| >= 76 && |failureCodes| >= 11
  }

  /**
   * `BmsData.parseData` of this revision, on the raw replies. None stands
   * for the exception a short reply raises, which `readData` turns into
   * null.
   */
  function ParseData(
    bmsId: BmsTypes.BmsId,
    voutIoutSoc: seq<Byte>, minMaxCell: seq<Byte>, minMaxTemp: seq<Byte>,
    chargeDischargeStatus: seq<Byte>, statusInfo: seq<Byte>,
    cellVoltages: seq<Byte>, failureCodes: seq<Byte>): (r: Option<BmsData>)
    ensures r.Some? <==> Decodable(voutIoutSoc, minMaxCell, minMaxTemp, chargeDischargeStatus,
                                   statusInfo, cellVoltages, failureCodes)
    ensures r.Some? ==> var d := r.value;
      && d.bmsId == bmsId
      && 0.0 <= d.voltage <= 6553.5 && -3000.0 <= d.current <= 3553.5 && 0.0 <= d.soc <= 6553.5
      && -168 <= d.maxTemp <= 87 && -168 <= d.minTemp <= 87
      && d.maxCellVoltage == ReadInt16Bits(minMaxCell, 4) as real / 1000.0
      && d.minCellVoltage == ReadInt16Bits(minMaxCell, 7) as real / 1000.0
      && d.maxCellNumber == minMaxCell[6] && d.minCellNumber == minMaxCell[9]
      && d.maxTemp == minMaxTemp[4] as int - 40 && d.minTemp == minMaxTemp[6] as int - 40
      && d.maxTempCellNumber == minMaxTemp[5] && d.minTempCellNumber == minMaxTemp[7]
      && d.status == DalyParse.StatusOf(chargeDischargeStatus[4])
      && (d.mosfetCharging <==> chargeDischargeStatus[5] == 1)
      && (d.mosfetDischarging <==> chargeDischargeStatus[6] == 1)
      && 0 <= d.lifeCycles <= 255 && 0 <= d.cycles <= 65535
      && d.lifeCycles == ToUnsignedInt(chargeDischargeStatus[7])
      && d.remainingCapacity == ReadInt32Bits(chargeDischargeStatus, 8) as real / 1000.0
      && (d.chargerStatus <==> statusInfo[6] == 1)
      && (d.loadStatus <==> statusInfo[7] == 1)
      && d.cycles == ReadInt16Bits(statusInfo, 9)
      && d.cellVoltages == RawCells(cellVoltages)
      && d.errors == RawFaults(failureCodes)
  {
    if !Decodable(voutIoutSoc, minMaxCell, minMaxTemp, chargeDischargeStatus,
                  statusInfo, cellVoltages, failureCodes) then None
    else Some(BmsData(
      bmsId := bmsId,
      voltage := ReadInt16Bits(voutIoutSoc, 4) as real / 10.0,
      current := (ReadInt16Bits(voutIoutSoc, 8) as real - 30000.0) / 10.0,
      soc := ReadInt16Bits(voutIoutSoc, 10) as real / 10.0,
      maxCellVoltage := ReadInt16Bits(minMaxCell, 4) as real / 1000.0,
      maxCellNumber := minMaxCell[6],
      minCellVoltage := ReadInt16Bits(minMaxCell, 7) as real / 1000.0,
      minCellNumber := minMaxCell[9],
      maxTemp := minMaxTemp[4] as int - 40,
      maxTempCellNumber := minMaxTemp[5],
      minTemp := minMaxTemp[6] as int - 40,
      minTempCellNumber := minMaxTemp[7],
      status := DalyParse.StatusOf(chargeDischargeStatus[4]),
      mosfetCharging := chargeDischargeStatus[5] == 1,
      mosfetDischarging := chargeDischargeStatus[6] == 1,
      lifeCycles := ToUnsignedInt(chargeDischargeStatus[7]),
      remainingCapacity := ReadInt32Bits(chargeDischargeStatus, 8) as real / 1000.0,
      chargerStatus := statusInfo[6] == 1,
      loadStatus := statusInfo[7] == 1,
      cycles := ReadInt16Bits(statusInfo, 9),
      cellVoltages := RawCells(cellVoltages),
      errors := RawFaults(failureCodes)))
  }

  /**
   * Pack voltage, current and state of charge come from raw offsets 4, 8
   * and 10 (data offsets 0, 4 and 6), in deci-units, the current offset by
   * 30000.
   */
  lemma VoutIoutSocDecodes(
    bmsId: BmsTypes.BmsId,
    voutIoutSoc: seq<Byte>, minMaxCell: seq<Byte>, minMaxTemp: seq<Byte>,
    chargeDischargeStatus: seq<Byte>, statusInfo: seq<Byte>,
    cellVoltages: seq<Byte>, failureCodes: seq<Byte>,
    deciVolts: int, deciAmps: int, deciPercent: int)
    requires Decodable(voutIoutSoc, minMaxCell, minMaxTemp, chargeDischargeStatus,
                       statusInfo, cellVoltages, failureCodes)
    requires 0 <= deciVolts < TwoTo16 && -30000 <= deciAmps < TwoTo16 - 30000 && 0 <= deciPercent < TwoTo16
    requires voutIoutSoc[4..6] == Int16Bytes(deciVolts)
    requires voutIoutSoc[8..10] == Int16Bytes(deciAmps + 30000)
    requires voutIoutSoc[10..12] == Int16Bytes(deciPercent)
    ensures var r := ParseData(bmsId, voutIoutSoc, minMaxCell, minMaxTemp,
                               chargeDischargeStatus, statusInfo, cellVoltages, failureCodes).value;
            r.voltage == deciVolts as real / 10.0
            && r.current == deciAmps as real / 10.0
            && r.soc == deciPercent as real / 10.0
  {
    Int16RoundTrip(deciVolts);
    Int16RoundTrip(deciAmps + 30000);
    Int16RoundTrip(deciPercent);
    DalyParse.ReadShifted(voutIoutSoc, 4, Int16Bytes(deciVolts));
    DalyParse.ReadShifted(voutIoutSoc, 8, Int16Bytes(deciAmps + 30000));
    DalyParse.ReadShifted(voutIoutSoc, 10, Int16Bytes(deciPercent));
  }

  /**
   * The cell extremes come from raw offsets 4 and 7 in millivolts, the
   * temperatures from raw offsets 4 and 6 in degrees Celsius offset by 40,
   * for every temperature the signed byte carries unchanged (-40..87 °C).
   */
  lemma ExtremesDecode(
    bmsId: BmsTypes.BmsId,
    voutIoutSoc: seq<Byte>, minMaxCell: seq<Byte>, minMaxTemp: seq<Byte>,
    chargeDischargeStatus: seq<Byte>, statusInfo: seq<Byte>,
    cellVoltages: seq<Byte>, failureCodes: seq<Byte>,
    maxMillivolts: int, minMillivolts: int, maxCelsius: int, minCelsius: int)
    requires Decodable(voutIoutSoc, minMaxCell, minMaxTemp, chargeDischargeStatus,
                       statusInfo, cellVoltages, failureCodes)
    requires 0 <= maxMillivolts < TwoTo16 && 0 <= minMillivolts < TwoTo16
    requires -40 <= maxCelsius <= 87 && -40 <= minCelsius <= 87
    requires minMaxCell[4..6] == Int16Bytes(maxMillivolts)
    requires minMaxCell[7..9] == Int16Bytes(minMillivolts)
    requires minMaxTemp[4] == ToByte(maxCelsius + 40) && minMaxTemp[6] == ToByte(minCelsius + 40)
    ensures var r := ParseData(bmsId, voutIoutSoc, minMaxCell, minMaxTemp,
                               chargeDischargeStatus, statusInfo, cellVoltages, failureCodes).value;
            r.maxCellVoltage == maxMillivolts as real / 1000.0
            && r.minCellVoltage == minMillivolts as real / 1000.0
            && r.maxTemp == maxCelsius && r.minTemp == minCelsius
  {
    Int16RoundTrip(maxMillivolts);
    Int16RoundTrip(minMillivolts);
    DalyParse.ReadShifted(minMaxCell, 4, Int16Bytes(maxMillivolts));
    DalyParse.ReadShifted(minMaxCell, 7, Int16Bytes(minMillivolts));
  }

  /**
   * Status (raw byte 4), remaining capacity in signed milliampere-hours
   * (raw offset 8) and cycle count (raw offset 9) decode from the values
   * the BMS sends.
   */
  lemma StatusFieldsDecode(
    bmsId: BmsTypes.BmsId,
    voutIoutSoc: seq<Byte>, minMaxCell: seq<Byte>, minMaxTemp: seq<Byte>,
    chargeDischargeStatus: seq<Byte>, statusInfo: seq<Byte>,
    cellVoltages: seq<Byte>, failureCodes: seq<Byte>,
    status: BmsTypes.BmStatus, milliampHours: int, cycles: int)
    requires Decodable(voutIoutSoc, minMaxCell, minMaxTemp, chargeDischargeStatus,
                       statusInfo, cellVoltages, failureCodes)
    requires -TwoTo31 <= milliampHours < TwoTo31 && 0 <= cycles < TwoTo16
    requires chargeDischargeStatus[4] == BmsTypes.StatusValue(status)
    requires chargeDischargeStatus[8..12] == Int32Bytes(milliampHours)
    requires statusInfo[9..11] == Int16Bytes(cycles)
    ensures var r := ParseData(bmsId, voutIoutSoc, minMaxCell, minMaxTemp,
                               chargeDischargeStatus, statusInfo, cellVoltages, failureCodes).value;
            r.status == status
            && r.remainingCapacity == milliampHours as real / 1000.0
            && r.cycles == cycles
  {
    DalyParse.StatusRoundTrip(status);
    Int32RoundTrip(milliampHours);
    Int16RoundTrip(cycles);
    DalyParse.ReadShifted32(chargeDischargeStatus, 8, Int32Bytes(milliampHours));
    DalyParse.ReadShifted(statusInfo, 9, Int16Bytes(cycles));
  }

  /** The seven replies `readData` asks for, in order. */
  datatype Replies = Replies(
    voutIoutSoc: seq<Byte>, minMaxCell: seq<Byte>, minMaxTemp: seq<Byte>,
    chargeDischargeStatus: seq<Byte>, statusInfo: seq<Byte>,
    cellVoltages: seq<Byte>, failureCodes: seq<Byte>)

  /**
   * The seven exchanges of `readData`, in the order of the `parseData`
   * arguments: each request is written once, and there is no retry; each
   * reply is at most its read length.
   */
  function ExchangesSpec(p: DalyConnection.Port): (r: (Replies, DalyConnection.Port))
    ensures r.1.written == p.written
      + [RequestFrame(VoutIoutSoc)] + [RequestFrame(MinMaxCellVoltage)] + [RequestFrame(MinMaxTemperature)]
      + [RequestFrame(DischargeChargeMosStatus)] + [RequestFrame(StatusInfo)] + [RequestFrame(CellVoltages)]
      + [RequestFrame(FailureCodes)]
    ensures |r.0.cellVoltages| <= 143 && |r.0.voutIoutSoc| <= 13 && |r.0.failureCodes| <= 13
    ensures |r.0.minMaxCell| <= 13 && |r.0.minMaxTemp| <= 13
    ensures |r.0.chargeDischargeStatus| <= 13 && |r.0.statusInfo| <= 13
  {
    var (vout, p1) := ExecSpec(p, VoutIoutSoc);
    var (minMaxCell, p2) := ExecSpec(p1, MinMaxCellVoltage);
    var (minMaxTemp, p3) := ExecSpec(p2, MinMaxTemperature);
    var (mos, p4) := ExecSpec(p3, DischargeChargeMosStatus);
    var (statusInfo, p5) := ExecSpec(p4, StatusInfo);
    var (cells, p6) := ExecSpec(p5, CellVoltages);
    var (failure, p7) := ExecSpec(p6, FailureCodes);
    (Replies(vout, minMaxCell, minMaxTemp, mos, statusInfo, cells, failure), p7)
  }

  /** The seven replies, in order, followed by what is left are what the serial line delivers: no byte lost or invented. */
  lemma ExchangesConserve(p: DalyConnection.Port)
    ensures var (f, p') := ExchangesSpec(p);
      f.voutIoutSoc + (f.minMaxCell + (f.minMaxTemp + (f.chargeDischargeStatus
      + (f.statusInfo + (f.cellVoltages + (f.failureCodes + AllData(p'.input)))))))
      == AllData(p.input)
  {
    var (vout, p1) := ExecSpec(p, VoutIoutSoc);
    var (minMaxCell, p2) := ExecSpec(p1, MinMaxCellVoltage);
    var (minMaxTemp, p3) := ExecSpec(p2, MinMaxTemperature);
    var (mos, p4) := ExecSpec(p3, DischargeChargeMosStatus);
    var (statusInfo, p5) := ExecSpec(p4, StatusInfo);
    var (cells, p6) := ExecSpec(p5, CellVoltages);
    var (failure, p7) := ExecSpec(p6, FailureCodes);
    assert ExchangesSpec(p) == (Replies(vout, minMaxCell, minMaxTemp, mos, statusInfo, cells, failure), p7);
  }

  /** `readData`: all seven exchanges, then `parseData`; None when any reply is too short to decode. */
  function ReadDataSpec(p: DalyConnection.Port, bmsId: BmsTypes.BmsId): (r: (Option<BmsData>, DalyConnection.Port))
  {
    var (f, p') := ExchangesSpec(p);
    (ParseData(bmsId, f.voutIoutSoc, f.minMaxCell, f.minMaxTemp, f.chargeDischargeStatus,
               f.statusInfo, f.cellVoltages, f.failureCodes), p')
  }

  /** A silent BMS gives no snapshot: every reply is empty, so decoding fails. */
  lemma SilentBmsGivesNothing(written: seq<seq<Byte>>, bmsId: BmsTypes.BmsId)
    ensures ReadDataSpec(DalyConnection.Port([], written), bmsId).0 == None
  {
    assert Drain([], ReadLength(VoutIoutSoc)) == ([], []);
  }

  class BmsConnection {
    const bmsId: BmsTypes.BmsId
    /** `rxBuf`: the 1024-byte receive buffer every read fills from its start. */
    const rxBuf: array<Byte>
    /** What the serial port has yet to deliver. */
    var input: seq<Event>
    /** Every request written to the serial port, in order. */
    var written: seq<seq<Byte>>
    var isOpen: bool

    predicate Valid()
      reads this
    {
      rxBuf.Length == DalyConnection.RxBufSize
    }

    /** Opens the port and discards whatever is pending: one full-buffer read. */
    constructor (bmsId: BmsTypes.BmsId, port: seq<Event>)
      ensures Valid() && fresh(rxBuf) && this.bmsId == bmsId
      ensures input == Drain(port, DalyConnection.RxBufSize).1 && written == [] && isOpen
    {
      this.bmsId := bmsId;
      rxBuf := new Byte[DalyConnection.RxBufSize](_ => 0);
      input := port;
      written := [];
      isOpen := true;
      new;
      var _ := Read(DalyConnection.RxBufSize);
    }

    /** The port as a value. */
    function PortState(): DalyConnection.Port
      reads this
    {
      DalyConnection.Port(input, written)
    }

    /**
     * `read(readBytes, timeout)`: at most `readBytes` bytes, each chunk
     * read only as far as still wanted. The final copy of
     * `min(read, readBytes)` bytes copies all of them.
     */
    method Read(readBytes: nat) returns (r: seq<Byte>)
      requires Valid() && readBytes <= DalyConnection.RxBufSize
      modifies this, rxBuf
      ensures Valid() && (r, input) == Drain(old(input), readBytes)
      ensures |r| <= readBytes
      ensures written == old(written) && isOpen == old(isOpen)
    {
      var rest;
      r, rest := Receive(rxBuf, input, readBytes);
      input := rest;
    }

    /** `exec`: writes the request and reads `13 * responseFrames` bytes. */
    method Exec(cmd: Command) returns (r: seq<Byte>)
      requires Valid()
      modifies this, rxBuf
      ensures Valid() && isOpen == old(isOpen)
      ensures (r, PortState()) == ExecSpec(old(PortState()), cmd)
    {
      var request := ToSerialBytes(cmd);
      written := written + [request];
      ReadLengths(cmd);
      r := Read(ReadLength(cmd));
    }

    /** `readData`: the seven exchanges, then `parseData`; any exception gives None. */
    method ReadData() returns (r: Option<BmsData>)
      requires Valid()
      modifies this, rxBuf
      ensures Valid() && isOpen == old(isOpen)
      ensures (r, PortState()) == ReadDataSpec(old(PortState()), bmsId)
    {
      var vout := Exec(VoutIoutSoc);
      var minMaxCell := Exec(MinMaxCellVoltage);
      var minMaxTemp := Exec(MinMaxTemperature);
      var mos := Exec(DischargeChargeMosStatus);
      var statusInfo := Exec(StatusInfo);
      var cells := Exec(CellVoltages);
      var failure := Exec(FailureCodes);
      r := ParseData(bmsId, vout, minMaxCell, minMaxTemp, mos, statusInfo, cells, failure);
    }

    /** `close`: closes both streams; a failure to close is swallowed. */
    method Close()
      modifies this
      ensures !isOpen && input == old(input) && written == old(written)
    {
      isOpen := false;
    }
  }
}
