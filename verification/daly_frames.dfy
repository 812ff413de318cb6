/**
 * Daly UART frames (bms/DalyBmsConnection.kt): the 13-byte request a
 * command is sent as, the response frame record, and the scanner that
 * finds cell-voltage frames in a burst of received bytes.
 *
 * Every frame is: start byte 0xA5, address, command id, length 8, eight
 * data bytes, checksum (the low 8 bits of the sum of the first twelve).
 */
module DalyFrames {
  import opened Wrappers
  import opened ByteUtils
  import opened DalyWire

  /** The `DalyBmsCommand` enum. */
  datatype Command =
    | VoutIoutSoc | MinMaxCellVoltage | MinMaxTemperature | DischargeChargeMosStatus
    | StatusInfo | CellVoltages | CellTemperature | CellBalanceState | FailureCodes
    | Unknown1 | Unknown2 | DischrgFet | ChrgFet | BmsReset | WriteSoc

  /** The command id each command is sent with. */
  function CommandId(c: Command): (id: int)
    ensures 0 <= id <= 0xff
  {
    match c
    case VoutIoutSoc => 0x90
    case MinMaxCellVoltage => 0x91
    case MinMaxTemperature => 0x92
    case DischargeChargeMosStatus => 0x93
    case StatusInfo => 0x94
    case CellVoltages => 0x95
    case CellTemperature => 0x96
    case CellBalanceState => 0x97
    case FailureCodes => 0x98
    case Unknown1 => 0x99
    case Unknown2 => 0xd8
    case DischrgFet => 0xd9
    case ChrgFet => 0xda
    case BmsReset => 0x00
    case WriteSoc => 0x21
  }

  /** No two commands share an id, so a response's command byte names its command. */
  lemma CommandIdInjective(a: Command, b: Command)
    ensures CommandId(a) == CommandId(b) <==> a == b
  {
  }

  const FrameSize: nat := 13
  const StartByte: int := 0xa5
  const HostAddress: int := 0x40
  const DataLength: int := 8

  /** Local wall-clock time, as passed to `toSerialBytes` (the source reads the clock itself). */
  datatype DateTime = DateTime(year: int, month: int, day: int, hour: int, minute: int, second: int)

  /** Bytes 0..3 of every request. */
  function Header(cmd: Command): seq<Byte> {
    [ToByte(StartByte), ToByte(HostAddress), ToByte(CommandId(cmd)), ToByte(DataLength)]
  }

  /** The WRITE_SOC timestamp: year mod 100, month, day, hour, minute, second. */
  function DateBytes(now: DateTime): seq<Byte> {
    [ToByte(now.year % 100), ToByte(now.month), ToByte(now.day),
     ToByte(now.hour), ToByte(now.minute), ToByte(now.second)]
  }

  /** The first twelve bytes of a request; `soc` only matters for WRITE_SOC. */
  function RequestBody(cmd: Command, soc: int, now: DateTime): (r: seq<Byte>)
    ensures |r| == 12
  {
    Header(cmd) + if cmd == WriteSoc then DateBytes(now) + Int16Bytes(soc * 10) else seq(8, _ => 0)
  }

  /**
   * `DalyBmsCommand.toSerialBytes(value)`: the request frame, or the
   * failure the source throws. WRITE_SOC needs an integer value in 0..100;
   * every other command ignores the value.
   */
  function RequestFrame(cmd: Command, value: Option<int>, now: DateTime): (r: Outcome<seq<Byte>>)
    ensures r.Ok? ==> |r.value| == FrameSize
    ensures r.Fail? <==> cmd == WriteSoc && (value.None? || !(0 <= value.value <= 100))
  {
    if cmd == WriteSoc then
      if value.None? then Fail("value is not an Int")
      else if !(0 <= value.value <= 100) then Fail("Invalid soc")
      else Ok(var body := RequestBody(cmd, value.value, now); body + [Checksum(body)])
    else
      Ok(var body := RequestBody(cmd, 0, now); body + [Checksum(body)])
  }

  /**
   * `checksum = (checksum + raw[it]).toByte()` over `0..11`, as the loops
   * in `toSerialBytes`, `readFrame` and `readFramesV2` compute it.
   */
  method ComputeChecksum(raw: seq<Byte>) returns (checksum: Byte)
    requires |raw| >= 12
    ensures checksum == Checksum(raw[..12])
  {
    checksum := 0;
    for it := 0 to 12
      invariant checksum == Checksum(raw[..it])
    {
      assert raw[..it + 1][..it] == raw[..it];
      checksum := ToByte(checksum + raw[it]);
    }
    assert raw[..12] == raw[..12];
  }

  /** Bytes 4..11 of a WRITE_SOC request: the timestamp, then soc * 10 big-endian. */
  method PutWriteSocPayload(buf: array<Byte>, soc: int, now: DateTime)
    requires buf.Length == 13 && 0 <= soc <= 100
    modifies buf
    ensures buf[..4] == old(buf[..4]) && buf[12] == old(buf[12])
    ensures buf[4..12] == DateBytes(now) + Int16Bytes(soc * 10)
  {
    var soc10 := soc * 10;
    buf[4] := ToByte(now.year % 100);
    buf[5] := ToByte(now.month);
    buf[6] := ToByte(now.day);
    buf[7] := ToByte(now.hour);
    buf[8] := ToByte(now.minute);
    buf[9] := ToByte(now.second);
    buf[10] := ToByte(soc10 / 256);  // `soc10.shr(8)`; soc10 is not negative
    buf[11] := ToByte(soc10);
    assert buf[4..10] == DateBytes(now);
    assert buf[10..12] == Int16Bytes(soc10);
    assert buf[4..12] == buf[4..10] + buf[10..12];
  }

  /** Bytes 0..3 of every request: start byte, host address, command id, length. */
  method PutHeader(buf: array<Byte>, cmd: Command)
    requires buf.Length == 13
    modifies buf
    ensures buf[..4] == Header(cmd) && buf[4..] == old(buf[4..])
  {
    buf[0] := ToByte(StartByte);
    buf[1] := ToByte(HostAddress);
    buf[2] := ToByte(CommandId(cmd));
    buf[3] := ToByte(DataLength);
    assert buf[..4] == Header(cmd);
  }

  /** `toSerialBytes`, filling a zeroed 13-byte buffer in place. */
  method ToSerialBytes(cmd: Command, value: Option<int>, now: DateTime) returns (r: Outcome<seq<Byte>>)
    ensures r == RequestFrame(cmd, value, now)
  {
    var buf := new Byte[13](_ => 0);
    ghost var zeros := buf[..];
    PutHeader(buf, cmd);
    var soc := 0;
    if cmd == WriteSoc {
      if value.None? {
        return Fail("value is not an Int");
      }
      soc := value.value;
      if !(0 <= soc <= 100) {
        return Fail("Invalid soc");
      }
      PutWriteSocPayload(buf, soc, now);
    } else {
      assert buf[4..12] == seq(8, _ => 0) by {
        assert buf[4..12] == zeros[4..12];
      }
    }
    var body := buf[..12];
    assert body == buf[..4] + buf[4..12];
    var checksum := ComputeChecksum(body);
    assert body[..12] == body;
    buf[12] := checksum;
    assert buf[..] == body + [checksum];
    r := Ok(buf[..]);
  }

  /** The four header bytes, read back unsigned: 0xA5, 0x40, the command id and 8. */
  lemma HeaderBytes(cmd: Command)
    ensures var h := Header(cmd);
      |h| == 4 && ToUnsignedInt(h[0]) == 0xa5 && ToUnsignedInt(h[1]) == 0x40
      && ToUnsignedInt(h[2]) == CommandId(cmd) && h[3] == 8
  {
  }

  /** Every request has the fixed layout of the protocol, and its last byte is the checksum of the rest. */
  lemma RequestLayout(cmd: Command, value: Option<int>, now: DateTime)
    requires RequestFrame(cmd, value, now).Ok?
    ensures var f := RequestFrame(cmd, value, now).value;
      && ToUnsignedInt(f[0]) == 0xa5 && ToUnsignedInt(f[1]) == 0x40
      && ToUnsignedInt(f[2]) == CommandId(cmd) && f[3] == 8
      && ToUnsignedInt(f[12]) == UnsignedSum(f[..12]) % 256
      && (cmd != WriteSoc ==> forall k :: 4 <= k < 12 ==> f[k] == 0)
  {
    var f := RequestFrame(cmd, value, now).value;
    var body := RequestBody(cmd, if cmd == WriteSoc then value.value else 0, now);
    assert f == body + [Checksum(body)];
    assert f[..12] == body;
    HeaderBytes(cmd);
    assert body[..4] == Header(cmd);
    ChecksumIsSumMod256(body);
  }

  /**
   * A WRITE_SOC request carries the timestamp in bytes 4..9 and soc * 10,
   * big-endian, in bytes 10..11.
   */
  lemma WriteSocPayload(soc: int, now: DateTime)
    requires 0 <= soc <= 100
    ensures RequestFrame(WriteSoc, Some(soc), now).Ok?
    ensures var f := RequestFrame(WriteSoc, Some(soc), now).value;
      && f[4..10] == DateBytes(now)
      && ToUnsignedInt(f[4]) == now.year % 100
      && ReadInt16Bits(f, 10) == soc * 10
  {
    var f := RequestFrame(WriteSoc, Some(soc), now).value;
    assert f[10..12] == Int16Bytes(soc * 10);
    Int16RoundTrip(soc * 10);
    assert ReadInt16Bits(f, 10) == ReadInt16Bits(f[10..12], 0);
  }

  /** A time field that fits in a byte (month, day, hour, minute, second) is sent unchanged. */
  lemma DateBytesExact(now: DateTime)
    requires 1 <= now.month <= 12 && 1 <= now.day <= 31
    requires 0 <= now.hour < 24 && 0 <= now.minute < 60 && 0 <= now.second < 60
    ensures var d := DateBytes(now);
      ToUnsignedInt(d[0]) == now.year % 100 && d[1] == now.month && d[2] == now.day
      && d[3] == now.hour && d[4] == now.minute && d[5] == now.second
  {
  }

  /** `ResponseFrame`: the unsigned header bytes, the eight data bytes, the checksum verdict and the raw frame. */
  datatype ResponseFrame = ResponseFrame(
    startByte: int, hostAddr: int, commandId: int, length: int,
    data: seq<Byte>, isChecksumValid: bool, rawData: seq<Byte>)
  {
    predicate WellFormed() { |data| == 8 && |rawData| == 13 }
  }

  /** A response frame as the source builds it: always 8 data bytes and 13 raw ones. */
  type Frame = f: ResponseFrame | f.WellFormed()
    witness ResponseFrame(0, 0, 0, 0, seq(8, _ => 0), false, seq(13, _ => 0))

  /**
   * The frame `readFrame` and `readFramesV2` build from 13 raw bytes. Only
   * the checksum is checked; start byte, address and command are taken as
   * they come.
   */
  function FrameOf(raw: seq<Byte>): (f: Frame)
    requires |raw| == FrameSize
    ensures f.rawData == raw && f.data == raw[4..12]
    ensures f.isChecksumValid <==> UnsignedSum(raw[..12]) % 256 == ToUnsignedInt(raw[12])
  {
    ChecksumIsSumMod256(raw[..12]);
    var data := raw[4..12];
    assert |data| == 8;
    ResponseFrame(
      ToUnsignedInt(raw[0]), ToUnsignedInt(raw[1]), ToUnsignedInt(raw[2]), ToUnsignedInt(raw[3]),
      data, Checksum(raw[..12]) == raw[12], raw)
  }

  /** Round trip: every request, read back as a frame, passes the checksum and names its command. */
  lemma RequestIsValidFrame(cmd: Command, value: Option<int>, now: DateTime)
    requires RequestFrame(cmd, value, now).Ok?
    ensures var f := FrameOf(RequestFrame(cmd, value, now).value);
      f.isChecksumValid && f.startByte == 0xa5 && f.hostAddr == 0x40
      && f.commandId == CommandId(cmd) && f.length == 8
  {
    RequestLayout(cmd, value, now);
  }

  /** The start of a cell-voltage response: 0xA5, address 1, command 0x95, length 8. */
  predicate PatternAt(data: seq<Byte>, pos: int)
    requires 0 <= pos && pos + 4 <= |data|
  {
    data[pos] == ToByte(StartByte) && data[pos + 1] == 1
    && data[pos + 2] == ToByte(CommandId(CellVoltages)) && data[pos + 3] == ToByte(DataLength)
  }

  /**
   * The frames the `readFramesV2` scan cuts from `pos` on: on a match it
   * takes 13 bytes and jumps past them, otherwise it moves on by one byte,
   * while 13 bytes remain.
   */
  function ScanFrom(data: seq<Byte>, pos: nat): seq<Frame>
    decreases |data| - pos
  {
    if pos + FrameSize > |data| then []
    else if PatternAt(data, pos) then [FrameOf(data[pos..pos + FrameSize])] + ScanFrom(data, pos + FrameSize)
    else ScanFrom(data, pos + 1)
  }

  /** What `readFramesV2(true)` returns for the received bytes. */
  function ScanFrames(data: seq<Byte>): seq<Frame> {
    ScanFrom(data, 0)
  }

  /** A frame whose header is the cell-voltage pattern. */
  predicate CellVoltagesHeader(f: Frame) {
    f.startByte == StartByte && f.hostAddr == 1 && f.commandId == CommandId(CellVoltages) && f.length == DataLength
  }

  /** The positions at which the scan from `pos` cuts its frames. */
  ghost function ScanOffsets(data: seq<Byte>, pos: nat): seq<nat>
    decreases |data| - pos
  {
    if pos + FrameSize > |data| then []
    else if PatternAt(data, pos) then [pos] + ScanOffsets(data, pos + FrameSize)
    else ScanOffsets(data, pos + 1)
  }

  /** No cell-voltage frame starts in `from..to`. */
  ghost predicate NoPatternIn(data: seq<Byte>, from: int, to: int) {
    forall j :: 0 <= from <= j < to && j + FrameSize <= |data| ==> !PatternAt(data, j)
  }

  lemma {:induction false} ScanOffsetsCount(data: seq<Byte>, pos: nat)
    ensures |ScanOffsets(data, pos)| == |ScanFrom(data, pos)|
    decreases |data| - pos
  {
    if pos + FrameSize > |data| {
    } else if PatternAt(data, pos) {
      ScanOffsetsCount(data, pos + FrameSize);
    } else {
      ScanOffsetsCount(data, pos + 1);
    }
  }

  /** `f` is the whole frame at `at`, where a cell-voltage pattern starts. */
  ghost predicate CutAt(data: seq<Byte>, at: int, f: Frame) {
    0 <= at && at + FrameSize <= |data| && PatternAt(data, at) && f == FrameOf(data[at..at + FrameSize])
  }

  /** Frame k of the scan is the whole frame at offset k, which starts a pattern. */
  lemma {:induction false} ScanFrameAt(data: seq<Byte>, pos: nat, k: nat)
    requires k < |ScanOffsets(data, pos)|
    ensures var r, o := ScanFrom(data, pos), ScanOffsets(data, pos);
      |r| == |o| && pos <= o[k] && CutAt(data, o[k], r[k])
    decreases |data| - pos
  {
    ScanOffsetsCount(data, pos);
    if pos + FrameSize > |data| {
    } else if PatternAt(data, pos) {
      var r', o' := ScanFrom(data, pos + FrameSize), ScanOffsets(data, pos + FrameSize);
      assert ScanFrom(data, pos) == [FrameOf(data[pos..pos + FrameSize])] + r';
      assert ScanOffsets(data, pos) == [pos] + o';
      if k > 0 {
        ScanFrameAt(data, pos + FrameSize, k - 1);
      }
    } else {
      ScanFrameAt(data, pos + 1, k);
    }
  }

  /** Frame k − 1 ends before frame k begins, and no pattern starts in between. */
  lemma {:induction false} ScanGapAt(data: seq<Byte>, pos: nat, k: nat)
    requires 0 < k < |ScanOffsets(data, pos)|
    ensures var o := ScanOffsets(data, pos);
      o[k - 1] + FrameSize <= o[k] && NoPatternIn(data, o[k - 1] + FrameSize, o[k])
    decreases |data| - pos
  {
    if pos + FrameSize > |data| {
    } else if PatternAt(data, pos) {
      if k > 1 {
        ScanGapAt(data, pos + FrameSize, k - 1);
      } else {
        ScanFrameAt(data, pos + FrameSize, 0);
        ScanLeading(data, pos + FrameSize);
      }
    } else {
      ScanGapAt(data, pos + 1, k);
    }
  }

  /** No pattern starts between `pos` and the first frame, or anywhere when there is none. */
  lemma {:induction false} ScanLeading(data: seq<Byte>, pos: nat)
    ensures var o := ScanOffsets(data, pos);
      NoPatternIn(data, pos, if o == [] then |data| else o[0])
    decreases |data| - pos
  {
    if pos + FrameSize > |data| {
    } else if PatternAt(data, pos) {
    } else {
      ScanLeading(data, pos + 1);
    }
  }

  /** No pattern starts after the last frame. */
  lemma {:induction false} ScanTrailing(data: seq<Byte>, pos: nat)
    ensures var o := ScanOffsets(data, pos);
      o != [] ==> NoPatternIn(data, o[|o| - 1] + FrameSize, |data|)
    decreases |data| - pos
  {
    if pos + FrameSize > |data| {
    } else if PatternAt(data, pos) {
      var o' := ScanOffsets(data, pos + FrameSize);
      if o' == [] {
        ScanLeading(data, pos + FrameSize);
      } else {
        ScanTrailing(data, pos + FrameSize);
      }
    } else {
      ScanTrailing(data, pos + 1);
    }
  }

  /**
   * The scan from `pos` cuts one frame per offset `o[k]`: frame k is the
   * 13 bytes from `o[k]`, where a cell-voltage pattern starts, and carries
   * the cell-voltage header.
   */
  lemma ScanCutsPatterns(data: seq<Byte>, pos: nat)
    ensures |ScanOffsets(data, pos)| == |ScanFrom(data, pos)|
    ensures var r, o := ScanFrom(data, pos), ScanOffsets(data, pos);
      forall k :: 0 <= k < |o| && k < |r| ==> pos <= o[k] && CutAt(data, o[k], r[k]) && CellVoltagesHeader(r[k])
  {
    var r, o := ScanFrom(data, pos), ScanOffsets(data, pos);
    ScanOffsetsCount(data, pos);
    forall k | 0 <= k < |o| && k < |r|
      ensures pos <= o[k] && CutAt(data, o[k], r[k]) && CellVoltagesHeader(r[k])
    {
      ScanFrameAt(data, pos, k);
    }
  }

  /**
   * The offsets increase and the frames do not overlap, and no pattern
   * starts in the bytes the scan steps over: before the first frame,
   * between two frames, after the last one.
   */
  lemma ScanSkipsNoPattern(data: seq<Byte>, pos: nat)
    ensures var o := ScanOffsets(data, pos);
      forall k :: 0 < k < |o| ==> o[k - 1] + FrameSize <= o[k] && NoPatternIn(data, o[k - 1] + FrameSize, o[k])
    ensures var o := ScanOffsets(data, pos);
      NoPatternIn(data, pos, if o == [] then |data| else o[0])
    ensures var o := ScanOffsets(data, pos);
      o != [] ==> NoPatternIn(data, o[|o| - 1] + FrameSize, |data|)
  {
    var o := ScanOffsets(data, pos);
    forall k | 0 < k < |o|
      ensures o[k - 1] + FrameSize <= o[k] && NoPatternIn(data, o[k - 1] + FrameSize, o[k])
    {
      ScanGapAt(data, pos, k);
    }
    ScanLeading(data, pos);
    ScanTrailing(data, pos);
  }

  /** Bytes before `off` do not change what the scan cuts once it has reached `off`. */
  lemma {:induction false} ScanShift(pd: seq<Byte>, d: seq<Byte>, off: nat, k: nat)
    requires |pd| == off + |d|
    requires forall i :: 0 <= i < |d| ==> pd[off + i] == d[i]
    ensures ScanFrom(pd, off + k) == ScanFrom(d, k)
    decreases |d| - k
  {
    if k + FrameSize <= |d| {
      assert PatternAt(pd, off + k) == PatternAt(d, k) by {
        assert pd[off + k] == d[k] && pd[off + k + 1] == d[k + 1];
        assert pd[off + k + 2] == d[k + 2] && pd[off + k + 3] == d[k + 3];
      }
      if PatternAt(d, k) {
        ScanShift(pd, d, off, k + FrameSize);
        assert pd[off + k..off + k + FrameSize] == d[k..k + FrameSize];
      } else {
        ScanShift(pd, d, off, k + 1);
      }
    }
  }

  /** A scan position from which no pattern starts before `to` reaches `to` unchanged. */
  lemma {:induction false} ScanSkipsNoise(data: seq<Byte>, pos: nat, to: nat)
    requires pos <= to
    requires forall j :: pos <= j < to && j + FrameSize <= |data| ==> !PatternAt(data, j)
    ensures to + FrameSize <= |data| ==> ScanFrom(data, pos) == ScanFrom(data, to)
    ensures to + FrameSize > |data| ==> ScanFrom(data, pos) == []
    decreases (to as int) - (pos as int)
  {
    if pos < to && pos + FrameSize <= |data| {
      ScanSkipsNoise(data, pos + 1, to);
    }
  }

  /**
   * Prepending bytes that hold no frame start gives the same frames: the
   * scan resynchronises past leading garbage.
   */
  lemma ScanFramesIgnoresNoisePrefix(p: seq<Byte>, d: seq<Byte>)
    requires forall j :: 0 <= j < |p| && j + FrameSize <= |p + d| ==> !PatternAt(p + d, j)
    ensures ScanFrames(p + d) == ScanFrames(d)
  {
    var pd := p + d;
    ScanSkipsNoise(pd, 0, |p|);
    ScanShift(pd, d, |p|, 0);
    if |p| + FrameSize > |pd| {
      assert ScanFrom(d, 0) == [];
    } else {
      assert ScanFrom(pd, 0) == ScanFrom(pd, |p| + 0);
    }
  }
}
