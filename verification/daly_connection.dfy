/**
 * The connection to one Daly BMS over its serial port
 * (bms/DalyBmsConnection.kt, class `BmsConnection`): the bounded read into
 * the shared receive buffer, single-frame and multi-frame reads, the
 * write-then-read exchange with its retry bound, and the full poll.
 *
 * The port is the oracle `input` (see DalyWire); what the connection
 * writes is recorded in `written`, one request per write.
 */
module DalyConnection {
  import opened Wrappers
  import opened ByteUtils
  import opened DalyWire
  import opened DalyFrames
  import opened DalyCells
  import opened DalyParse
  import opened BmsTypes

  /** `rxBuf.size`: the largest read and the size of the receive buffer. */
  const RxBufSize: nat := 1024

  /** The number of write-then-read attempts `exec` makes. */
  const Attempts: nat := 10

  /** A multi-frame reply is accepted once more than this many valid frames arrived. */
  const MinMultiFrames: nat := 5

  /** What `readFrame` returns for the stream, and the stream left after it. */
  function ReadFrameSpec(stream: seq<Event>): (r: (Option<Frame>, seq<Event>))
  {
    var (raw, rest) := Drain(stream, FrameSize);
    if |raw| == FrameSize then (Some(FrameOf(raw)), rest) else (None, rest)
  }

  /** What `readFramesV2(isMultiResponse)` returns for the stream, and the stream left after it. */
  function ReadFramesSpec(stream: seq<Event>, isMultiResponse: bool): (r: (seq<Frame>, seq<Event>))
  {
    var (data, rest) := Drain(stream, if isMultiResponse then RxBufSize else FrameSize);
    if isMultiResponse then (ScanFrames(data), rest)
    else if |data| == FrameSize then ([FrameOf(data)], rest)
    else ([], rest)
  }

  /** `filter { it.isChecksumValid }`. */
  function ValidFrames(fs: seq<Frame>): (r: seq<Frame>)
    ensures |r| <= |fs|
    ensures forall k :: 0 <= k < |r| ==> r[k].isChecksumValid
  {
    if fs == [] then []
    else
      var rest := ValidFrames(fs[1..]);
      if fs[0].isChecksumValid then [fs[0]] + rest else rest
  }

  /** The filter keeps exactly the frames whose checksum matched. */
  lemma {:induction false} ValidFramesMembers(fs: seq<Frame>, f: Frame)
    ensures f in ValidFrames(fs) <==> f in fs && f.isChecksumValid
    decreases |fs|
  {
    if fs != [] {
      ValidFramesMembers(fs[1..], f);
      assert fs == [fs[0]] + fs[1..];
    }
  }

  /** Whether one attempt's valid frames end the exchange. */
  predicate Accepted(good: seq<Frame>, isMultiResponse: bool) {
    if isMultiResponse then |good| > MinMultiFrames else |good| == 1
  }

  /** One attempt's verdict: the valid frames if they end the exchange, and the stream left. */
  function AttemptSpec(stream: seq<Event>, isMultiResponse: bool): (r: (Option<seq<Frame>>, seq<Event>))
  {
    var (frames, rest) := ReadFramesSpec(stream, isMultiResponse);
    var good := ValidFrames(frames);
    (if Accepted(good, isMultiResponse) then Some(good) else None, rest)
  }

  /**
   * The exchange `exec` runs for `request` with `left` attempts to go: the
   * accepted frames (None when every attempt failed), the stream left, and
   * the requests written, one per attempt.
   */
  function ExecSpec(stream: seq<Event>, request: seq<Byte>, isMultiResponse: bool, left: nat)
    : (r: (Option<seq<Frame>>, seq<Event>, seq<seq<Byte>>))
    decreases left, 1
  {
    if left == 0 then (None, stream, []) else TrySpec(stream, request, isMultiResponse, left)
  }

  /** One attempt of the exchange: write, read, and stop on an accepted reply or go on with one attempt fewer. */
  function TrySpec(stream: seq<Event>, request: seq<Byte>, isMultiResponse: bool, left: nat)
    : (r: (Option<seq<Frame>>, seq<Event>, seq<seq<Byte>>))
    requires left > 0
    decreases left, 0
  {
    var attempt := AttemptSpec(stream, isMultiResponse);
    if attempt.0.Some? then (attempt.0, attempt.1, [request])
    else
      var later := ExecSpec(attempt.1, request, isMultiResponse, left - 1);
      (later.0, later.1, [request] + later.2)
  }

  /** One step of `ExecSpec`: the first attempt, then the exchange with one attempt fewer. */
  lemma ExecStep(stream: seq<Event>, request: seq<Byte>, isMultiResponse: bool, left: nat)
    requires left > 0
    ensures var a := AttemptSpec(stream, isMultiResponse);
      var later := ExecSpec(a.1, request, isMultiResponse, left - 1);
      ExecSpec(stream, request, isMultiResponse, left)
        == if a.0.Some? then (a.0, a.1, [request]) else (later.0, later.1, [request] + later.2)
  {
  }

  /**
   * Part way through an exchange whose outcome is `goal`, after writing
   * `sent`: the rest of the exchange, `todo`, ends the same way, and `sent`
   * followed by the requests still to come are the exchange's.
   */
  predicate OnTrack(goal: (Option<seq<Frame>>, seq<Event>, seq<seq<Byte>>),
                    todo: (Option<seq<Frame>>, seq<Event>, seq<seq<Byte>>),
                    sent: seq<seq<Byte>>)
  {
    goal.0 == todo.0 && goal.1 == todo.1 && goal.2 == sent + todo.2
  }

  /** A failed attempt keeps the exchange on track, one request further on. */
  lemma OnTrackStep(goal: (Option<seq<Frame>>, seq<Event>, seq<seq<Byte>>),
                    todo: (Option<seq<Frame>>, seq<Event>, seq<seq<Byte>>),
                    later: (Option<seq<Frame>>, seq<Event>, seq<seq<Byte>>),
                    sent: seq<seq<Byte>>, request: seq<Byte>)
    requires OnTrack(goal, todo, sent) && todo == (later.0, later.1, [request] + later.2)
    ensures OnTrack(goal, later, sent + [request])
  {
    assert sent + ([request] + later.2) == (sent + [request]) + later.2;
  }

  /** An exchange writes its request once per attempt: at least once, at most ten times, all ten when it fails. */
  lemma {:induction false} ExecWrites(stream: seq<Event>, request: seq<Byte>, isMultiResponse: bool, left: nat)
    ensures var r := ExecSpec(stream, request, isMultiResponse, left);
      |r.2| <= left && (left > 0 ==> |r.2| >= 1) && (r.0.None? ==> |r.2| == left)
      && forall k :: 0 <= k < |r.2| ==> r.2[k] == request
    decreases left
  {
    if left > 0 {
      ExecStep(stream, request, isMultiResponse, left);
      ExecWrites(AttemptSpec(stream, isMultiResponse).1, request, isMultiResponse, left - 1);
    }
  }

  /** An exchange returns only checksum-valid frames: more than five of them, or exactly one. */
  lemma {:induction false} ExecAccepts(stream: seq<Event>, request: seq<Byte>, isMultiResponse: bool, left: nat)
    ensures var r := ExecSpec(stream, request, isMultiResponse, left);
      r.0.Some? ==> Accepted(r.0.value, isMultiResponse)
                    && forall k :: 0 <= k < |r.0.value| ==> r.0.value[k].isChecksumValid
    decreases left
  {
    if left > 0 {
      ExecStep(stream, request, isMultiResponse, left);
      ExecAccepts(AttemptSpec(stream, isMultiResponse).1, request, isMultiResponse, left - 1);
    }
  }

  /** A silent port: every attempt is made, each writes the request once, and nothing is accepted. */
  lemma {:induction false} ExecGivesUpOnSilence(request: seq<Byte>, isMultiResponse: bool, left: nat)
    ensures var r := ExecSpec([], request, isMultiResponse, left);
      r.0.None? && r.1 == [] && |r.2| == left && forall k :: 0 <= k < left ==> r.2[k] == request
    decreases left
  {
    if left > 0 {
      assert Drain([], if isMultiResponse then RxBufSize else FrameSize) == ([], []);
      assert ReadFramesSpec([], isMultiResponse) == ([], []);
      assert AttemptSpec([], isMultiResponse) == (None, []);
      ExecStep([], request, isMultiResponse, left);
      ExecGivesUpOnSilence(request, isMultiResponse, left - 1);
    }
  }

  /** A valid reply to the first request ends a single-frame exchange after one write. */
  lemma FirstReplyAccepted(raw: seq<Byte>, rest: seq<Event>, request: seq<Byte>)
    requires |raw| == FrameSize && UnsignedSum(raw[..12]) % 256 == ToUnsignedInt(raw[12])
    ensures ExecSpec([Data(raw)] + rest, request, false, Attempts) == (Some([FrameOf(raw)]), rest, [request])
  {
    var stream := [Data(raw)] + rest;
    assert stream[1..] == rest;
    assert Drain(rest, 0) == ([], rest);
    assert raw + [] == raw;
    assert Drain(stream, FrameSize) == (raw, rest);
    assert ReadFramesSpec(stream, false) == ([FrameOf(raw)], rest);
    assert ValidFrames([FrameOf(raw)]) == [FrameOf(raw)] by {
      assert [FrameOf(raw)][1..] == [];
    }
  }

  /** The serial port as the connection changes it: what is still to come, and what was written. */
  datatype Port = Port(input: seq<Event>, written: seq<seq<Byte>>)

  /** `exec` on the port: the accepted frames, and the port after the exchange. */
  function ExchangeSpec(p: Port, request: seq<Byte>, isMultiResponse: bool): (r: (Option<seq<Frame>>, Port))
  {
    var (res, rest, writes) := ExecSpec(p.input, request, isMultiResponse, Attempts);
    (res, Port(rest, p.written + writes))
  }

  /** The request of a command that takes no value. */
  function PlainRequest(cmd: Command, now: DateTime): (r: seq<Byte>)
    requires cmd != WriteSoc
    ensures RequestFrame(cmd, None, now) == Ok(r) && |r| == FrameSize
  {
    RequestFrame(cmd, None, now).value
  }

  /** `exec(cmd).single()`: the one frame of an accepted single-frame reply. */
  function SingleSpec(p: Port, cmd: Command, now: DateTime): (r: (Option<Frame>, Port))
    requires cmd != WriteSoc
  {
    var (res, p') := ExchangeSpec(p, PlainRequest(cmd, now), false);
    ExecAccepts(p.input, PlainRequest(cmd, now), false, Attempts);
    (if res.Some? then Some(res.value[0]) else None, p')
  }

  /** The cell-voltage exchange and its reassembly: `numberOfCells` voltages, or None. */
  function CellsSpec(p: Port, numberOfCells: int, now: DateTime): (r: (Option<seq<real>>, Port))
  {
    var (c, p') := ExchangeSpec(p, PlainRequest(CellVoltages, now), true);
    (if c.None? then None else CellVoltagesSpec(c.value, numberOfCells), p')
  }

  /** The six single-frame replies `parseData` decodes besides the cell voltages. */
  datatype Replies = Replies(
    voutIoutSoc: Frame, minMaxCellVoltage: Frame, minMaxTemperature: Frame,
    mosStatus: Frame, statusInfo: Frame, failureCodes: Frame)

  /** The six single-frame exchanges, in the order `readDataInternal` makes them; None from the first that fails. */
  function RepliesSpec(p: Port, now: DateTime): (r: (Option<Replies>, Port))
  {
    var (vout, p1) := SingleSpec(p, VoutIoutSoc, now);
    if vout.None? then (None, p1) else
    var (minMaxCell, p2) := SingleSpec(p1, MinMaxCellVoltage, now);
    if minMaxCell.None? then (None, p2) else
    var (minMaxTemp, p3) := SingleSpec(p2, MinMaxTemperature, now);
    if minMaxTemp.None? then (None, p3) else
    var (mos, p4) := SingleSpec(p3, DischargeChargeMosStatus, now);
    if mos.None? then (None, p4) else
    var (statusInfo, p5) := SingleSpec(p4, StatusInfo, now);
    if statusInfo.None? then (None, p5) else
    var (failure, p6) := SingleSpec(p5, FailureCodes, now);
    if failure.None? then (None, p6) else
    (Some(Replies(vout.value, minMaxCell.value, minMaxTemp.value, mos.value, statusInfo.value, failure.value)), p6)
  }

  /**
   * `readData`: the cell voltages first, then the six single-frame
   * replies, decoded by `parseData`. Any failed exchange or reassembly
   * makes the whole poll None.
   */
  function ReadDataSpec(p: Port, bmsId: BmsId, numberOfCells: int, now: DateTime, timestamp: real)
    : (r: (Option<BmsData>, Port))
  {
    var (cells, p1) := CellsSpec(p, numberOfCells, now);
    if cells.None? then (None, p1) else
    var (replies, p2) := RepliesSpec(p1, now);
    if replies.None? then (None, p2) else
    var f := replies.value;
    (Some(ParseData(bmsId, timestamp, f.voutIoutSoc, f.minMaxCellVoltage, f.minMaxTemperature,
                    f.mosStatus, f.statusInfo, cells.value, f.failureCodes)), p2)
  }

  /**
   * `writeSoc` on the port: whether it returns (it returns true whenever
   * it returns at all) rather than throwing, and the port after the
   * exchange. A state of charge outside 0..100 throws before anything is
   * written.
   */
  function WriteSocSpec(p: Port, soc: int, now: DateTime): (r: (bool, Port))
    ensures !(0 <= soc <= 100) ==> r == (false, p)
  {
    var request := RequestFrame(WriteSoc, Some(soc), now);
    if request.Fail? then (false, p) else
    var (res, p') := ExchangeSpec(p, request.value, false);
    (res.Some?, p')
  }

  class BmsConnection {
    const bmsId: BmsId
    const numberOfCells: int
    /** `rxBuf`: the receive buffer every read fills from its start. */
    const rxBuf: array<Byte>
    /** What the serial port has yet to deliver. */
    var input: seq<Event>
    /** Every request written to the serial port, in order. */
    var written: seq<seq<Byte>>
    var isOpen: bool

    predicate Valid()
      reads this
    {
      rxBuf.Length == RxBufSize
    }

    /** Opens the port and discards whatever is pending: one full-buffer read. */
    constructor (bmsId: BmsId, numberOfCells: int, port: seq<Event>)
      ensures Valid() && fresh(rxBuf)
      ensures this.bmsId == bmsId && this.numberOfCells == numberOfCells
      ensures input == Drain(port, RxBufSize).1 && written == [] && isOpen
    {
      this.bmsId := bmsId;
      this.numberOfCells := numberOfCells;
      rxBuf := new Byte[RxBufSize](_ => 0);
      input := port;
      written := [];
      isOpen := true;
      new;
      var _ := Read(RxBufSize);
    }

    /**
     * `read(target, timeout)`: fills `rxBuf` from index 0 until `target`
     * bytes arrived or the deadline passed, and returns a copy of what was
     * read. A chunk longer than wanted is read only in part.
     */
    method Read(target: nat) returns (r: seq<Byte>)
      requires Valid() && target <= RxBufSize
      modifies this, rxBuf
      ensures Valid() && (r, input) == Drain(old(input), target)
      ensures |r| <= target && rxBuf[..|r|] == r
      ensures written == old(written) && isOpen == old(isOpen)
    {
      var rest;
      r, rest := Receive(rxBuf, input, target);
      input := rest;
    }

    /**
     * `readFrame`: one 13-byte read. Nothing, or fewer than 13 bytes, gives
     * no frame; otherwise the frame with its checksum verdict.
     */
    method ReadFrame() returns (f: Option<Frame>)
      requires Valid()
      modifies this, rxBuf
      ensures Valid() && (f, input) == ReadFrameSpec(old(input))
      ensures written == old(written) && isOpen == old(isOpen)
    {
      var raw := Read(FrameSize);
      if |raw| == 0 {
        return None;
      }
      if |raw| != FrameSize {
        return None;
      }
      var frame := MakeFrame(raw);
      f := Some(frame);
    }

    /**
     * `readFramesV2`: a single frame, or for a multi-frame reply one
     * full-buffer read scanned for cell-voltage frames: on a match take 13
     * bytes and jump past them, otherwise move on by one byte.
     */
    method ReadFramesV2(isMultiResponse: bool) returns (frames: seq<Frame>)
      requires Valid()
      modifies this, rxBuf
      ensures Valid() && (frames, input) == ReadFramesSpec(old(input), isMultiResponse)
      ensures written == old(written) && isOpen == old(isOpen)
    {
      if !isMultiResponse {
        var f := ReadFrame();
        frames := if f.Some? then [f.value] else [];
        return;
      }
      var data := Read(RxBufSize);
      frames := CutFrames(data);
    }

    /** The port as a value. */
    function PortState(): Port
      reads this
    {
      Port(input, written)
    }

    /**
     * `exec`: up to ten attempts, each writing the request and reading the
     * reply; returns the checksum-valid frames of the first attempt with
     * more than five of them (multi-frame) or exactly one (single-frame).
     * A request that cannot be built fails before anything is written.
     */
    method Exec(cmd: Command, isMultiResponse: bool, value: Option<int>, now: DateTime) returns (r: Outcome<seq<Frame>>)
      requires Valid()
      modifies this, rxBuf
      ensures Valid() && isOpen == old(isOpen)
      ensures RequestFrame(cmd, value, now).Fail? ==> r.Fail? && PortState() == old(PortState())
      ensures RequestFrame(cmd, value, now).Ok? ==>
        var s := ExchangeSpec(old(PortState()), RequestFrame(cmd, value, now).value, isMultiResponse);
        PortState() == s.1 && (r.Ok? <==> s.0.Some?) && (r.Ok? ==> r.value == s.0.value)
    {
      var request := ToSerialBytes(cmd, value, now);
      if request.Fail? {
        return Fail(request.reason);
      }
      r := Retry(request.value, isMultiResponse);
    }

    /** The `repeat(10)` loop of `exec` for a built request. */
    method Retry(req: seq<Byte>, isMultiResponse: bool) returns (r: Outcome<seq<Frame>>)
      requires Valid()
      modifies this, rxBuf
      ensures Valid() && isOpen == old(isOpen)
      ensures var s := ExchangeSpec(old(PortState()), req, isMultiResponse);
        PortState() == s.1 && (r.Ok? <==> s.0.Some?) && (r.Ok? ==> r.value == s.0.value)
    {
      ghost var goal := ExecSpec(input, req, isMultiResponse, Attempts);
      assert [] + goal.2 == goal.2;
      var good := Exchange(req, isMultiResponse, Attempts, goal);
      if good.Some? {
        return Ok(good.value);
      }
      r := Fail("Could not read response(s)");
    }

    /**
     * Up to `n` attempts of an exchange that is on track for `goal`: each
     * writes the request and reads the reply, until one is accepted or all
     * failed. The result and the port are the exchange's.
     */
    method Exchange(req: seq<Byte>, isMultiResponse: bool, n: nat,
                    ghost goal: (Option<seq<Frame>>, seq<Event>, seq<seq<Byte>>))
      returns (good: Option<seq<Frame>>)
      requires Valid() && OnTrack(goal, ExecSpec(input, req, isMultiResponse, n), [])
      modifies this, rxBuf
      ensures Valid() && isOpen == old(isOpen)
      ensures good == goal.0 && input == goal.1 && written == old(written) + goal.2
    {
      ghost var sent: seq<seq<Byte>> := [];
      var left := n;
      good := None;
      while left > 0 && good.None?
        invariant 0 <= left <= n && Valid() && isOpen == old(isOpen)
        invariant written == old(written) + sent
        invariant good.None? ==> OnTrack(goal, ExecSpec(input, req, isMultiResponse, left), sent)
        invariant good.Some? ==> goal == (good, input, sent)
      {
        ghost var before := sent;
        good := Attempt(req, isMultiResponse, left, goal, sent);
        sent := sent + [req];
        assert old(written) + (before + [req]) == (old(written) + before) + [req];
        left := left - 1;
      }
      if good.None? {
        assert ExecSpec(input, req, isMultiResponse, 0) == (None, input, []);
        assert sent + [] == sent;
      }
    }

    /**
     * One pass of the loop: write the request, then read and filter the
     * reply. With `left` attempts to go in an exchange that is on track for
     * `goal` after writing `sent`, an accepted reply completes the exchange;
     * otherwise it stays on track with one attempt fewer.
     */
    method Attempt(req: seq<Byte>, isMultiResponse: bool, left: nat,
                   ghost goal: (Option<seq<Frame>>, seq<Event>, seq<seq<Byte>>), ghost sent: seq<seq<Byte>>)
      returns (good: Option<seq<Frame>>)
      requires Valid() && left > 0 && OnTrack(goal, ExecSpec(input, req, isMultiResponse, left), sent)
      modifies this, rxBuf
      ensures Valid() && isOpen == old(isOpen) && written == old(written) + [req]
      ensures good.None? ==> OnTrack(goal, ExecSpec(input, req, isMultiResponse, left - 1), sent + [req])
      ensures good.Some? ==> goal == (good, input, sent + [req])
    {
      ghost var todo := ExecSpec(input, req, isMultiResponse, left);
      ExecStep(input, req, isMultiResponse, left);
      written := written + [req];
      good := ReadAccepted(isMultiResponse);
      if good.None? {
        OnTrackStep(goal, todo, ExecSpec(input, req, isMultiResponse, left - 1), sent, req);
      }
    }

    /** One attempt's read: `readFramesV2`, then the valid frames if there are enough of them. */
    method ReadAccepted(isMultiResponse: bool) returns (good: Option<seq<Frame>>)
      requires Valid()
      modifies this, rxBuf
      ensures Valid() && (good, input) == AttemptSpec(old(input), isMultiResponse)
      ensures written == old(written) && isOpen == old(isOpen)
    {
      var responseFrames := ReadFramesV2(isMultiResponse);
      var valid := ValidFrames(responseFrames);
      good := if Accepted(valid, isMultiResponse) then Some(valid) else None;
    }

    /** `exec(cmd).single()` for a single-frame command. */
    method ExecSingle(cmd: Command, now: DateTime) returns (f: Option<Frame>)
      requires Valid() && cmd != Command.WriteSoc
      modifies this, rxBuf
      ensures Valid() && isOpen == old(isOpen)
      ensures (f, PortState()) == SingleSpec(old(PortState()), cmd, now)
    {
      var frames := Exec(cmd, false, None, now);
      if frames.Fail? {
        return None;
      }
      ExecAccepts(old(input), PlainRequest(cmd, now), false, Attempts);
      f := Some(frames.value[0]);
    }

    /**
     * `readData` (with `readDataInternal`): one full poll, None when any
     * exchange or the cell reassembly fails.
     */
    method ReadData(now: DateTime, timestamp: real) returns (r: Option<BmsData>)
      requires Valid()
      modifies this, rxBuf
      ensures Valid() && isOpen == old(isOpen)
      ensures (r, PortState()) == ReadDataSpec(old(PortState()), bmsId, numberOfCells, now, timestamp)
    {
      var cells := ReadCells(now);
      if cells.None? {
        return None;
      }
      var replies := ReadReplies(now);
      if replies.None? {
        return None;
      }
      var f := replies.value;
      r := Some(ParseData(bmsId, timestamp, f.voutIoutSoc, f.minMaxCellVoltage, f.minMaxTemperature,
                          f.mosStatus, f.statusInfo, cells.value, f.failureCodes));
    }

    /** The cell-voltage exchange of `readDataInternal` and the reassembly of its frames. */
    method ReadCells(now: DateTime) returns (cells: Option<seq<real>>)
      requires Valid()
      modifies this, rxBuf
      ensures Valid() && isOpen == old(isOpen)
      ensures (cells, PortState()) == CellsSpec(old(PortState()), numberOfCells, now)
    {
      var frames := Exec(CellVoltages, true, None, now);
      if frames.Fail? {
        return None;
      }
      cells := ReassembleCells(frames.value, numberOfCells);
    }

    /** The six `exec(...).single()` arguments of the `parseData` call, in order. */
    method ReadReplies(now: DateTime) returns (replies: Option<Replies>)
      requires Valid()
      modifies this, rxBuf
      ensures Valid() && isOpen == old(isOpen)
      ensures (replies, PortState()) == RepliesSpec(old(PortState()), now)
    {
      var vout := ExecSingle(VoutIoutSoc, now);
      if vout.None? {
        return None;
      }
      var minMaxCell := ExecSingle(MinMaxCellVoltage, now);
      if minMaxCell.None? {
        return None;
      }
      var minMaxTemp := ExecSingle(MinMaxTemperature, now);
      if minMaxTemp.None? {
        return None;
      }
      var mos := ExecSingle(DischargeChargeMosStatus, now);
      if mos.None? {
        return None;
      }
      var statusInfo := ExecSingle(StatusInfo, now);
      if statusInfo.None? {
        return None;
      }
      var failure := ExecSingle(FailureCodes, now);
      if failure.None? {
        return None;
      }
      replies := Some(Replies(vout.value, minMaxCell.value, minMaxTemp.value, mos.value, statusInfo.value, failure.value));
    }

    /** `writeSoc`: one exchange of the WRITE_SOC request; true once the BMS acknowledged it. */
    method WriteSoc(soc: int, now: DateTime) returns (r: Outcome<bool>)
      requires Valid()
      modifies this, rxBuf
      ensures Valid() && isOpen == old(isOpen)
      ensures r != Ok(false)
      ensures r.Ok? <==> (0 <= soc <= 100
        && ExecSpec(old(input), RequestFrame(Command.WriteSoc, Some(soc), now).value, false, Attempts).0.Some?)
      ensures (r.Ok?, PortState()) == WriteSocSpec(old(PortState()), soc, now)
    {
      var responses := Exec(Command.WriteSoc, false, Some(soc), now);
      if responses.Fail? {
        return Fail(responses.reason);
      }
      ExecAccepts(old(input), RequestFrame(Command.WriteSoc, Some(soc), now).value, false, Attempts);
      r := Ok(|responses.value| > 0);
    }

    /** `close`: closes both streams; a failure to close is swallowed. */
    method Close()
      modifies this
      ensures !isOpen && input == old(input) && written == old(written)
    {
      isOpen := false;
    }

    /** The scan loop of `readFramesV2` over the bytes just read into `rxBuf`. */
    method CutFrames(data: seq<Byte>) returns (frames: seq<Frame>)
      requires |data| <= rxBuf.Length && rxBuf[..|data|] == data
      ensures frames == ScanFrames(data)
    {
      frames := [];
      var pos := 0;
      while pos + FrameSize <= |data|
        invariant pos <= |data| + FrameSize
        invariant frames + ScanFrom(data, pos) == ScanFrom(data, 0)
        decreases |data| - pos
      {
        if data[pos] != ToByte(StartByte) || data[pos + 1] != 1
          || data[pos + 2] != ToByte(CommandId(CellVoltages)) || data[pos + 3] != ToByte(DataLength)
        {
          pos := pos + 1;
        } else {
          var rawData := rxBuf[pos..pos + FrameSize];
          assert rawData == rxBuf[..|data|][pos..pos + FrameSize];
          var frame := MakeFrame(rawData);
          assert frames + ScanFrom(data, pos) == (frames + [frame]) + ScanFrom(data, pos + FrameSize);
          frames := frames + [frame];
          pos := pos + FrameSize;
        }
      }
      assert frames + [] == frames;
    }
  }

  /**
   * The `ResponseFrame(...)` built from 13 raw bytes in `readFrame` and
   * `readFramesV2`: the unsigned header bytes, the data bytes, and whether
   * the checksum loop's result equals the last byte.
   */
  method MakeFrame(rawData: seq<Byte>) returns (f: Frame)
    requires |rawData| == FrameSize
    ensures f == FrameOf(rawData)
  {
    var checksum := ComputeChecksum(rawData);
    ChecksumIsSumMod256(rawData[..12]);
    var frame := ResponseFrame(
      ToUnsignedInt(rawData[0]), ToUnsignedInt(rawData[1]), ToUnsignedInt(rawData[2]), ToUnsignedInt(rawData[3]),
      rawData[4..12], checksum == rawData[12], rawData);
    assert frame.WellFormed();
    f := frame;
  }
}
