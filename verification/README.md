# Daly BMS bridge: a verified model

This project models the logic of a service that reads Daly lithium battery
management systems (BMS) over their serial UART protocol and publishes one
aggregated virtual battery to a Victron system. It covers six parts:

- **Byte utilities.** Kotlin's signed bytes, 16- and 32-bit big-endian field
  reads, unsigned conversion and hex rendering (`ByteUtils`).
- **The Daly wire protocol** (`DalyWire`, `DalyFrames`, `DalyParse`,
  `DalyCells`):
  - the read loop that fills the receive buffer from the serial stream;
  - 13-byte request frames with their additive checksum;
  - the scanner that resynchronises on cell-voltage frames;
  - decoding of every reply, including the fault bitmap;
  - reassembly of the multi-frame cell-voltage reply.
- **The connection** (`DalyConnection.BmsConnection`). The serial port is a
  class whose fields are the stream still to come, the requests written and
  the 1024-byte receive buffer. `exec` retries the write-then-read exchange up
  to ten times. The older revision of the connection, with host byte 0x80,
  fixed raw offsets and no retry, is `LegacyConnection`.
- **The SoC estimator.** Piecewise-linear interpolation of a cell's state of
  charge over a fixed voltage table, chosen by charge direction
  (`SoCEstimator`).
- **The virtual battery** (`VirtualBattery`):
  - the latest-snapshot map per pack;
  - the online/offline partition by snapshot age;
  - the charge and discharge control law with its blocking counts;
  - the aggregate values and the alarms published to the Victron bus.
- **The BMS service** (`BmsService`):
  - reading the configured devices and the cell-count setting;
  - the per-tick reconciliation of the table of connected packs (drop
    unwanted packs, connect missing ones, poll, drop failed ones, hand the
    snapshots on);
  - writing a new state of charge to every connection of one pack.

Modelling choices:

- The serial input is an oracle: a sequence of events. An event is idle
  (nothing available), end of stream, a chunk of bytes, or a passed deadline.
  Timeouts are those deadline events.
- The wall clock is a parameter: a `DateTime` for the WRITE_SOC payload, and a
  number of seconds for snapshot timestamps and the online test. It is read
  once per call, not at each point the source reads it (see "## Left out").
- Configuration values are parameters, with the defaults the code uses.
- Voltages, currents and states of charge are `real`.
- Where the code and the intended behaviour of the system differ, the model
  follows the code:
  - A batch handed to the virtual battery while its lock is held is dropped
    as a whole, map update included
    (`victron/VirtualBatteryService.kt:45-53`).
  - Two packs are the same pack only when all four fields of their `BmsId`
    agree (USB id, logical id, display name, capacity), because it is a data
    class (`bms/BmsService.kt:116-121`). A changed display name or capacity
    is therefore a new device: the old connection is closed and a new one
    opened.

## Model

| member | source | states |
|---|---|---|
| ByteUtils.ToUnsignedInt | src/main/kotlin/com/dehnes/daly_bms_service/utils/ByteUtils.kt:21-26 | the result lies in 0..255, is congruent to the byte modulo 256, and truncating it back gives the byte |
| ByteUtils.ReadInt16Bits | src/main/kotlin/com/dehnes/daly_bms_service/utils/ByteUtils.kt:5-12 | the value lies in 0..65535; its high byte is the unsigned first byte and its low byte the unsigned second byte; both bytes must exist |
| ByteUtils.ReadInt32Bits | src/main/kotlin/com/dehnes/daly_bms_service/utils/ByteUtils.kt:14-19 | the value lies in the signed 32-bit range, is negative iff the first byte is, and its low 32 bits are the four bytes big-endian |
| ByteUtils.Int16RoundTrip | src/main/kotlin/com/dehnes/daly_bms_service/utils/ByteUtils.kt:5-12 | writing any 0..65535 value high byte first and reading it back gives it back |
| ByteUtils.Int32RoundTrip | src/main/kotlin/com/dehnes/daly_bms_service/utils/ByteUtils.kt:14-19 | writing any signed 32-bit value big-endian and reading it back gives it back |
| ByteUtils.ToByte | src/main/kotlin/com/dehnes/daly_bms_service/bms/DalyBmsConnection.kt:277-284 | `toByte()` keeps the value modulo 256 and leaves a value in -128..127 unchanged |
| ByteUtils.HexByte | src/main/kotlin/com/dehnes/daly_bms_service/utils/ByteUtils.kt:28 | one byte renders as two lower-case hex digits whose value is the byte's unsigned value |
| ByteUtils.ToHex | src/main/kotlin/com/dehnes/daly_bms_service/utils/ByteUtils.kt:28 | the rendering is twice as long as the array, and each byte owns its two characters in order |
| ByteUtils.ToHexDigits | src/main/kotlin/com/dehnes/daly_bms_service/utils/ByteUtils.kt:28 | every character is a lower-case hex digit, and each pair decodes back to its byte |
| DalyWire.Drain | src/main/kotlin/com/dehnes/daly_bms_service/bms/DalyBmsConnection.kt:162-186 | a read never collects more bytes than wanted and never grows the stream |
| DalyWire.DrainConserves | src/main/kotlin/com/dehnes/daly_bms_service/bms/DalyBmsConnection.kt:162-186 | the bytes read followed by the bytes still to come are exactly the stream's bytes: nothing lost, nothing invented |
| DalyWire.DrainShortOnlyWhenExhausted | src/main/kotlin/com/dehnes/daly_bms_service/bms/DalyBmsConnection.kt:166 | without a deadline, a read comes back short only when the stream held fewer bytes than wanted, and then it is used up |
| DalyWire.DrainChunk | src/main/kotlin/com/dehnes/daly_bms_service/bms/DalyBmsConnection.kt:171-177 | a chunk is taken only as far as bytes are still wanted; its rest stays at the head of the stream |
| DalyWire.Receive | src/main/kotlin/com/dehnes/daly_bms_service/bms/DalyBmsConnection.kt:162-186 | the read loop returns what `Drain` specifies, at most the target, and the receive buffer holds exactly those bytes from index 0, so the "read too much" check cannot fire |
| DalyWire.CopyInto | src/main/kotlin/com/dehnes/daly_bms_service/bms/DalyBmsConnection.kt:171 | a chunk lands at the current fill position and the bytes before it are untouched |
| DalyWire.ChecksumIsSumMod256 | src/main/kotlin/com/dehnes/daly_bms_service/bms/DalyBmsConnection.kt:287-291 | the truncating byte fold equals the unsigned byte sum modulo 256 |
| DalyFrames.CommandId | src/main/kotlin/com/dehnes/daly_bms_service/bms/DalyBmsConnection.kt:242-258 | every command id fits in a byte |
| DalyFrames.CommandIdInjective | src/main/kotlin/com/dehnes/daly_bms_service/bms/DalyBmsConnection.kt:242-258 | two commands share an id iff they are the same command |
| DalyFrames.RequestFrame | src/main/kotlin/com/dehnes/daly_bms_service/bms/DalyBmsConnection.kt:260-294 | the request is 13 bytes; it fails exactly for WRITE_SOC without a value in 0..100 |
| DalyFrames.ToSerialBytes | src/main/kotlin/com/dehnes/daly_bms_service/bms/DalyBmsConnection.kt:260-294 | filling the zeroed buffer in place gives the request `RequestFrame` specifies, or its failure |
| DalyFrames.ComputeChecksum | src/main/kotlin/com/dehnes/daly_bms_service/bms/DalyBmsConnection.kt:287-291 | the checksum loop over bytes 0..11 computes the checksum of those bytes |
| DalyFrames.PutHeader | src/main/kotlin/com/dehnes/daly_bms_service/bms/DalyBmsConnection.kt:265-268 | bytes 0..3 become the header; the other bytes are untouched |
| DalyFrames.PutWriteSocPayload | src/main/kotlin/com/dehnes/daly_bms_service/bms/DalyBmsConnection.kt:270-285 | bytes 4..11 become the timestamp and soc × 10; header and checksum byte are untouched |
| DalyFrames.HeaderBytes | src/main/kotlin/com/dehnes/daly_bms_service/bms/DalyBmsConnection.kt:265-268 | read back unsigned, the header is 0xA5, 0x40, the command id and 8 |
| DalyFrames.RequestLayout | src/main/kotlin/com/dehnes/daly_bms_service/bms/DalyBmsConnection.kt:260-294 | every request has the fixed header, zero bytes 4..11 for every command but WRITE_SOC, and the checksum of bytes 0..11 in byte 12 |
| DalyFrames.WriteSocPayload | src/main/kotlin/com/dehnes/daly_bms_service/bms/DalyBmsConnection.kt:270-285 | for soc in 0..100 the request exists, carries the timestamp in bytes 4..9, and `readInt16Bits(frame, 10) == soc * 10` |
| DalyFrames.DateBytesExact | src/main/kotlin/com/dehnes/daly_bms_service/bms/DalyBmsConnection.kt:277-282 | year modulo 100, month, day, hour, minute and second are sent unchanged |
| DalyFrames.FrameOf | src/main/kotlin/com/dehnes/daly_bms_service/bms/DalyBmsConnection.kt:196-215 | the frame keeps the raw bytes and data bytes 4..11, and its checksum flag holds iff the unsigned sum of bytes 0..11 modulo 256 is byte 12; header bytes are not checked |
| DalyFrames.RequestIsValidFrame | src/main/kotlin/com/dehnes/daly_bms_service/bms/DalyBmsConnection.kt:188-216 | round trip: every request, read back as a frame, passes the checksum and names its command |
| DalyFrames.ScanCutsPatterns | src/main/kotlin/com/dehnes/daly_bms_service/bms/DalyBmsConnection.kt:104-158 | the scanner cuts one frame per offset, from the scan start on: frame k is exactly the 13 bytes at offset k, where 0xA5, 0x01, 0x95, 0x08 starts, and carries that header |
| DalyFrames.ScanSkipsNoPattern | src/main/kotlin/com/dehnes/daly_bms_service/bms/DalyBmsConnection.kt:104-158 | the offsets increase and the frames do not overlap; no pattern starts in the bytes the scanner steps over, before the first frame, between two frames or after the last, so no frame is missed |
| DalyFrames.ScanShift | src/main/kotlin/com/dehnes/daly_bms_service/bms/DalyBmsConnection.kt:108-126 | the bytes before the scan position do not affect what the scan cuts from there |
| DalyFrames.ScanSkipsNoise | src/main/kotlin/com/dehnes/daly_bms_service/bms/DalyBmsConnection.kt:111-126 | bytes where no pattern starts are skipped one at a time without cutting anything |
| DalyFrames.ScanFramesIgnoresNoisePrefix | src/main/kotlin/com/dehnes/daly_bms_service/bms/DalyBmsConnection.kt:104-158 | prepending bytes that hold no pattern start leaves the frames unchanged: the scan resynchronises |
| BmsTypes.StatusValue | src/main/kotlin/com/dehnes/daly_bms_service/bms/DalyBmsConnection.kt:353-357 | each status has its wire value in 0..2 |
| DalyParse.StatusOf | src/main/kotlin/com/dehnes/daly_bms_service/bms/DalyBmsConnection.kt:326-331 | a value in 0..2 gives the status with that value; any other gives stationary |
| DalyParse.StatusRoundTrip | src/main/kotlin/com/dehnes/daly_bms_service/bms/DalyBmsConnection.kt:326-331 | every status read back from its own value is itself |
| DalyParse.ErrorCodesShape | src/main/kotlin/com/dehnes/daly_bms_service/bms/DalyBmsConnection.kt:359-414 | the fault table has 48 entries over failure bytes 0..6, bits strictly ascending, so no bit appears twice; bytes 3 and 6 use bits 0..3 only |
| DalyParse.TablePrefixShape | src/main/kotlin/com/dehnes/daly_bms_service/bms/DalyBmsConnection.kt:359-414 | every prefix of the fault table keeps that shape and has as many entries as its bytes' widths add up to |
| DalyParse.BitSetIsBinaryDigit | src/main/kotlin/com/dehnes/daly_bms_service/bms/DalyBmsConnection.kt:344-346 | `b and (1 shl n) > 0` holds iff binary digit n of the unsigned byte is 1 |
| DalyParse.ActiveErrorsMembers | src/main/kotlin/com/dehnes/daly_bms_service/bms/DalyBmsConnection.kt:342-349 | a description is reported iff some entry with it has its bit set |
| DalyParse.ActiveErrorsInOrder | src/main/kotlin/com/dehnes/daly_bms_service/bms/DalyBmsConnection.kt:342-349 | `mapNotNull` over the table is `filter` then `map`: the reported list is the descriptions of the entries whose bit is set, in table order, once per such entry |
| DalyParse.NoFaultBits | src/main/kotlin/com/dehnes/daly_bms_service/bms/DalyBmsConnection.kt:342-349 | no bit set: no fault reported |
| DalyParse.AllFaultBits | src/main/kotlin/com/dehnes/daly_bms_service/bms/DalyBmsConnection.kt:342-349 | every bit set: every entry reported, in table order |
| DalyParse.Faults | src/main/kotlin/com/dehnes/daly_bms_service/bms/DalyBmsConnection.kt:342-349 | a description is a fault of the reply iff its (byte, bit) is set in the data bytes |
| DalyParse.FaultsInOrder | src/main/kotlin/com/dehnes/daly_bms_service/bms/DalyBmsConnection.kt:342-349 | the faults of a reply are the descriptions of the raised entries of `errorsCodes`, in table order, a description the table repeats reported once per raised entry |
| DalyParse.FaultsExtremes | src/main/kotlin/com/dehnes/daly_bms_service/bms/DalyBmsConnection.kt:342-349 | an all-zero failure reply reports nothing; an all-ones reply reports all 48 descriptions |
| DalyParse.CellEstimates | src/main/kotlin/com/dehnes/daly_bms_service/bms/DalyBmsConnection.kt:315 | one estimate per cell, each in 0..100 and each the estimator's value for that cell; their average also lies in 0..100 |
| DalyParse.ParseData | src/main/kotlin/com/dehnes/daly_bms_service/bms/DalyBmsConnection.kt:297-351 | the snapshot's id, time and cells are the inputs; cell extremes are u16@0 and u16@3 / 1000 with their cell numbers at 2 and 5; temperatures are the signed bytes at 0 and 2 minus 40, with cell numbers at 1 and 3; status is `StatusOf` byte 0; MOSFET, charger and load flags hold iff their byte is 1; life cycles are unsigned byte 3, remaining capacity signed i32@4 / 1000, cycles u16@5; every field lies in its range; the estimates follow the sign of the current; the errors are `Faults` |
| DalyParse.VoutIoutSocDecodes | src/main/kotlin/com/dehnes/daly_bms_service/bms/DalyBmsConnection.kt:308-314 | for values the BMS sends in deci-units: voltage = u16@0 / 10, current = (u16@4 − 30000) / 10 and soc = u16@6 / 10 |
| DalyParse.ExtremesDecode | src/main/kotlin/com/dehnes/daly_bms_service/bms/DalyBmsConnection.kt:316-324 | cell extremes sent in millivolts read back as volts, and temperatures sent as °C + 40 read back as °C, for every temperature in −40..87 |
| DalyParse.StatusFieldsDecode | src/main/kotlin/com/dehnes/daly_bms_service/bms/DalyBmsConnection.kt:326-339 | a status sent as its value, a signed 32-bit remaining capacity in mAh and a 16-bit cycle count read back as that status, that capacity / 1000 and that count |
| DalyCells.CellVoltagesSpec | src/main/kotlin/com/dehnes/daly_bms_service/bms/DalyBmsConnection.kt:50-67 | defined without de-duplication or sorting: a result has exactly `numberOfCells` voltages |
| DalyCells.DistinctFromKeepsFirst | src/main/kotlin/com/dehnes/daly_bms_service/bms/DalyBmsConnection.kt:54 | de-duplication keeps one frame per number, the first that arrived, and loses no number |
| DalyCells.SortFacts | src/main/kotlin/com/dehnes/daly_bms_service/bms/DalyBmsConnection.kt:55 | sorting keeps the frames (a permutation) and their numbers, and orders them by number, strictly when the numbers are distinct |
| DalyCells.ReassemblyOrder | src/main/kotlin/com/dehnes/daly_bms_service/bms/DalyBmsConnection.kt:53-56 | the frames checked are one per number, the first of each, strictly sorted by number |
| DalyCells.ContiguousIffNumbered | src/main/kotlin/com/dehnes/daly_bms_service/bms/DalyBmsConnection.kt:57-58 | the check `frameNumber == index + 1` passes for every sorted frame iff the numbers received are exactly 1..k |
| DalyCells.ReassembleCells | src/main/kotlin/com/dehnes/daly_bms_service/bms/DalyBmsConnection.kt:50-67 | the imperative reassembly returns exactly `CellVoltagesSpec`: the voltages of cells 1..n in order, or None |
| DalyCells.TakeCells | src/main/kotlin/com/dehnes/daly_bms_service/bms/DalyBmsConnection.kt:59-62 | one frame adds its cells in slot order (offsets 1, 3, 5, divided by 1000) until `numberOfCells` are taken |
| DalyCells.NotNumberedFails | src/main/kotlin/com/dehnes/daly_bms_service/bms/DalyBmsConnection.kt:58 | a sorted frame out of place rejects the reply for every cell count |
| DalyCells.NumberedResult | src/main/kotlin/com/dehnes/daly_bms_service/bms/DalyBmsConnection.kt:59-65 | with every frame in place, the cells taken are the specified ones exactly when there are `numberOfCells` of them |
| DalyCells.RepeatedFrameAccepted | src/main/kotlin/com/dehnes/daly_bms_service/bms/DalyBmsConnection.kt:53-66 | frames numbered 2, 1, 2, 3 are accepted and the first frame 2 wins |
| DalyCells.GapRejected | src/main/kotlin/com/dehnes/daly_bms_service/bms/DalyBmsConnection.kt:58 | frames numbered 1 and 3 are rejected |
| DalyCells.TooFewFramesRejected | src/main/kotlin/com/dehnes/daly_bms_service/bms/DalyBmsConnection.kt:65 | more cells than the frames carry are rejected |
| DalyConnection.ValidFrames | src/main/kotlin/com/dehnes/daly_bms_service/bms/DalyBmsConnection.kt:91 | the filter keeps only checksum-valid frames |
| DalyConnection.ValidFramesMembers | src/main/kotlin/com/dehnes/daly_bms_service/bms/DalyBmsConnection.kt:91 | a frame is kept iff it arrived and its checksum is valid |
| DalyConnection.ExecWrites | src/main/kotlin/com/dehnes/daly_bms_service/bms/DalyBmsConnection.kt:83-97 | an exchange writes its request once per attempt: at least once, at most ten times, all ten when it fails |
| DalyConnection.ExecAccepts | src/main/kotlin/com/dehnes/daly_bms_service/bms/DalyBmsConnection.kt:90-93 | an exchange returns only checksum-valid frames: more than five for a multi-frame reply, exactly one otherwise |
| DalyConnection.ExecGivesUpOnSilence | src/main/kotlin/com/dehnes/daly_bms_service/bms/DalyBmsConnection.kt:83-97 | on a silent port every attempt is made, each writes once, and the exchange fails |
| DalyConnection.FirstReplyAccepted | src/main/kotlin/com/dehnes/daly_bms_service/bms/DalyBmsConnection.kt:89-93 | a valid 13-byte reply to the first request ends a single-frame exchange after one write |
| DalyConnection.PlainRequest | src/main/kotlin/com/dehnes/daly_bms_service/bms/DalyBmsConnection.kt:260-294 | a command that takes no value always has a 13-byte request |
| DalyConnection.WriteSocSpec | src/main/kotlin/com/dehnes/daly_bms_service/bms/DalyBmsConnection.kt:39-47 | a state of charge outside 0..100 throws before anything is written |
| DalyConnection.BmsConnection.constructor | src/main/kotlin/com/dehnes/daly_bms_service/bms/DalyBmsConnection.kt:13-30 | opening the port drains one full buffer of pending bytes; nothing is written |
| DalyConnection.BmsConnection.Read | src/main/kotlin/com/dehnes/daly_bms_service/bms/DalyBmsConnection.kt:162-186 | the bytes read and the stream left are `Drain`'s; the copy returned is what `rxBuf` holds from index 0 |
| DalyConnection.BmsConnection.ReadFrame | src/main/kotlin/com/dehnes/daly_bms_service/bms/DalyBmsConnection.kt:188-216 | no frame unless exactly 13 bytes arrived; otherwise the frame with its checksum verdict |
| DalyConnection.BmsConnection.ReadFramesV2 | src/main/kotlin/com/dehnes/daly_bms_service/bms/DalyBmsConnection.kt:100-160 | a single-frame read gives at most one frame; a multi-frame read scans one full-buffer read |
| DalyConnection.BmsConnection.CutFrames | src/main/kotlin/com/dehnes/daly_bms_service/bms/DalyBmsConnection.kt:106-158 | the scan loop cuts exactly `ScanFrames` of the bytes read |
| DalyConnection.MakeFrame | src/main/kotlin/com/dehnes/daly_bms_service/bms/DalyBmsConnection.kt:128-152 | the frame built from 13 raw bytes is `FrameOf` them |
| DalyConnection.BmsConnection.Exec | src/main/kotlin/com/dehnes/daly_bms_service/bms/DalyBmsConnection.kt:82-98 | a request that cannot be built fails with the port unchanged; otherwise the result and the port are the ten-attempt exchange's |
| DalyConnection.BmsConnection.Retry | src/main/kotlin/com/dehnes/daly_bms_service/bms/DalyBmsConnection.kt:83-97 | the `repeat(10)` loop reaches the exchange's outcome, its written requests and its stream |
| DalyConnection.BmsConnection.Exchange | src/main/kotlin/com/dehnes/daly_bms_service/bms/DalyBmsConnection.kt:83-95 | attempts on track for an outcome reach it |
| DalyConnection.BmsConnection.Attempt | src/main/kotlin/com/dehnes/daly_bms_service/bms/DalyBmsConnection.kt:84-94 | one attempt writes the request once, then either completes the exchange or leaves it on track |
| DalyConnection.BmsConnection.ReadAccepted | src/main/kotlin/com/dehnes/daly_bms_service/bms/DalyBmsConnection.kt:89-93 | one read and filter of the reply, with its acceptance verdict |
| DalyConnection.BmsConnection.ExecSingle | src/main/kotlin/com/dehnes/daly_bms_service/bms/DalyBmsConnection.kt:72-78 | `exec(cmd).single()`: the one frame of an accepted reply, or a failure |
| DalyConnection.BmsConnection.ReadCells | src/main/kotlin/com/dehnes/daly_bms_service/bms/DalyBmsConnection.kt:50-67 | the cell-voltage exchange followed by the reassembly |
| DalyConnection.BmsConnection.ReadReplies | src/main/kotlin/com/dehnes/daly_bms_service/bms/DalyBmsConnection.kt:69-79 | the six single-frame exchanges in argument order; the first failure ends the poll |
| DalyConnection.BmsConnection.ReadData | src/main/kotlin/com/dehnes/daly_bms_service/bms/DalyBmsConnection.kt:32-37 | one full poll gives the parsed snapshot, or None when any exchange or the reassembly fails |
| DalyConnection.BmsConnection.WriteSoc | src/main/kotlin/com/dehnes/daly_bms_service/bms/DalyBmsConnection.kt:39-47 | `writeSoc` never answers false: it answers true iff the value is in 0..100 and the BMS acknowledged it, and throws otherwise |
| DalyConnection.BmsConnection.Close | src/main/kotlin/com/dehnes/daly_bms_service/bms/DalyBmsConnection.kt:218-225 | the port is closed and nothing else changes |
| LegacyConnection.CommandId | src/main/kotlin/com/dehnes/daly_bms_service/bms/BmsConnection.kt:90-105 | every command id of this revision fits in a byte |
| LegacyConnection.CommandIdInjective | src/main/kotlin/com/dehnes/daly_bms_service/bms/BmsConnection.kt:90-105 | two commands share an id iff they are the same command |
| LegacyConnection.ReadLengths | src/main/kotlin/com/dehnes/daly_bms_service/bms/BmsConnection.kt:46-51 | `exec` asks for 143 bytes for CELL_VOLTAGES and 13 for every other command, within the receive buffer |
| LegacyConnection.RequestBody | src/main/kotlin/com/dehnes/daly_bms_service/bms/BmsConnection.kt:111-115 | bytes 0..11 of a request: twelve bytes |
| LegacyConnection.RequestFrame | src/main/kotlin/com/dehnes/daly_bms_service/bms/BmsConnection.kt:107-124 | every request of this revision is 13 bytes |
| LegacyConnection.ToSerialBytes | src/main/kotlin/com/dehnes/daly_bms_service/bms/BmsConnection.kt:107-124 | filling the zeroed buffer in place gives `RequestFrame` |
| LegacyConnection.PutHeader | src/main/kotlin/com/dehnes/daly_bms_service/bms/BmsConnection.kt:112-115 | bytes 0..3 become the header; the others are untouched |
| LegacyConnection.RequestLayout | src/main/kotlin/com/dehnes/daly_bms_service/bms/BmsConnection.kt:107-124 | 0xA5, 0x80, the command id, 8, eight zero bytes, then the checksum of bytes 0..11; read back, it is a valid frame |
| LegacyConnection.ExecSpec | src/main/kotlin/com/dehnes/daly_bms_service/bms/BmsConnection.kt:46-51 | one write of the request and one read of at most `13 * responseFrames` bytes, which loses none of the stream's bytes |
| LegacyConnection.TriplesAt | src/main/kotlin/com/dehnes/daly_bms_service/bms/BmsConnection.kt:256-262 | cell c of the flattened list is the u16 at raw offset 13·(c / 3) + 5 + 2·(c mod 3) |
| LegacyConnection.RawCells | src/main/kotlin/com/dehnes/daly_bms_service/bms/BmsConnection.kt:256-263 | exactly the first 16 cells, each the raw u16 at its offset, in 0..65535 |
| LegacyConnection.RawCellsIgnoreFraming | src/main/kotlin/com/dehnes/daly_bms_service/bms/BmsConnection.kt:256-263 | replies that agree on the voltage bytes give the same cells, whatever their headers, numbers and checksums |
| LegacyConnection.RawCellIsMillivolts | src/main/kotlin/com/dehnes/daly_bms_service/bms/BmsConnection.kt:259-261 | a cell carrying mv big-endian decodes to mv itself, not mv / 1000 |
| LegacyConnection.RawFaults | src/main/kotlin/com/dehnes/daly_bms_service/bms/BmsConnection.kt:264-271 | at most one description per table entry |
| LegacyConnection.RawFaultsMembers | src/main/kotlin/com/dehnes/daly_bms_service/bms/BmsConnection.kt:264-271 | a description is reported iff bit b of raw byte n + 4 is set for some entry (n, b) with it |
| LegacyConnection.RawFaultsInOrder | src/main/kotlin/com/dehnes/daly_bms_service/bms/BmsConnection.kt:264-271 | the faults are the descriptions of the entries (n, b) whose bit b of raw byte n + 4 is set, in table order, once per such entry |
| LegacyConnection.ParseData | src/main/kotlin/com/dehnes/daly_bms_service/bms/BmsConnection.kt:216-273 | decoding succeeds iff every reply is long enough (the cell reply at least 76 bytes); then every field comes from its raw offset: cell extremes u16@4 and u16@7 / 1000 with numbers at 6 and 9, temperatures signed bytes 4 and 6 minus 40 with numbers at 5 and 7, status `StatusOf` byte 4, MOSFET flags bytes 5 and 6, life cycles unsigned byte 7, remaining capacity i32@8 / 1000, charger and load flags bytes 6 and 7 and cycles u16@9 of the status reply, the raw cells and the raw faults |
| LegacyConnection.VoutIoutSocDecodes | src/main/kotlin/com/dehnes/daly_bms_service/bms/BmsConnection.kt:229-231 | for values the BMS sends in deci-units: voltage = u16@4 / 10, current = (u16@8 − 30000) / 10, soc = u16@10 / 10 |
| LegacyConnection.ExtremesDecode | src/main/kotlin/com/dehnes/daly_bms_service/bms/BmsConnection.kt:232-240 | cell extremes sent in millivolts at raw offsets 4 and 7 read back as volts, and temperatures sent as °C + 40 at raw bytes 4 and 6 read back as °C, for every temperature in −40..87 |
| LegacyConnection.StatusFieldsDecode | src/main/kotlin/com/dehnes/daly_bms_service/bms/BmsConnection.kt:242-255 | a status sent as its value at raw byte 4, a signed 32-bit remaining capacity in mAh at raw offset 8 and a 16-bit cycle count at raw offset 9 read back as that status, that capacity / 1000 and that count |
| LegacyConnection.ExchangesSpec | src/main/kotlin/com/dehnes/daly_bms_service/bms/BmsConnection.kt:29-40 | the seven exchanges write seven requests, once each, with no retry; each reply is at most its read length |
| LegacyConnection.ExchangesConserve | src/main/kotlin/com/dehnes/daly_bms_service/bms/BmsConnection.kt:29-40 | the seven replies in order, followed by what is left unread, are exactly the bytes the serial line delivered: none lost, none invented |
| LegacyConnection.SilentBmsGivesNothing | src/main/kotlin/com/dehnes/daly_bms_service/bms/BmsConnection.kt:29-44 | a silent BMS gives no snapshot: `readData` yields null |
| LegacyConnection.BmsConnection.constructor | src/main/kotlin/com/dehnes/daly_bms_service/bms/BmsConnection.kt:12-27 | opening drains one full buffer of pending bytes; nothing is written |
| LegacyConnection.BmsConnection.Read | src/main/kotlin/com/dehnes/daly_bms_service/bms/BmsConnection.kt:53-75 | `read` returns at most `readBytes` bytes, those `Drain` specifies |
| LegacyConnection.BmsConnection.Exec | src/main/kotlin/com/dehnes/daly_bms_service/bms/BmsConnection.kt:46-51 | one write and one read, as `ExecSpec` |
| LegacyConnection.BmsConnection.ReadData | src/main/kotlin/com/dehnes/daly_bms_service/bms/BmsConnection.kt:29-44 | the seven exchanges and the decoding; any failure gives None |
| LegacyConnection.BmsConnection.Close | src/main/kotlin/com/dehnes/daly_bms_service/bms/BmsConnection.kt:77-84 | the port is closed and nothing else changes |
| SoCEstimator.Reversed | src/main/kotlin/com/dehnes/daly_bms_service/bms/SoCEstimator.kt:29 | element i of the reversal is element n − 1 − i |
| SoCEstimator.FinalTableValue | src/main/kotlin/com/dehnes/daly_bms_service/bms/SoCEstimator.kt:12-30 | the reversed, filtered table is the ten shared rows then the direction's top row |
| SoCEstimator.FinalTableShape | src/main/kotlin/com/dehnes/daly_bms_service/bms/SoCEstimator.kt:12-30 | eleven rows from 2.5 V / 0 % up to the direction's top row, ascending, every SoC in 0..100 |
| SoCEstimator.FinalTableAscending | src/main/kotlin/com/dehnes/daly_bms_service/bms/SoCEstimator.kt:12-30 | for either direction the final table rises strictly in voltage and weakly in SoC |
| SoCEstimator.FindWindow | src/main/kotlin/com/dehnes/daly_bms_service/bms/SoCEstimator.kt:31-35 | the first window holding the voltage, or None when no window holds it |
| SoCEstimator.WindowsCover | src/main/kotlin/com/dehnes/daly_bms_service/bms/SoCEstimator.kt:31-39 | every voltage between the first and the last row lies in some window, so `error("")` is unreachable |
| SoCEstimator.InterpolationBounds | src/main/kotlin/com/dehnes/daly_bms_service/bms/SoCEstimator.kt:43-49 | inside a window the fraction lies in 0..1 and the result between the two rows' SoC |
| SoCEstimator.InterpolateMonotone | src/main/kotlin/com/dehnes/daly_bms_service/bms/SoCEstimator.kt:43-49 | within a window, interpolation never decreases as the voltage rises |
| SoCEstimator.Estimate | src/main/kotlin/com/dehnes/daly_bms_service/bms/SoCEstimator.kt:27-50 | the estimate always lies in 0..100 |
| SoCEstimator.EstimateAtTableVoltage | src/main/kotlin/com/dehnes/daly_bms_service/bms/SoCEstimator.kt:12-25 | at a row's own voltage the estimate is that row's SoC |
| SoCEstimator.EstimateFullWhenCharging | src/main/kotlin/com/dehnes/daly_bms_service/bms/SoCEstimator.kt:13 | estimate(3.65, charging) = 100 |
| SoCEstimator.EstimateEmptyWhenDischarging | src/main/kotlin/com/dehnes/daly_bms_service/bms/SoCEstimator.kt:24 | estimate(2.5, not charging) = 0 |
| SoCEstimator.EstimateBelowRange | src/main/kotlin/com/dehnes/daly_bms_service/bms/SoCEstimator.kt:37 | any voltage at or below 2.5 V estimates 0 |
| SoCEstimator.EstimateAboveRange | src/main/kotlin/com/dehnes/daly_bms_service/bms/SoCEstimator.kt:13-14 | any voltage at or above the top row (3.65 V charging, 3.4 V otherwise) estimates 100 |
| SoCEstimator.EstimateMonotone | src/main/kotlin/com/dehnes/daly_bms_service/bms/SoCEstimator.kt:27-50 | for a fixed direction the estimate never decreases as the voltage rises |
| RealStats.AverageWithin | src/main/kotlin/com/dehnes/daly_bms_service/victron/VirtualBatteryService.kt:83-85 | the average of values in [lo, hi] lies in [lo, hi] |
| RealStats.SumWithin | src/main/kotlin/com/dehnes/daly_bms_service/victron/VirtualBatteryService.kt:81-86 | a sum of n values in [lo, hi] lies in [n·lo, n·hi] |
| RealStats.MaxOf | src/main/kotlin/com/dehnes/daly_bms_service/victron/VirtualBatteryService.kt:79 | `maxOf` is an element and at least every element |
| RealStats.MinOf | src/main/kotlin/com/dehnes/daly_bms_service/victron/VirtualBatteryService.kt:79 | `minOf` is an element and at most every element |
| Collections.FilterMembers | src/main/kotlin/com/dehnes/daly_bms_service/victron/VirtualBatteryService.kt:230-241 | an element is kept iff it is in the list and passes the test |
| Collections.FilterKeepsAll | src/main/kotlin/com/dehnes/daly_bms_service/victron/VirtualBatteryService.kt:242 | nothing is dropped iff every element passes |
| Collections.PartitionSizes | src/main/kotlin/com/dehnes/daly_bms_service/victron/VirtualBatteryService.kt:67-69 | each element lands on exactly one side of a partition |
| Collections.FilterSnoc | src/main/kotlin/com/dehnes/daly_bms_service/victron/VirtualBatteryService.kt:67-69 | one more element at the end of a list is kept by `filter` iff it passes the test, after the others' result |
| Collections.Put | src/main/kotlin/com/dehnes/daly_bms_service/victron/VirtualBatteryService.kt:57 | a map update keeps map and insertion order in step; a new key goes last, an old one keeps its place |
| Collections.PutAllKeys | src/main/kotlin/com/dehnes/daly_bms_service/bms/BmsService.kt:44 | after storing the pairs, the keys are the old ones and those of the pairs |
| Collections.WithoutTwice | src/main/kotlin/com/dehnes/daly_bms_service/bms/BmsService.kt:36-40 | removing one set of keys, then another, removes both |
| Collections.WithoutOrdered | src/main/kotlin/com/dehnes/daly_bms_service/bms/BmsService.kt:39 | removing keys from the map and from its order keeps the two in step |
| Collections.RemoveAll | src/main/kotlin/com/dehnes/daly_bms_service/bms/BmsService.kt:36-40 | the listed keys leave the map; every other keeps its value; the remaining keys keep their insertion order, as the order filtered by "not listed" |
| Collections.WithoutIsFilter | src/main/kotlin/com/dehnes/daly_bms_service/bms/BmsService.kt:36-40 | dropping a set of keys from the insertion order is the filter that keeps the keys outside the set |
| VirtualBattery.Values | src/main/kotlin/com/dehnes/daly_bms_service/victron/VirtualBatteryService.kt:83-85 | one field of every snapshot, in order |
| VirtualBattery.FirstMaxIndex | src/main/kotlin/com/dehnes/daly_bms_service/victron/VirtualBatteryService.kt:90 | `maxBy` picks the first element with the largest key |
| VirtualBattery.FirstMinIndex | src/main/kotlin/com/dehnes/daly_bms_service/victron/VirtualBatteryService.kt:91 | `minBy` picks the first element with the smallest key |
| VirtualBattery.ExtremesAgree | src/main/kotlin/com/dehnes/daly_bms_service/victron/VirtualBatteryService.kt:79-94 | `maxBy`/`minBy` pick elements carrying `maxOf`/`minOf` |
| VirtualBattery.ApplyBatch | src/main/kotlin/com/dehnes/daly_bms_service/victron/VirtualBatteryService.kt:56-58 | storing a batch keeps map and insertion order in step |
| VirtualBattery.ApplyBatchKeys | src/main/kotlin/com/dehnes/daly_bms_service/victron/VirtualBatteryService.kt:56-58 | a pack is known after the batch iff it was before or the batch mentions it: no entry is removed |
| VirtualBattery.ApplyBatchUntouched | src/main/kotlin/com/dehnes/daly_bms_service/victron/VirtualBatteryService.kt:56-58 | a pack the batch does not mention keeps its snapshot |
| VirtualBattery.ApplyBatchLastWins | src/main/kotlin/com/dehnes/daly_bms_service/victron/VirtualBatteryService.kt:56-58 | a pack the batch mentions ends with its last snapshot in the batch |
| VirtualBattery.Snapshots | src/main/kotlin/com/dehnes/daly_bms_service/victron/VirtualBatteryService.kt:67 | the known snapshots in insertion order |
| VirtualBattery.OnlineOfflinePartition | src/main/kotlin/com/dehnes/daly_bms_service/victron/VirtualBatteryService.kt:65-69 | a pack is online iff its timestamp is strictly after now − bmsOfflineAfterSeconds, offline otherwise; the two lists partition the packs |
| VirtualBattery.NoneOnline | src/main/kotlin/com/dehnes/daly_bms_service/victron/VirtualBatteryService.kt:71-74 | the online list is empty iff no pack is online |
| VirtualBattery.OfflineWitness | src/main/kotlin/com/dehnes/daly_bms_service/victron/VirtualBatteryService.kt:77 | the offline list is non-empty iff some pack is offline |
| VirtualBattery.ChargeParamsOf | src/main/kotlin/com/dehnes/daly_bms_service/victron/VirtualBatteryService.kt:218-260 | charging is allowed iff every online pack allows it (inclusive temperature range, MOSFET on, no cell above cut-off); then the configured current, otherwise current 0; the blocking count is exactly the number of online packs that do not allow charging; the voltage is `maxCellVoltageCharge` × cells either way |
| VirtualBattery.DischargeParamsOf | src/main/kotlin/com/dehnes/daly_bms_service/victron/VirtualBatteryService.kt:262-311 | discharging is allowed iff every online pack allows it (inclusive temperature range, MOSFET on, no cell below the floor, average soc strictly above the minimum); then the configured current, otherwise 0; the blocking count is exactly the number of online packs that do not allow discharging |
| VirtualBattery.LowSocBlocksAll | src/main/kotlin/com/dehnes/daly_bms_service/victron/VirtualBatteryService.kt:269-275 | an average soc at or below the minimum makes every online pack block discharging |
| VirtualBattery.HighestCell | src/main/kotlin/com/dehnes/daly_bms_service/victron/VirtualBatteryService.kt:90 | the pack `maxBy` picks carries the highest cell voltage of all online packs |
| VirtualBattery.LowestCell | src/main/kotlin/com/dehnes/daly_bms_service/victron/VirtualBatteryService.kt:91 | the pack `minBy` picks carries the lowest cell voltage of all online packs |
| VirtualBattery.Largest | src/main/kotlin/com/dehnes/daly_bms_service/victron/VirtualBatteryService.kt:88-92 | `maxOf` over the online packs is attained by one and at least every pack's |
| VirtualBattery.Wrap32 | src/main/kotlin/com/dehnes/daly_bms_service/victron/VirtualBatteryService.kt:82 | a whole number cut to a Kotlin `Int`: in the signed 32-bit range and congruent to it modulo 2^32 |
| VirtualBattery.IntSumOfWraps | src/main/kotlin/com/dehnes/daly_bms_service/victron/VirtualBatteryService.kt:82 | `sumOf` over `Int` capacities, wrapping on every addition, equals the exact sum wrapped once to 32 bits, and the exact sum whenever that fits an `Int` |
| VirtualBattery.AggregateCells | src/main/kotlin/com/dehnes/daly_bms_service/victron/VirtualBatteryService.kt:88-94 | the published cell extremes and their cell numbers come from one online pack each and bound every online pack's; the cell delta is the highest `maxCellVoltage` minus the lowest `minCellVoltage` |
| VirtualBattery.MinBatteryVoltage | src/main/kotlin/com/dehnes/daly_bms_service/victron/VirtualBatteryService.kt:79 | the published minimum battery voltage is the lowest `minCellVoltage` of any online pack times the number of cells |
| VirtualBattery.AlarmsOf | src/main/kotlin/com/dehnes/daly_bms_service/victron/VirtualBatteryService.kt:98-102 | each alarm is 2 exactly when its threshold is crossed, the imbalance band is 0.2 V for 30 < soc < 90 and 0.4 V outside; the offline alarm is shared by `/Alarms/Alarm` and `/Alarms/InternalFailure` |
| VirtualBattery.LowTemperatureNeedsAllCold | src/main/kotlin/com/dehnes/daly_bms_service/victron/VirtualBatteryService.kt:89 | the "minimum" temperature is the largest `minTemp`, so the low-temperature alarm is raised iff every online pack's `minTemp` is below 10 |
| VirtualBattery.Republish | src/main/kotlin/com/dehnes/daly_bms_service/victron/VirtualBatteryService.kt:64-210 | nothing is published iff no pack is online; otherwise online plus offline is every known pack and the counts are those of the two lists; the aggregate, the charge and discharge parameters and the alarms are computed from the online packs alone, the offline count only raising the general alarm (2 iff some pack is offline); all snapshots are attached |
| VirtualBattery.OfflinePackIgnored | src/main/kotlin/com/dehnes/daly_bms_service/victron/VirtualBatteryService.kt:64-96 | a pack that has not reported within `bmsOfflineAfterSeconds` changes nothing but the offline count, the general alarm and the internal failure (both 2) and the attached snapshots: aggregate, control parameters and threshold alarms stay as they were |
| VirtualBattery.VirtualBatteryService.constructor | src/main/kotlin/com/dehnes/daly_bms_service/victron/VirtualBatteryService.kt:20-43 | no pack is known and nothing is published |
| VirtualBattery.VirtualBatteryService.OnBmsData | src/main/kotlin/com/dehnes/daly_bms_service/victron/VirtualBatteryService.kt:45-53 | with the lock held elsewhere, the whole batch is dropped; otherwise the batch is stored and the total republished |
| VirtualBattery.VirtualBatteryService.OnBmsDataLocked | src/main/kotlin/com/dehnes/daly_bms_service/victron/VirtualBatteryService.kt:55-62 | the batch is stored, then the report over the updated packs is sent, if there is one |
| VirtualBattery.VirtualBatteryService.Absorb | src/main/kotlin/com/dehnes/daly_bms_service/victron/VirtualBatteryService.kt:56-58 | the loop leaves map and order as `ApplyBatch` and sends nothing |
| BmsService.ParseInt | src/main/kotlin/com/dehnes/daly_bms_service/bms/BmsService.kt:13 | `toInt()` succeeds only on a string with a digit, giving a value in the `Int` range |
| BmsService.ParseShowNat | src/main/kotlin/com/dehnes/daly_bms_service/bms/BmsService.kt:13 | every `Int` written in decimal, with or without a minus sign, parses back to itself |
| BmsService.ParseNeedsDigits | src/main/kotlin/com/dehnes/daly_bms_service/bms/BmsService.kt:13 | a string with no digit, such as the empty string, does not parse |
| BmsService.NumberOfCellsDefault | src/main/kotlin/com/dehnes/daly_bms_service/bms/BmsService.kt:13 | without a stored cell count a pack has 16 cells |
| BmsService.ReplaceAllNoOccurrence | src/main/kotlin/com/dehnes/daly_bms_service/bms/BmsService.kt:45 | a key without the prefix is left as it is |
| BmsService.ReplaceAllShortens | src/main/kotlin/com/dehnes/daly_bms_service/bms/BmsService.kt:45 | a key holding the prefix comes out shorter |
| BmsService.StripDevicesPrefix | src/main/kotlin/com/dehnes/daly_bms_service/bms/BmsService.kt:44-45 | the configured key "daly_bms.devices." + usbId gives usbId |
| BmsService.StrippedEntries | src/main/kotlin/com/dehnes/daly_bms_service/bms/BmsService.kt:44-46 | every entry under its stripped key, in order |
| BmsService.TargetOf | src/main/kotlin/com/dehnes/daly_bms_service/bms/BmsService.kt:47-52 | a target carries the device's USB id and logical id, and exists iff its capacity setting parses |
| BmsService.TargetDefaults | src/main/kotlin/com/dehnes/daly_bms_service/bms/BmsService.kt:50-51 | without stored settings the display name is empty and the capacity 280 |
| BmsService.TargetDevices | src/main/kotlin/com/dehnes/daly_bms_service/bms/BmsService.kt:44-53 | no two targets share a USB id |
| BmsService.TargetDevicesCover | src/main/kotlin/com/dehnes/daly_bms_service/bms/BmsService.kt:44-53 | every configured device key gives a target whose USB id is the stripped key |
| BmsService.Drop | src/main/kotlin/com/dehnes/daly_bms_service/bms/BmsService.kt:35-41 | the listed packs leave the table; every other keeps its connection and its place |
| BmsService.Connect | src/main/kotlin/com/dehnes/daly_bms_service/bms/BmsService.kt:61-70 | the connect loop keeps the table and its order in step |
| BmsService.ConnectLinks | src/main/kotlin/com/dehnes/daly_bms_service/bms/BmsService.kt:61-70 | a pack is in the table after the loop iff it was before or it was listed and its port and cell count were usable; a newly connected one holds a fresh connection, every other keeps its own |
| BmsService.ReadAll | src/main/kotlin/com/dehnes/daly_bms_service/bms/BmsService.kt:73-84 | one read per connected pack, each snapshot naming its own pack |
| BmsService.Poll | src/main/kotlin/com/dehnes/daly_bms_service/bms/BmsService.kt:73-84 | every pack polled lands in exactly one of the snapshots and the failed list |
| BmsService.PollFailed | src/main/kotlin/com/dehnes/daly_bms_service/bms/BmsService.kt:78-83 | a pack is listed as failed exactly when its read gave nothing |
| BmsService.PollSnapshots | src/main/kotlin/com/dehnes/daly_bms_service/bms/BmsService.kt:73-84 | every snapshot collected is what its own pack's read gave |
| BmsService.PollOrder | src/main/kotlin/com/dehnes/daly_bms_service/bms/BmsService.kt:73-84 | the snapshots come in table order, less the failed packs |
| BmsService.Advance | src/main/kotlin/com/dehnes/daly_bms_service/bms/BmsService.kt:73-84 | moving connections on keeps the table's keys and order |
| BmsService.Reconciled | src/main/kotlin/com/dehnes/daly_bms_service/bms/BmsService.kt:55-70 | steps 1 and 2 keep the table and its order in step |
| BmsService.ReconciledLinks | src/main/kotlin/com/dehnes/daly_bms_service/bms/BmsService.kt:55-70 | after steps 1 and 2 a pack is in the table iff it is a target and was connected or could be connected; the first keep their connection, the others hold a fresh one |
| BmsService.SettleKeys | src/main/kotlin/com/dehnes/daly_bms_service/bms/BmsService.kt:86-87 | step 4 keeps a pack iff its read gave a snapshot, its connection moved on by that read |
| BmsService.SettleOrder | src/main/kotlin/com/dehnes/daly_bms_service/bms/BmsService.kt:73-87 | the snapshots handed on are those of the packs left, in table order |
| BmsService.SettleOutcome | src/main/kotlin/com/dehnes/daly_bms_service/bms/BmsService.kt:73-87 | after steps 3 and 4 a pack stays iff its read gave a snapshot, and the snapshots are the reads of exactly those packs |
| BmsService.TickSpec | src/main/kotlin/com/dehnes/daly_bms_service/bms/BmsService.kt:31-102 | one tick keeps the table and its order in step |
| BmsService.TickOutcome | src/main/kotlin/com/dehnes/daly_bms_service/bms/BmsService.kt:31-102 | a pack is connected after a tick iff it is configured, was or could be connected, and its read gave a snapshot; the list handed to the listeners names exactly those packs, in table order, each with the snapshot its own read gave |
| BmsService.AckAll | src/main/kotlin/com/dehnes/daly_bms_service/bms/BmsService.kt:107-108 | one write outcome per connected pack |
| BmsService.SocWrites | src/main/kotlin/com/dehnes/daly_bms_service/bms/BmsService.kt:107-109 | only connections of the named pack are written |
| BmsService.SocWritesOutcome | src/main/kotlin/com/dehnes/daly_bms_service/bms/BmsService.kt:104-112 | `writeSoc` answers false iff no connection belongs to the pack, and throws iff one of them does not acknowledge; it answers true otherwise. Only that pack's connections are written, and all of them when none fails |
| BmsService.SocWritesFrom | src/main/kotlin/com/dehnes/daly_bms_service/bms/BmsService.kt:104-112 | the same for any value of the running result |
| BmsService.WriteSocAll | src/main/kotlin/com/dehnes/daly_bms_service/bms/BmsService.kt:104-112 | `writeSoc` keeps the table's keys and order |
| BmsService.WriteSocOthers | src/main/kotlin/com/dehnes/daly_bms_service/bms/BmsService.kt:107-109 | connections of other packs are left as they were; exactly those written move on |
| BmsService.PollSnoc | src/main/kotlin/com/dehnes/daly_bms_service/bms/BmsService.kt:73-84 | the poll runs front to back: one more pack adds its own outcome at the end |
| BmsService.PollingDone | src/main/kotlin/com/dehnes/daly_bms_service/bms/BmsService.kt:73-84 | after every connection, the loop state is the poll's outcome with every connection moved on |
| BmsService.WritingDone | src/main/kotlin/com/dehnes/daly_bms_service/bms/BmsService.kt:106-110 | once the loop ran out or threw, its state is what `writeSoc` gives |
| BmsService.BmsService.constructor | src/main/kotlin/com/dehnes/daly_bms_service/bms/BmsService.kt:27 | no pack is connected |
| BmsService.BmsService.Discard | src/main/kotlin/com/dehnes/daly_bms_service/bms/BmsService.kt:38-39 | pack d, if connected, leaves the table and its order |
| BmsService.BmsService.CloseAll | src/main/kotlin/com/dehnes/daly_bms_service/bms/BmsService.kt:35-41 | the loop leaves the table as `Drop` |
| BmsService.BmsService.Admit | src/main/kotlin/com/dehnes/daly_bms_service/bms/BmsService.kt:66 | pack d holds a new connection; a new key goes last in the order |
| BmsService.BmsService.ConnectAll | src/main/kotlin/com/dehnes/daly_bms_service/bms/BmsService.kt:61-70 | the loop leaves the table as `Connect` |
| BmsService.BmsService.PollAll | src/main/kotlin/com/dehnes/daly_bms_service/bms/BmsService.kt:73-84 | the sequential poll gives `Poll`'s snapshots and failures and moves every connection on |
| BmsService.BmsService.PollOne | src/main/kotlin/com/dehnes/daly_bms_service/bms/BmsService.kt:77-83 | one read keeps the poll on track |
| BmsService.BmsService.Tick | src/main/kotlin/com/dehnes/daly_bms_service/bms/BmsService.kt:31-102 | a configuration that cannot be read fails the tick with the table unchanged; otherwise the snapshots and the table are `TickSpec`'s |
| BmsService.BmsService.WriteSoc | src/main/kotlin/com/dehnes/daly_bms_service/bms/BmsService.kt:104-112 | the answer and the table are `WriteSocAll`'s |

## Left out

- Serial I/O, timing and sleeps are not modelled. The stream is an event
  sequence, and deadlines are events in it.
- Closing streams is modelled as clearing an `isOpen` flag. A failure to
  close is swallowed, so it has no effect.
- The old revision's hard-coded `/dev/ttyUSB0` is not modelled: its
  connection reads the port it is given.
- Logging is not modelled: every logger call, including the message for an
  unknown status byte.
- The wall clock (`Instant.now()`) is a parameter read once per call, not at
  every point the source reads it:
- DalyConnection.BmsConnection.Exec: takes one clock reading per `exec`. The source rebuilds the WRITE_SOC request inside `repeat(10)`, so each retry sends the time of that retry in bytes 4..9. The model sends the same request on every retry.
- BmsService.ReadAll: gives every pack of one tick the same snapshot timestamp. In the source, each `parseData` reads `Instant.now()` on its own.
- Concurrency is not modelled:
  - `runInParallel` is a sequential loop over the table in insertion order.
  - The reentrant lock is a `lockFree` flag.
  - The listener executor is replaced by the tick's return value: every
    listener is handed that one list. A listener's exception is caught in
    the source and so has no effect.
  - `asLocked` and `AbstractProcess` are not part of this model.
- `PersistenceService` is not part of this model. Settings are a map with
  the defaults the code gives. `numberOfCells()` is read once per tick.
- `toInt()` is modelled for ASCII decimal digits only (an optional sign,
  then digits).
- `SerialPortFinder` is not part of this model. A device whose USB id has no
  entry in the ports map stands for a port that cannot be found, and also for
  a constructor that throws.
- The service table holds each connection as a value (its port and cell
  count), not as a `BmsConnection` object. Object identity, aliasing and
  `close()` on the service's connections are therefore not modelled.
- `BmsService.BmsService.Tick`: a failing configuration is `Fail` without
  the exception's message.
- `BmsService.BmsService.WriteSoc`: an exception from a connection is `None`
  without its message.
- MQTT publishing, `DbusService`/`DbusData` strings and their formatting are
  not modelled. The report is a record of values, and `published` is the
  list of reports sent.
- The Victron `writeSoc` listener, which turns a false answer into an
  exception, is not modelled.
- Floating point is `real`:
  - `round2d` is left out, so the alarms compare unrounded values.
  - The average of an empty list (NaN in the source) is 0. This is
    reachable: a pack whose stored cell count is 0 reassembles to no cells,
    so its estimated-SoC average is NaN in the source and 0 here, and that
    value enters the virtual battery's average estimated SoC.
- `maxCellChargeVoltage` is read by the source but never used, so it is
  not modelled.
- `DalyParse.ExtremesDecode`, `LegacyConnection.ExtremesDecode`: stated
  for temperatures in −40..87 °C only. Above 87 °C the source reads the
  temperature byte as signed and reports a value 256 lower; `ParseData`
  models that as written.
