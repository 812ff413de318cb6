/**
 * The serial line as the connection sees it, and the 8-bit additive
 * checksum every Daly frame ends with (bms/DalyBmsConnection.kt and the
 * older bms/BmsConnection.kt, whose read loop is the same).
 *
 * The input stream is an oracle: a finite sequence of events that the
 * read loop observes one at a time. Time is not modelled; a `Deadline`
 * event (or the end of the sequence) stands for the read timeout expiring.
 */
module DalyWire {
  import opened ByteUtils

  datatype Event =
    | Idle                    // `available() < 1`: the loop sleeps and polls again
    | EndOfStream             // `read` returned -1: the loop sleeps and polls again
    | Data(bytes: seq<Byte>)  // bytes ready to be read, in arrival order
    | Deadline                // the read timeout expires before the next poll

  /** All bytes the stream will ever deliver, in order. */
  function AllData(stream: seq<Event>): seq<Byte> {
    if stream == [] then []
    else (if stream[0].Data? then stream[0].bytes else []) + AllData(stream[1..])
  }

  /**
   * What `read(target, timeout)` collects from `stream` once `want` more
   * bytes are wanted, and the stream that is left. A chunk longer than
   * needed is split: its tail stays at the head of the stream for the next
   * read. The loop stops as soon as nothing more is wanted, at a deadline,
   * or when the stream is exhausted.
   */
  function Drain(stream: seq<Event>, want: nat): (r: (seq<Byte>, seq<Event>))
    ensures |r.0| <= want
    ensures |r.1| <= |stream|
    decreases |stream|
  {
    if want == 0 || stream == [] then ([], stream)
    else match stream[0]
      case Deadline => ([], stream[1..])
      case Idle => Drain(stream[1..], want)
      case EndOfStream => Drain(stream[1..], want)
      case Data(bytes) =>
        if |bytes| <= want then
          var rest := Drain(stream[1..], want - |bytes|);
          (bytes + rest.0, rest.1)
        else (bytes[..want], [Data(bytes[want..])] + stream[1..])
  }

  /** The bytes of a stream are those of its first event, then those of the rest. */
  lemma AllDataCons(stream: seq<Event>)
    requires stream != []
    ensures AllData(stream) == (if stream[0].Data? then stream[0].bytes else []) + AllData(stream[1..])
  {
  }

  /** Splitting a Data event in two keeps the stream's bytes. */
  lemma AllDataSplit(bytes: seq<Byte>, k: nat, tail: seq<Event>)
    requires k <= |bytes|
    ensures bytes[..k] + AllData([Data(bytes[k..])] + tail) == bytes + AllData(tail)
  {
    var left := [Data(bytes[k..])] + tail;
    assert left[1..] == tail;
    AllDataCons(left);
    assert bytes == bytes[..k] + bytes[k..];
  }

  /** Reading loses and invents nothing: the bytes read, then what is left, are the whole stream's bytes. */
  lemma {:induction false} DrainConserves(stream: seq<Event>, want: nat)
    ensures Drain(stream, want).0 + AllData(Drain(stream, want).1) == AllData(stream)
    decreases |stream|
  {
    if want == 0 || stream == [] {
      assert Drain(stream, want) == ([], stream);
    } else {
      var tail := stream[1..];
      AllDataCons(stream);
      match stream[0]
      case Deadline =>
        DrainDeadline(stream, want);
      case Idle =>
        DrainPoll(stream, want);
        DrainConserves(tail, want);
      case EndOfStream =>
        DrainPoll(stream, want);
        DrainConserves(tail, want);
      case Data(bytes) =>
        if |bytes| <= want {
          DrainConserves(tail, want - |bytes|);
          var rest := Drain(tail, want - |bytes|);
          assert Drain(stream, want) == (bytes + rest.0, rest.1);
          assert bytes + rest.0 + AllData(rest.1) == bytes + (rest.0 + AllData(rest.1));
        } else {
          assert Drain(stream, want) == (bytes[..want], [Data(bytes[want..])] + tail);
          AllDataSplit(bytes, want, tail);
        }
    }
  }

  /** With no deadline in the stream, a read comes back short only once the stream has delivered all it had. */
  lemma {:induction false} DrainShortOnlyWhenExhausted(stream: seq<Event>, want: nat)
    requires forall k :: 0 <= k < |stream| ==> !stream[k].Deadline?
    ensures |Drain(stream, want).0| < want ==> Drain(stream, want).1 == []
    ensures |Drain(stream, want).0| == want || |AllData(stream)| < want
    decreases |stream|
  {
    DrainConserves(stream, want);
    if want == 0 || stream == [] {
    } else {
      match stream[0]
      case Idle => DrainShortOnlyWhenExhausted(stream[1..], want);
      case EndOfStream => DrainShortOnlyWhenExhausted(stream[1..], want);
      case Data(bytes) =>
        if |bytes| <= want {
          DrainShortOnlyWhenExhausted(stream[1..], want - |bytes|);
        }
    }
  }

  /** The read loop's steps, one per kind of event at the head of the stream. */
  lemma DrainDeadline(stream: seq<Event>, want: nat)
    requires want > 0 && stream != [] && stream[0].Deadline?
    ensures Drain(stream, want) == ([], stream[1..])
  {
  }

  lemma DrainPoll(stream: seq<Event>, want: nat)
    requires want > 0 && stream != [] && (stream[0].Idle? || stream[0].EndOfStream?)
    ensures Drain(stream, want) == Drain(stream[1..], want)
  {
  }

  /**
   * One chunk of a read that has `read` of its `target` bytes: taking the
   * first `n` bytes of a Data event (all of it, or as many as are still
   * wanted) and draining the rest for what is then still wanted reads what
   * draining the whole stream reads, and leaves the same stream.
   */
  lemma DrainChunk(got: seq<Byte>, stream: seq<Event>, target: nat, read: nat, n: nat)
    requires read < target && stream != [] && stream[0].Data?
    requires n == if |stream[0].bytes| <= target - read then |stream[0].bytes| else target - read
    ensures var bytes := stream[0].bytes;
      var next := if n < |bytes| then [Data(bytes[n..])] + stream[1..] else stream[1..];
      && (got + bytes[..n]) + Drain(next, target - (read + n)).0 == got + Drain(stream, target - read).0
      && Drain(next, target - (read + n)).1 == Drain(stream, target - read).1
  {
    var bytes := stream[0].bytes;
    var want := target - read;
    assert target - (read + n) == want - n;
    if n < |bytes| {
      var next := [Data(bytes[n..])] + stream[1..];
      assert Drain(next, 0) == ([], next);
      assert got + bytes[..n] + [] == got + bytes[..n];
    } else {
      var rest := Drain(stream[1..], want - n);
      assert bytes[..n] == bytes;
      assert Drain(stream, want) == (bytes + rest.0, rest.1);
      assert got + (bytes + rest.0) == (got + bytes) + rest.0;
    }
  }

  /**
   * The read loop of `read(target, timeout)`: fills `buf` from index 0
   * until `target` bytes arrived, the deadline passed or the stream ran
   * dry, asking each time for at most the bytes still missing. Returns a
   * copy of what was read and the stream that is left.
   */
  method Receive(buf: array<Byte>, input: seq<Event>, target: nat) returns (r: seq<Byte>, rest: seq<Event>)
    requires target <= buf.Length
    modifies buf
    ensures (r, rest) == Drain(input, target)
    ensures |r| <= target && buf[..|r|] == r
  {
    ghost var goal := Drain(input, target);
    ghost var got: seq<Byte> := [];
    var stream := input;
    var read := 0;
    var done := false;
    while read < target && !done
      invariant 0 <= read <= target && buf[..read] == got
      invariant !done ==> got + Drain(stream, target - read).0 == goal.0
      invariant !done ==> Drain(stream, target - read).1 == goal.1
      invariant done ==> got == goal.0 && stream == goal.1
      decreases |stream| + (target - read) + (if done then 0 else 1)
    {
      if stream == [] {
        assert Drain(stream, target - read) == ([], stream);
        assert got + [] == got;
        done := true;
      } else if stream[0].Deadline? {
        DrainDeadline(stream, target - read);
        assert got + [] == got;
        stream := stream[1..];
        done := true;
      } else if !stream[0].Data? {
        // nothing available, or end of stream: poll again
        DrainPoll(stream, target - read);
        stream := stream[1..];
      } else {
        var bytes := stream[0].bytes;
        var n := if |bytes| <= target - read then |bytes| else target - read;
        DrainChunk(got, stream, target, read, n);
        CopyInto(buf, read, bytes[..n]);
        got := got + bytes[..n];
        stream := if n < |bytes| then [Data(bytes[n..])] + stream[1..] else stream[1..];
        read := read + n;
      }
    }
    if !done {
      assert Drain(stream, 0) == ([], stream);
      assert got + [] == got;
    }
    r, rest := buf[..read], stream;
  }

  /** Copies `src` into `buf` at `at`, leaving the bytes before `at` alone. */
  method CopyInto(buf: array<Byte>, at: nat, src: seq<Byte>)
    requires at + |src| <= buf.Length
    modifies buf
    ensures buf[..at + |src|] == old(buf[..at]) + src
  {
    for j := 0 to |src|
      invariant buf[..at + j] == old(buf[..at]) + src[..j]
    {
      buf[at + j] := src[j];
    }
  }

  /**
   * The frame checksum as the source computes it: starting from 0, add each
   * byte and truncate back to a signed byte (`(checksum + b).toByte()`).
   */
  function Checksum(bytes: seq<Byte>): Byte {
    if bytes == [] then 0
    else ToByte(Checksum(bytes[..|bytes| - 1]) + bytes[|bytes| - 1])
  }

  /** The sum of the bytes read as unsigned values. */
  function UnsignedSum(bytes: seq<Byte>): nat {
    if bytes == [] then 0
    else UnsignedSum(bytes[..|bytes| - 1]) + ToUnsignedInt(bytes[|bytes| - 1])
  }

  /** The truncating fold is the unsigned byte sum modulo 256. */
  lemma {:induction false} ChecksumIsSumMod256(bytes: seq<Byte>)
    ensures ToUnsignedInt(Checksum(bytes)) == UnsignedSum(bytes) % 256
    decreases |bytes|
  {
    if bytes != [] {
      var init, last := bytes[..|bytes| - 1], bytes[|bytes| - 1];
      ChecksumIsSumMod256(init);
      var c := Checksum(init);
      // both sides are congruent to c + last modulo 256
      assert ToUnsignedInt(Checksum(bytes)) == (c as int + last as int) % 256;
      SumModCongruent(c, last, UnsignedSum(init), ToUnsignedInt(last));
    }
  }

  lemma SumModCongruent(a: int, b: int, x: int, y: int)
    requires a % 256 == x % 256 && b % 256 == y % 256
    ensures (a + b) % 256 == (x + y) % 256
  {
    assert a == (a / 256) * 256 + a % 256;
    assert x == (x / 256) * 256 + x % 256;
    assert b == (b / 256) * 256 + b % 256;
    assert y == (y / 256) * 256 + y % 256;
    ModOfMultiple(a % 256 + b % 256, a / 256 + b / 256);
    ModOfMultiple(x % 256 + y % 256, x / 256 + y / 256);
  }
}
