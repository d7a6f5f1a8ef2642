// The two ends of a socket: the incremental reassembler of
// libdaylite/src/tcp_input_channel.cpp and the partial-send loop of
// libdaylite/src/tcp_output_channel.cpp. What recv and send do is given call by call.

module TcpChannels {
  import opened Numbers
  import opened Packets

  // ---- frames -------------------------------------------------------------

  /** The int32 total length that starts a BSON document (the `document` production of
      the BSON specification, version 1.1), little-endian, read as uint32. */
  function FrameLength(buffer: seq<Byte>): nat
    requires |buffer| >= 4
  {
    var (b0: nat, b1: nat, b2: nat, b3: nat) := (buffer[0], buffer[1], buffer[2], buffer[3]);
    b0 + 0x100 * b1 + 0x1_0000 * b2 + 0x100_0000 * b3
  }

  /** A whole document: at least its length and its terminator. */
  predicate WellFormed(frame: seq<Byte>) {
    |frame| >= 5 && FrameLength(frame) == |frame|
  }

  function Concat(frames: seq<seq<Byte>>): seq<Byte> {
    if frames == [] then [] else frames[0] + Concat(frames[1..])
  }

  lemma {:induction false} ConcatAppend(frames: seq<seq<Byte>>, f: seq<Byte>)
    ensures Concat(frames + [f]) == Concat(frames) + f
  {
    if frames == [] {
      assert [] + [f] == [f] && [f][1..] == [];
    } else {
      assert (frames + [f])[1..] == frames[1..] + [f];
      ConcatAppend(frames[1..], f);
    }
  }

  // ---- reading ------------------------------------------------------------

  const EAGAIN: nat := 11

  const RECV_SIZE: nat := 0xFFFF

  /** What fits the array that read hands to recv. */
  type Chunk = bytes: seq<Byte> | |bytes| <= RECV_SIZE witness []

  /** What one call of recv does: it gives some bytes, perhaps none, or an error code. */
  datatype Recv = Received(bytes: Chunk) | RecvFailed(code: nat)

  datatype ReadResult = Frame(bytes: seq<Byte>) | NoFrame(code: nat)

  /** The new buffer, the bytes taken from the socket, and what read returns. */
  datatype ReadEffect = ReadEffect(buffer: seq<Byte>, received: seq<Byte>, result: ReadResult)

  /** read, when its first call of recv does `first` and its second one `second`. */
  function ReadOnce(buffer: seq<Byte>, first: Recv, second: Recv): ReadEffect {
    if |buffer| >= 4 then ReadBody(buffer, [], first)
    else match first
      case RecvFailed(code) => ReadEffect(buffer, [], NoFrame(code))
      case Received(bytes) => ReadBody(buffer + bytes, bytes, second)
  }

  function ReadBody(buffer: seq<Byte>, received: seq<Byte>, next: Recv): ReadEffect {
    if |buffer| < 4 then ReadEffect(buffer, received, NoFrame(EAGAIN))
    else if |buffer| >= FrameLength(buffer) then Chop(buffer, received)
    else match next
      case RecvFailed(code) => ReadEffect(buffer, received, NoFrame(code))
      case Received(bytes) => Chop(buffer + bytes, received + bytes)
  }

  function Chop(buffer: seq<Byte>, received: seq<Byte>): ReadEffect
    requires |buffer| >= 4
  {
    var size := FrameLength(buffer);
    if |buffer| < size then ReadEffect(buffer, received, NoFrame(EAGAIN))
    else ReadEffect(buffer[size..], received, Frame(buffer[..size]))
  }

  class TcpInputChannel {
    var buffer: seq<Byte>

    constructor ()
      ensures buffer == []
    {
      buffer := [];
    }

    method Read(first: Recv, second: Recv) returns (received: seq<Byte>, r: ReadResult)
      modifies this
      ensures ReadEffect(buffer, received, r) == ReadOnce(old(buffer), first, second)
      ensures forall n: nat | StartsWith(old(buffer), n) && n <= |old(buffer)| ::
                r == Frame(old(buffer)[..n]) && buffer == old(buffer)[n..] && received == []
    {
      forall n: nat | StartsWith(buffer, n) && n <= |buffer|
        ensures ReadOnce(buffer, first, second) == ReadEffect(buffer[n..], [], Frame(buffer[..n]))
      {
        BufferedFrame(buffer, n, first, second);
      }
      received := [];
      var next := first;
      if |buffer| < 4 {
        match first {
          case RecvFailed(code) => return received, NoFrame(code);
          case Received(bytes) => buffer, received, next := buffer + bytes, bytes, second;
        }
      }
      if |buffer| < 4 {
        return received, NoFrame(EAGAIN);
      }
      var size := FrameLength(buffer);
      if |buffer| < size {
        match next {
          case RecvFailed(code) => return received, NoFrame(code);
          case Received(bytes) => buffer, received := buffer + bytes, received + bytes;
        }
      }
      if |buffer| < size {
        return received, NoFrame(EAGAIN);
      }
      r := Frame(buffer[..size]);
      buffer := buffer[size..];
    }
  }

  // ---- what one read returns ----------------------------------------------

  /** The buffer starts with n as an int32, lowest byte first. */
  predicate StartsWith(buffer: seq<Byte>, n: nat) {
    && n < 0x1_0000_0000 && |buffer| >= 4
    && buffer[0] == n % 256 && buffer[1] == n / 256 % 256
    && buffer[2] == n / 65536 % 256 && buffer[3] == n / 16777216
  }

  lemma LengthIsLittleEndian(buffer: seq<Byte>, n: nat)
    requires StartsWith(buffer, n)
    ensures FrameLength(buffer) == n
  {
    assert n / 65536 == n / 256 / 256 && n / 16777216 == n / 65536 / 256;
    assert n / 65536 == 256 * (n / 16777216) + n / 65536 % 256;
    assert n / 256 == 256 * (n / 65536) + n / 256 % 256;
  }

  /** A frame that is in the buffer is returned, exactly, and no recv is called. */
  lemma BufferedFrame(buffer: seq<Byte>, n: nat, first: Recv, second: Recv)
    requires StartsWith(buffer, n) && n <= |buffer|
    ensures ReadOnce(buffer, first, second) == ReadEffect(buffer[n..], [], Frame(buffer[..n]))
  {
    LengthIsLittleEndian(buffer, n);
  }

  /** With the length known and the frame not yet there, one recv is called: a frame that
      it completes is returned, and otherwise all it gave is kept. */
  lemma OneRecv(buffer: seq<Byte>, n: nat, first: Recv, second: Recv)
    requires StartsWith(buffer, n) && |buffer| < n
    ensures first.RecvFailed? ==> ReadOnce(buffer, first, second) == ReadEffect(buffer, [], NoFrame(first.code))
    ensures first.Received? ==>
              var whole := buffer + first.bytes;
              ReadOnce(buffer, first, second)
              == if n <= |whole| then ReadEffect(whole[n..], first.bytes, Frame(whole[..n]))
                 else ReadEffect(whole, first.bytes, NoFrame(11))
  {
    LengthIsLittleEndian(buffer, n);
    if first.Received? {
      assert StartsWith(buffer + first.bytes, n);
      LengthIsLittleEndian(buffer + first.bytes, n);
    }
  }

  /** Without a length, the first recv is for that; if it gives none, that is all. */
  lemma NoLength(buffer: seq<Byte>, first: Recv, second: Recv)
    requires |buffer| < 4
    ensures first.RecvFailed? ==> ReadOnce(buffer, first, second) == ReadEffect(buffer, [], NoFrame(first.code))
    ensures first.Received? && |buffer + first.bytes| < 4 ==>
              ReadOnce(buffer, first, second) == ReadEffect(buffer + first.bytes, first.bytes, NoFrame(11))
  {}

  /** If it gives the length, the second recv is for the rest: a frame that the two
      complete together is returned. */
  lemma TwoRecvs(buffer: seq<Byte>, n: nat, a: Chunk, second: Recv)
    requires |buffer| < 4 && StartsWith(buffer + a, n)
    ensures n <= |buffer + a| ==>
              ReadOnce(buffer, Received(a), second)
              == ReadEffect((buffer + a)[n..], a, Frame((buffer + a)[..n]))
    ensures |buffer + a| < n && second.RecvFailed? ==>
              ReadOnce(buffer, Received(a), second) == ReadEffect(buffer + a, a, NoFrame(second.code))
    ensures |buffer + a| < n && second.Received? ==>
              var whole := buffer + a + second.bytes;
              ReadOnce(buffer, Received(a), second)
              == if n <= |whole| then ReadEffect(whole[n..], a + second.bytes, Frame(whole[..n]))
                 else ReadEffect(whole, a + second.bytes, NoFrame(11))
  {
    LengthIsLittleEndian(buffer + a, n);
    if second.Received? {
      assert StartsWith(buffer + a + second.bytes, n);
      LengthIsLittleEndian(buffer + a + second.bytes, n);
    }
  }

  /** Bytes are neither lost nor invented, whatever they are. */
  lemma ReadConserves(buffer: seq<Byte>, first: Recv, second: Recv)
    ensures var e := ReadOnce(buffer, first, second);
            (if e.result.Frame? then e.result.bytes else []) + e.buffer == buffer + e.received
  {
    hide ReadBody;
    BodyConserves(buffer, [], first);
    if |buffer| < 4 && first.Received? {
      BodyConserves(buffer + first.bytes, first.bytes, second);
      assert buffer + first.bytes == (buffer + first.bytes)[..|buffer|] + first.bytes;
    }
  }

  /** The bytes beyond those already counted as received are in the buffer. */
  lemma BodyConserves(buffer: seq<Byte>, received: seq<Byte>, next: Recv)
    requires |received| <= |buffer| && buffer[|buffer| - |received|..] == received
    ensures var e := ReadBody(buffer, received, next);
            (if e.result.Frame? then e.result.bytes else []) + e.buffer == buffer[..|buffer| - |received|] + e.received
  {
    hide FrameLength;
    var head := buffer[..|buffer| - |received|];
    assert buffer == head + received;
    if next.Received? {
      var b := next.bytes;
      assert buffer + b == head + (received + b);
    }
  }

  /** A whole frame at the front is returned whatever recv would do. */
  lemma WholeFrameIsReturned(buffer: seq<Byte>, first: Recv, second: Recv)
    requires |buffer| >= 4 && |buffer| >= FrameLength(buffer)
    ensures ReadOnce(buffer, first, second)
         == ReadEffect(buffer[FrameLength(buffer)..], [], Frame(buffer[..FrameLength(buffer)]))
  {}

  // ---- framing does not depend on chunking --------------------------------

  ghost predicate AllWellFormed(frames: seq<seq<Byte>>) {
    forall i | 0 <= i < |frames| :: WellFormed(frames[i])
  }

  /** The first four bytes of a stream of frames tell the length of the first one. */
  lemma FirstFrame(buffer: seq<Byte>, rest: seq<Byte>, frames: seq<seq<Byte>>)
    requires buffer + rest == Concat(frames) && AllWellFormed(frames) && |buffer| >= 4
    ensures frames != [] && FrameLength(buffer) == |frames[0]|
    ensures |buffer| >= |frames[0]| ==>
              buffer[..|frames[0]|] == frames[0] && buffer[|frames[0]|..] + rest == Concat(frames[1..])
  {
    assert frames != [];
    var s := buffer + rest;
    assert s == frames[0] + Concat(frames[1..]);
    assert forall i | 0 <= i < 4 :: buffer[i] == s[i] && s[i] == frames[0][i];
    if |buffer| >= |frames[0]| {
      assert buffer[..|frames[0]|] == s[..|frames[0]|];
      assert buffer[|frames[0]|..] + rest == s[|frames[0]|..];
    }
  }

  /** Reading from a stream of frames returns its first frame, or nothing yet. */
  lemma ReadFromStream(buffer: seq<Byte>, rest: seq<Byte>, frames: seq<seq<Byte>>, first: Recv, second: Recv)
    requires AllWellFormed(frames)
    requires var e := ReadOnce(buffer, first, second); buffer + e.received + rest == Concat(frames)
    ensures var e := ReadOnce(buffer, first, second);
            if e.result.Frame?
            then frames != [] && e.result.bytes == frames[0] && e.buffer + rest == Concat(frames[1..])
            else e.buffer + rest == Concat(frames)
  {
    var e := ReadOnce(buffer, first, second);
    ReadConserves(buffer, first, second);
    if e.result.Frame? {
      var whole := buffer + e.received;
      assert |whole| >= 4 && e.result.bytes == whole[..FrameLength(whole)] by {
        FrameIsPrefix(buffer, first, second);
      }
      FirstFrame(whole, rest, frames);
    }
  }

  lemma FrameIsPrefix(buffer: seq<Byte>, first: Recv, second: Recv)
    requires ReadOnce(buffer, first, second).result.Frame?
    ensures var e := ReadOnce(buffer, first, second);
            var whole := buffer + e.received;
            && |whole| >= 4 && FrameLength(whole) <= |whole|
            && e.result.bytes == whole[..FrameLength(whole)] && e.buffer == whole[FrameLength(whole)..]
  {
    var e := ReadOnce(buffer, first, second);
    var whole := buffer + e.received;
    if |buffer| >= 4 {
      assert forall i | 0 <= i < 4 :: whole[i] == buffer[i];
    } else if first.Received? {
      var b := buffer + first.bytes;
      if second.Received? && |e.received| > |first.bytes| {
        assert whole == b + second.bytes;
      } else {
        assert whole == b;
      }
    }
  }

  /** What a run of reads returned, and what it leaves in the buffer. */
  datatype Reading = Reading(frames: seq<seq<Byte>>, buffer: seq<Byte>, received: seq<Byte>)

  function ReadAll(calls: seq<(Recv, Recv)>): Reading {
    if calls == [] then Reading([], [], [])
    else
      var before := ReadAll(calls[..|calls| - 1]);
      var call := calls[|calls| - 1];
      var e := ReadOnce(before.buffer, call.0, call.1);
      Reading(if e.result.Frame? then before.frames + [e.result.bytes] else before.frames,
              e.buffer, before.received + e.received)
  }

  /** For any stream: the frames returned and the buffer make up the bytes received. */
  lemma {:induction false} ReadingConserves(calls: seq<(Recv, Recv)>)
    ensures var r := ReadAll(calls); Concat(r.frames) + r.buffer == r.received
  {
    hide ReadOnce, FrameLength;
    if calls != [] {
      var before := ReadAll(calls[..|calls| - 1]);
      var call := calls[|calls| - 1];
      var e := ReadOnce(before.buffer, call.0, call.1);
      ReadingConserves(calls[..|calls| - 1]);
      ReadConserves(before.buffer, call.0, call.1);
      var c := Concat(before.frames);
      if e.result.Frame? {
        ConcatAppend(before.frames, e.result.bytes);
        assert c + e.result.bytes + e.buffer == c + (e.result.bytes + e.buffer);
      } else {
        assert [] + e.buffer == e.buffer;
      }
      assert c + (before.buffer + e.received) == c + before.buffer + e.received;
    }
  }

  /** However the bytes of a stream of frames are split into recv results, empty and
      failed ones included, the reads return the frames of the stream, in order. */
  lemma {:induction false} FramingIndependentOfChunks(calls: seq<(Recv, Recv)>, rest: seq<Byte>, frames: seq<seq<Byte>>)
    requires AllWellFormed(frames) && ReadAll(calls).received + rest == Concat(frames)
    ensures var r := ReadAll(calls);
            && |r.frames| <= |frames| && r.frames == frames[..|r.frames|]
            && r.buffer + rest == Concat(frames[|r.frames|..])
  {
    hide ReadOnce, FrameLength;
    if calls == [] {
      assert [] + rest == rest && frames[0..] == frames;
    } else {
      var before := ReadAll(calls[..|calls| - 1]);
      var call := calls[|calls| - 1];
      var e := ReadOnce(before.buffer, call.0, call.1);
      var k := |before.frames|;
      assert before.received + (e.received + rest) == before.received + e.received + rest;
      FramingIndependentOfChunks(calls[..|calls| - 1], e.received + rest, frames);
      assert before.buffer + e.received + rest == before.buffer + (e.received + rest);
      ReadFromStream(before.buffer, rest, frames[k..], call.0, call.1);
      if e.result.Frame? {
        assert frames[k..][1..] == frames[k + 1..] && frames[..k + 1] == frames[..k] + [frames[k]];
      }
    }
  }

  /** Once the last byte has arrived, every further read returns the next frame until
      all have been returned. */
  lemma NextReadReturnsNextFrame(calls: seq<(Recv, Recv)>, frames: seq<seq<Byte>>, call: (Recv, Recv))
    requires AllWellFormed(frames) && ReadAll(calls).received == Concat(frames)
    requires |ReadAll(calls).frames| < |frames|
    ensures var k := |ReadAll(calls).frames|;
            && ReadAll(calls + [call]).frames == frames[..k + 1]
            && ReadAll(calls + [call]).received == Concat(frames)
  {
    hide ReadOnce, FrameLength;
    var r := ReadAll(calls);
    var k := |r.frames|;
    assert r.received + [] == r.received;
    FramingIndependentOfChunks(calls, [], frames);
    assert r.buffer + [] == r.buffer;
    assert Concat(frames[k..]) == frames[k] + Concat(frames[k..][1..]);
    FirstFrame(r.buffer, [], frames[k..]);
    WholeFrameIsReturned(r.buffer, call.0, call.1);
    assert (calls + [call])[..|calls|] == calls;
    assert frames[..k + 1] == frames[..k] + [frames[k]];
  }

  // ---- writing ------------------------------------------------------------

  /** What one call of send does. */
  datatype SendCall = Took(count: nat) | Again | Broken(code: nat)

  datatype WriteEnd = Complete | Error | Unfinished

  /** The bytes written and how the loop ends when the socket answers as scripted;
      `Unfinished` if the script ends while the loop still runs. */
  function Progress(size: nat, written: nat, script: seq<SendCall>): (nat, WriteEnd)
    requires written <= size
    decreases |script|
  {
    if written == size then (written, Complete)
    else if script == [] then (written, Unfinished)
    else match script[0]
      case Again => Progress(size, written, script[1..])
      case Broken(_) => (written, Error)
      case Took(n) => Progress(size, written + Least(n, size - written), script[1..])
  }

  class TcpOutputChannel {
    var wire: seq<Byte>  // what the peer can receive

    constructor ()
      ensures wire == []
    {
      wire := [];
    }

    /** write. The source's result flag is set whether the loop completes or breaks off:
        `ok` says nothing about the bytes. */
    method Write(data: seq<Byte>, script: seq<SendCall>) returns (ok: bool, end: WriteEnd)
      modifies this
      ensures var (written, e) := Progress(|data|, 0, script);
              written <= |data| && wire == old(wire) + data[..written] && end == e
      ensures ok <==> end != Unfinished
    {
      var written, calls := 0, 0;
      assert script[0..] == script;
      while written < |data|
        invariant 0 <= written <= |data| && 0 <= calls <= |script|
        invariant wire == old(wire) + data[..written]
        invariant Progress(|data|, written, script[calls..]) == Progress(|data|, 0, script)
        decreases |script| - calls
      {
        if calls == |script| {
          return false, Unfinished;
        }
        var answer := script[calls];
        calls := calls + 1;
        match answer {
          case Again =>
          case Broken(_) => return true, Error;
          case Took(n) =>
            var count := Least(n, |data| - written);
            wire := wire + data[written..written + count];
            assert data[..written] + data[written..written + count] == data[..written + count];
            written := written + count;
        }
      }
      return true, Complete;
    }
  }

  /** The bytes the socket takes before it first breaks. */
  function TakenBeforeBreak(script: seq<SendCall>): nat {
    if script == [] || script[0].Broken? then 0
    else (if script[0].Took? then script[0].count else 0) + TakenBeforeBreak(script[1..])
  }

  /** The loop writes as much as the socket takes, completes exactly when that is
      enough, and breaks off exactly when a break comes first. */
  lemma {:induction false} WriteExactly(size: nat, written: nat, script: seq<SendCall>)
    requires written <= size
    ensures var (w, end) := Progress(size, written, script);
            && w == Least(size, written + TakenBeforeBreak(script))
            && (end == Complete <==> w == size)
            && (end == Error <==> w < size && exists i :: 0 <= i < |script| && script[i].Broken?)
    decreases |script|
  {
    if written < size && script != [] {
      var tail := script[1..];
      assert forall i | 0 <= i < |tail| :: tail[i] == script[i + 1];
      match script[0]
      case Again => WriteExactly(size, written, tail);
      case Broken(_) =>
      case Took(n) => WriteExactly(size, written + Least(n, size - written), tail);
      if !script[0].Broken? && exists i :: 0 <= i < |script| && script[i].Broken? {
        var i :| 0 <= i < |script| && script[i].Broken?;
        assert tail[i - 1].Broken?;
      }
    }
  }

  function ProgressingCalls(script: seq<SendCall>): nat {
    if script == [] then 0
    else (if script[0].Took? && script[0].count > 0 then 1 else 0) + ProgressingCalls(script[1..])
  }

  /** Without a break, as many sends that take something as there are bytes are enough,
      however many refusals and empty sends come between: the loop terminates. */
  lemma {:induction false} EnoughProgressCompletes(size: nat, script: seq<SendCall>)
    requires forall i | 0 <= i < |script| :: !script[i].Broken?
    requires ProgressingCalls(script) >= size
    ensures Progress(size, 0, script) == (size, Complete)
  {
    TakenAtLeast(script);
    WriteExactly(size, 0, script);
  }

  lemma {:induction false} TakenAtLeast(script: seq<SendCall>)
    requires forall i | 0 <= i < |script| :: !script[i].Broken?
    ensures TakenBeforeBreak(script) >= ProgressingCalls(script)
  {
    if script != [] {
      TakenAtLeast(script[1..]);
    }
  }
}
