/**
 The serial framing of SMP messages, as functions on byte streams: what the sender writes and what
 the receiver makes of an arbitrary stream. The class in SerialTransport is proved against them.
 */
module Framing {
  import opened Bytes
  import opened Wrappers
  import Base64
  import Crc

  const MTU: nat := 127
  const BODY_MAX: nat := (MTU - 3) / 4 * 3
  const NEWLINE: byte := 0x0a

  datatype ReceiveError = TransportError | UnexpectedResponse | FrameTooBig | Base64DecodeError

  function Marker(first: bool): (m: seq<byte>)
    ensures |m| == 2
  {
    if first then [6, 9] else [4, 20]
  }

  // What the sender writes.

  function Line(body: seq<byte>, first: bool): seq<byte> {
    Marker(first) + Base64.Encode(body) + [NEWLINE]
  }

  function Lines(data: seq<byte>, first: bool): seq<byte> {
    if data == [] then []
    else if |data| <= BODY_MAX then Line(data, first)
    else Line(data[..BODY_MAX], first) + Lines(data[BODY_MAX..], false)
  }

  lemma LinesOfNothing(first: bool)
    ensures Lines([], first) == []
  {
  }

  lemma LinesStep(data: seq<byte>, n: nat, first: bool)
    requires data != [] && n == if |data| <= BODY_MAX then |data| else BODY_MAX
    ensures Lines(data, first) == Line(data[..n], first) + Lines(data[n..], false)
  {
    if |data| <= BODY_MAX {
      assert data[..n] == data && data[n..] == [];
      assert Lines([], false) == [];
    }
  }

  // A frame is the message followed by its checksum.
  function Seal(message: seq<byte>): seq<byte> {
    message + Crc.Checksum(message)
  }

  function Prefixed(frame: seq<byte>): seq<byte>
    requires |frame| < 0x1_0000
  {
    U16Be(|frame|) + frame
  }

  function Wire(frame: seq<byte>): seq<byte>
    requires |frame| < 0x1_0000
  {
    Lines(Prefixed(frame), true)
  }

  // What the receiver makes of the bytes it has not read yet.

  // The stream behind the first marker.
  function Hunt(s: seq<byte>, first: bool): (rest: Option<seq<byte>>)
    ensures rest.Some? ==> |rest.value| + 2 <= |s|
  {
    if |s| < 2 then None
    else if s[..2] == Marker(first) then Some(s[2..])
    else Hunt(s[1..], first)
  }

  // One byte of the hunt.
  lemma HuntStep(s: seq<byte>, first: bool)
    ensures |s| < 2 ==> Hunt(s, first) == None
    ensures |s| >= 2 && [s[0], s[1]] == Marker(first) ==> Hunt(s, first) == Some(s[2..])
    ensures |s| >= 2 && [s[0], s[1]] != Marker(first) ==> Hunt(s, first) == Hunt(s[1..], first)
  {
    assert |s| >= 2 ==> s[..2] == [s[0], s[1]];
  }

  datatype LineScan =
    | Text(text: seq<byte>, rest: seq<byte>)  // up to a newline, which is consumed
    | Overlong(start: seq<byte>, rest: seq<byte>)  // the line buffer is full
    | Unfinished

  function ScanLine(s: seq<byte>, room: nat): (l: LineScan)
    ensures l.Text? ==> |l.text| < room && |l.rest| < |s|
    ensures l.Overlong? ==> |l.start| == room && |l.rest| <= |s|
  {
    if room == 0 then Overlong([], s)
    else if s == [] then Unfinished
    else if s[0] == NEWLINE then Text([], s[1..])
    else
      match ScanLine(s[1..], room - 1)
      case Text(text, rest) => Text([s[0]] + text, rest)
      case Overlong(start, rest) => Overlong([s[0]] + start, rest)
      case Unfinished => Unfinished
  }

  // A line ends at its first newline.
  lemma {:induction false} ScanLineEnds(stored: seq<byte>, rest: seq<byte>, room: nat)
    requires NEWLINE !in stored && |stored| < room
    ensures ScanLine(stored + [NEWLINE] + rest, room) == Text(stored, rest)
  {
    if stored == [] {
      assert ([] + [NEWLINE] + rest)[1..] == rest;
    } else {
      var more := stored[1..];
      ScanLineEnds(more, rest, room - 1);
      assert (stored + [NEWLINE] + rest)[1..] == more + [NEWLINE] + rest;
    }
  }

  // Without a newline it is unfinished or overlong.
  lemma {:induction false} ScanLineStops(stored: seq<byte>, rest: seq<byte>, room: nat)
    requires NEWLINE !in stored && |stored| <= room
    ensures |stored| < room && rest == [] ==> ScanLine(stored + rest, room) == Unfinished
    ensures |stored| == room ==> ScanLine(stored + rest, room) == Overlong(stored, rest)
  {
    if stored == [] {
      assert [] + rest == rest;
    } else {
      var more := stored[1..];
      ScanLineStops(more, rest, room - 1);
      assert (stored + rest)[1..] == more + rest;
    }
  }

  datatype ChunkScan =
    | Chunk(body: seq<byte>, rest: seq<byte>)
    | BadChunk(error: ReceiveError, rest: seq<byte>)
    | NoChunk

  function ScanChunk(s: seq<byte>, first: bool): (c: ChunkScan)
    ensures !c.NoChunk? ==> |c.rest| + 2 <= |s|
    ensures c.Chunk? ==> |c.body| <= BODY_MAX
  {
    match Hunt(s, first)
    case None => NoChunk
    case Some(line) =>
      match ScanLine(line, MTU)
      case Unfinished => NoChunk
      case Overlong(_, rest) => BadChunk(FrameTooBig, rest)
      case Text(text, rest) =>
        match Base64.Decode(text)
        case None => BadChunk(Base64DecodeError, rest)
        case Some(body) =>
          assert |body| <= BODY_MAX by { Base64.DecodedLength(text); }
          Chunk(body, rest)
  }

  datatype FrameScan =
    | Frame(message: seq<byte>, rest: seq<byte>)
    | BadFrame(error: ReceiveError, rest: seq<byte>)
    | NoFrame

  function Check(frame: seq<byte>, rest: seq<byte>): FrameScan {
    if Crc.Codeword(frame) then Frame(frame[..|frame| - 2], rest) else BadFrame(UnexpectedResponse, rest)
  }

  // Continuation lines until the announced length is reached exactly.
  function Collect(s: seq<byte>, got: seq<byte>, length: nat): (f: FrameScan)
    requires |got| <= length
    ensures !f.NoFrame? ==> |f.rest| <= |s|
    decreases |s|
  {
    if |got| == length then Check(got, s)
    else
      match ScanChunk(s, false)
      case NoChunk => NoFrame
      case BadChunk(error, rest) => BadFrame(error, rest)
      case Chunk(body, rest) =>
        if |got| + |body| > length then BadFrame(UnexpectedResponse, rest)
        else Collect(rest, got + body, length)
  }

  function ScanFrame(s: seq<byte>): (f: FrameScan)
    ensures !f.NoFrame? ==> |f.rest| + 2 <= |s|
  {
    match ScanChunk(s, true)
    case NoChunk => NoFrame
    case BadChunk(error, rest) => BadFrame(error, rest)
    case Chunk(body, rest) =>
      if |body| < 2 then BadFrame(UnexpectedResponse, rest)
      else
        var length := FromU16Be(body[0], body[1]);
        if |body| - 2 > length then BadFrame(UnexpectedResponse, rest)
        else Collect(rest, body[2..], length)
  }

  // After every line the receiver looks at the next byte, if it is buffered already. Seeing a newline
  // there, it decodes the whole line buffer instead of the line. A stream is calm if that cannot
  // happen, however the bytes arrive; it happens to every other stream that is buffered in time.

  predicate CalmRest(rest: seq<byte>) {
    rest == [] || rest[0] != NEWLINE
  }

  predicate CalmChunk(s: seq<byte>, first: bool) {
    var c := ScanChunk(s, first);
    c.NoChunk? || CalmRest(c.rest)
  }

  predicate CalmCollect(s: seq<byte>, got: nat, length: nat)
    requires got <= length
    decreases |s|
  {
    got == length ||
    (&& CalmChunk(s, false)
     && var c := ScanChunk(s, false);
        c.Chunk? && got + |c.body| <= length ==> CalmCollect(c.rest, got + |c.body|, length))
  }

  lemma CollectDone(s: seq<byte>, frame: seq<byte>)
    ensures Collect(s, frame, |frame|) == Check(frame, s) && CalmCollect(s, |frame|, |frame|)
  {
  }

  // One more continuation line.
  lemma CollectStep(s: seq<byte>, got: seq<byte>, length: nat)
    requires |got| < length
    ensures var c, f := ScanChunk(s, false), Collect(s, got, length);
            && (c.NoChunk? ==> f == NoFrame)
            && (c.BadChunk? ==> f == BadFrame(c.error, c.rest))
            && (c.Chunk? && |got| + |c.body| > length ==> f == BadFrame(UnexpectedResponse, c.rest))
            && (c.Chunk? && |got| + |c.body| <= length ==> f == Collect(c.rest, got + c.body, length))
    ensures var c := ScanChunk(s, false);
            CalmCollect(s, |got|, length) <==>
            && CalmChunk(s, false)
            && (c.Chunk? && |got| + |c.body| <= length ==> CalmCollect(c.rest, |got| + |c.body|, length))
  {
    hide ScanChunk, Check, CalmChunk;
  }

  predicate CalmFrame(s: seq<byte>) {
    && CalmChunk(s, true)
    && var c := ScanChunk(s, true);
       c.Chunk? && |c.body| >= 2 && |c.body| - 2 <= FromU16Be(c.body[0], c.body[1])
       ==> CalmCollect(c.rest, |c.body| - 2, FromU16Be(c.body[0], c.body[1]))
  }

  // The whole line buffer never decodes: its length is not a multiple of four.
  lemma FullBufferIsNoText(buffer: seq<byte>)
    requires |buffer| == 127
    ensures Base64.Decode(buffer) == None
  {
    if Base64.Decode(buffer).Some? {
      Base64.DecodedLength(buffer);
    }
  }
}
