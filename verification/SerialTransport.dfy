/** The serial transport: a port, the line buffers, and the read buffer in front of them. */
module SerialTransport {
  import opened Bytes
  import opened Wrappers
  import Base64
  import Crc
  import opened Framing
  import opened Smp

  datatype SendError = WriteFailed | DataTooBig

  // A suffix of a stream: what is left after reading some of it.
  ghost predicate Suffix(s: seq<byte>, t: seq<byte>) {
    |s| <= |t| && s == t[|t| - |s|..]
  }

  lemma SuffixReflexive(s: seq<byte>)
    ensures Suffix(s, s)
  {
  }

  lemma SuffixAppend(s: seq<byte>, t: seq<byte>)
    ensures Suffix(t, s + t)
  {
  }

  lemma SuffixTransitive(s: seq<byte>, t: seq<byte>, u: seq<byte>)
    requires Suffix(s, t) && Suffix(t, u)
    ensures Suffix(s, u)
  {
  }

  lemma SuffixFurther(s: seq<byte>, n: nat, t: seq<byte>)
    requires Suffix(s, t) && n <= |s|
    ensures Suffix(s[n..], t)
  {
  }

  /**
   A serial port. `incoming` is everything the device will ever send and we have not read;
   how much of it a read returns, and whether a read or a write fails, is up to the environment.
   */
  class SerialPort {
    var incoming: seq<byte>
    var outgoing: seq<byte>
    ghost var readFaults: nat

    constructor (incoming: seq<byte>)
      ensures this.incoming == incoming && outgoing == [] && readFaults == 0
    {
      this.incoming, outgoing, readFaults := incoming, [], 0;
    }

    // At most `room` bytes, at least one unless the stream has ended.
    method Read(room: nat) returns (r: Result<seq<byte>, ReceiveError>)
      requires room > 0
      modifies this
      ensures outgoing == old(outgoing)
      ensures r.Ok? ==> readFaults == old(readFaults) && old(incoming) == r.value + incoming
      ensures r.Ok? ==> |r.value| <= room && (r.value == [] <==> old(incoming) == [])
      ensures r.Err? ==> readFaults == old(readFaults) + 1 && incoming == old(incoming)
    {
      var fault: bool := *;
      if fault {
        readFaults := readFaults + 1;
        return Err(TransportError);
      }
      if incoming == [] {
        return Ok([]);
      }
      var n: nat :| 0 < n <= room && n <= |incoming|;
      r := Ok(incoming[..n]);
      incoming := incoming[n..];
    }

    method WriteAll(data: seq<byte>) returns (ok: bool)
      modifies this
      ensures incoming == old(incoming) && readFaults == old(readFaults)
      ensures ok ==> outgoing == old(outgoing) + data
      ensures !ok ==> old(outgoing) <= outgoing < old(outgoing) + data
    {
      var n: nat :| n <= |data|;
      outgoing := outgoing + data[..n];
      ok := n == |data|;
      assert data == data[..n] + data[n..];
    }
  }

  lemma PartlyWritten(before: seq<byte>, sent: seq<byte>, line: seq<byte>, rest: seq<byte>, now: seq<byte>)
    requires before + sent <= now < before + sent + line
    ensures before <= now < before + (sent + (line + rest))
  {
    assert before + (sent + (line + rest)) == before + sent + line + rest;
  }

  const READ_BUFFER_SIZE: nat := 4096
  const TRANSFER_BUFFER_SIZE: nat := 0xffff

  datatype LineEnd = AtNewline(pos: nat) | BufferFull | ReadFailed

  class SerialTransport {
    const transferBuffer: array<byte>
    const bodyBuffer: array<byte>
    const serial: SerialPort
    var readBuffer: seq<byte>

    ghost predicate Valid()
      reads this
    {
      && transferBuffer.Length == MTU
      && bodyBuffer.Length == BODY_MAX
      && transferBuffer != bodyBuffer
      && |readBuffer| <= READ_BUFFER_SIZE
    }

    // What the device has sent and we have not consumed.
    ghost function Unread(): seq<byte>
      reads this, serial
    {
      readBuffer + serial.incoming
    }

    // The next byte is buffered already, and it is a newline.
    ghost predicate SeesNewline()
      reads this
    {
      readBuffer != [] && readBuffer[0] == NEWLINE
    }

    constructor (serial: SerialPort)
      ensures Valid() && this.serial == serial && Unread() == serial.incoming
      ensures fresh(transferBuffer) && fresh(bodyBuffer)
    {
      this.serial := serial;
      transferBuffer := new byte[MTU](_ => 0);
      bodyBuffer := new byte[BODY_MAX](_ => 0);
      readBuffer := [];
    }

    // Sending.

    // Fills the body buffer from an iterator over `data`; returns how much, and what is left.
    method FillBody(data: seq<byte>) returns (n: nat, rest: seq<byte>)
      requires Valid()
      modifies bodyBuffer
      ensures n == if |data| <= BODY_MAX then |data| else BODY_MAX
      ensures bodyBuffer[..n] == data[..n] && rest == data[n..]
    {
      n, rest := 0, data;
      while n < bodyBuffer.Length
        invariant n <= bodyBuffer.Length && n <= |data|
        invariant bodyBuffer[..n] == data[..n] && rest == data[n..]
      {
        if rest == [] {
          return;
        }
        bodyBuffer[n] := rest[0];
        rest := rest[1..];
        n := n + 1;
      }
    }

    // Turns the first n bytes of the body buffer into a line, behind the marker already there.
    method PackLine(n: nat, ghost first: bool) returns (length: nat)
      requires Valid() && n <= BODY_MAX && transferBuffer[..2] == Marker(first)
      modifies transferBuffer
      ensures length <= transferBuffer.Length && transferBuffer[..length] == Line(bodyBuffer[..n], first)
    {
      hide Base64.Encode;
      ghost var body := bodyBuffer[..n];
      var text := Base64.Encode(bodyBuffer[..n]);
      Base64.EncodedLength(body);
      assert 2 + |text| < transferBuffer.Length;  // the transfer buffer never overflows
      forall i | 0 <= i < |text| {
        transferBuffer[2 + i] := text[i];
      }
      transferBuffer[2 + |text|] := NEWLINE;
      length := |text| + 3;
      assert transferBuffer[..2] == old(transferBuffer[..2]);
      assert transferBuffer[2..2 + |text|] == text;
      assert transferBuffer[..length] == transferBuffer[..2] + transferBuffer[2..2 + |text|] + [NEWLINE];
      assert bodyBuffer[..n] == body;
    }

    method SendChunked(data: seq<byte>) returns (ok: bool)
      requires Valid()
      modifies serial, transferBuffer, bodyBuffer
      ensures serial.incoming == old(serial.incoming) && serial.readFaults == old(serial.readFaults)
      ensures ok ==> serial.outgoing == old(serial.outgoing) + Lines(data, true)
      ensures !ok ==> old(serial.outgoing) <= serial.outgoing < old(serial.outgoing) + Lines(data, true)
    {
      hide Lines, Line;
      transferBuffer[0], transferBuffer[1] := 6, 9;
      var rest, first := data, true;
      ghost var sent := [];
      while true
        invariant serial.incoming == old(serial.incoming) && serial.readFaults == old(serial.readFaults)
        invariant transferBuffer[..2] == Marker(first)
        invariant serial.outgoing == old(serial.outgoing) + sent
        invariant Lines(data, true) == sent + Lines(rest, first)
        decreases |rest|
      {
        ghost var before := rest;
        var n;
        n, rest := FillBody(rest);
        if n == 0 {
          LinesOfNothing(first);
          return true;
        }
        var length := PackLine(n, first);
        ghost var line := transferBuffer[..length];
        LinesStep(before, n, first);
        ok := serial.WriteAll(transferBuffer[..length]);
        if !ok {
          PartlyWritten(old(serial.outgoing), sent, line, Lines(rest, false), serial.outgoing);
          return;
        }
        sent := sent + line;
        first := false;
        transferBuffer[0], transferBuffer[1] := 4, 20;
      }
    }

    // Receiving.

    // One read call into the free part of the read buffer.
    method FillReadBuffer() returns (ok: bool)
      requires Valid() && |readBuffer| < READ_BUFFER_SIZE
      modifies this`readBuffer, serial
      ensures Suffix(Unread(), old(Unread()))
      ensures Valid() && serial.outgoing == old(serial.outgoing) && Unread() == old(Unread())
      ensures ok ==> serial.readFaults == old(serial.readFaults) && |serial.incoming| < old(|serial.incoming|)
      ensures !ok ==> readBuffer == old(readBuffer)
      ensures !ok ==> serial.readFaults > old(serial.readFaults) || serial.incoming == []
      ensures serial.readFaults > old(serial.readFaults) ==> !ok
      ensures old(serial.incoming) == [] ==> serial.incoming == []
    {
      var r := serial.Read(READ_BUFFER_SIZE - |readBuffer|);
      if r.Err? || r.value == [] {
        return false;
      }
      readBuffer := readBuffer + r.value;
      ok := true;
    }

    // Reads until at least n bytes are buffered.
    method EnsureBuffered(n: nat) returns (ok: bool)
      requires Valid() && n < READ_BUFFER_SIZE
      modifies this`readBuffer, serial
      ensures Valid() && serial.outgoing == old(serial.outgoing) && Unread() == old(Unread())
      ensures ok ==> serial.readFaults == old(serial.readFaults) && |readBuffer| >= n
      ensures !ok ==> serial.readFaults > old(serial.readFaults) || |Unread()| < n
      ensures old(serial.incoming) == [] ==> serial.incoming == []
    {
      while |readBuffer| < n
        invariant Valid() && serial.outgoing == old(serial.outgoing) && serial.readFaults == old(serial.readFaults)
        invariant old(serial.incoming) == [] ==> serial.incoming == []
        invariant Unread() == old(Unread())
        decreases |serial.incoming|
      {
        ok := FillReadBuffer();
        if !ok {
          return;
        }
      }
      ok := true;
    }

    // Consumes everything up to the next marker.
    method FindMarker(first: bool) returns (ok: bool)
      requires Valid()
      modifies this`readBuffer, serial
      ensures Suffix(Unread(), old(Unread()))
      ensures Valid() && serial.outgoing == old(serial.outgoing)
      ensures ok ==> serial.readFaults == old(serial.readFaults)
      ensures ok ==> Hunt(old(Unread()), first) == Some(Unread())
      ensures !ok ==> serial.readFaults > old(serial.readFaults) || Hunt(old(Unread()), first) == None
      ensures old(serial.incoming) == [] ==> serial.incoming == []
    {
      hide Suffix, Hunt;
      var expected0, expected1 := if first then 6 else 4, if first then 9 else 20;
      ghost var all := Unread();
      SuffixReflexive(all);
      while true
        invariant Valid() && serial.outgoing == old(serial.outgoing) && serial.readFaults == old(serial.readFaults)
        invariant old(serial.incoming) == [] ==> serial.incoming == []
        invariant Suffix(Unread(), all) && Hunt(Unread(), first) == Hunt(all, first)
        decreases |Unread()|
      {
        ghost var u := Unread();
        HuntStep(u, first);
        ok := EnsureBuffered(2);
        if !ok {
          return;
        }
        var current, next := readBuffer[0], readBuffer[1];
        readBuffer := readBuffer[1..];
        assert Unread() == u[1..] && [u[0], u[1]] == [current, next];
        SuffixFurther(u, 1, all);
        if current == expected0 && next == expected1 {
          readBuffer := readBuffer[1..];
          assert Unread() == u[2..];
          SuffixFurther(u, 2, all);
          return true;
        }
      }
    }

    // The next byte of the stream.
    method Pop() returns (r: Option<byte>)
      requires Valid()
      modifies this`readBuffer, serial
      ensures Valid() && serial.outgoing == old(serial.outgoing)
      ensures r.Some? ==> serial.readFaults == old(serial.readFaults) && old(Unread()) == [r.value] + Unread()
      ensures r.None? ==> serial.readFaults > old(serial.readFaults) || old(Unread()) == []
      ensures r.None? ==> Unread() == old(Unread())
      ensures old(serial.incoming) == [] ==> serial.incoming == []
    {
      var ok := EnsureBuffered(1);
      if !ok {
        return None;
      }
      r := Some(readBuffer[0]);
      readBuffer := readBuffer[1..];
    }

    // Stores the bytes of a line, up to its newline or to the end of the transfer buffer.
    method StoreLine() returns (e: LineEnd)
      requires Valid()
      modifies this`readBuffer, serial, transferBuffer
      ensures Suffix(Unread(), old(Unread()))
      ensures Valid() && serial.outgoing == old(serial.outgoing)
      ensures !e.ReadFailed? ==> serial.readFaults == old(serial.readFaults)
      ensures e.AtNewline? ==> e.pos <= MTU && ScanLine(old(Unread()), MTU) == Text(transferBuffer[..e.pos], Unread())
      ensures e.BufferFull? ==> ScanLine(old(Unread()), MTU) == Overlong(transferBuffer[..], Unread())
      ensures e.ReadFailed? ==>
        serial.readFaults > old(serial.readFaults) || ScanLine(old(Unread()), MTU).Unfinished?
      ensures old(serial.incoming) == [] ==> serial.incoming == []
    {
      hide Suffix, ScanLine;
      var pos := 0;
      ghost var line, stored := Unread(), [];
      while pos < transferBuffer.Length
        invariant Valid() && serial.outgoing == old(serial.outgoing) && serial.readFaults == old(serial.readFaults)
        invariant old(serial.incoming) == [] ==> serial.incoming == []
        invariant pos <= MTU && transferBuffer[..pos] == stored && NEWLINE !in stored
        invariant line == stored + Unread()
      {
        var data := Pop();
        if data.None? {
          SuffixAppend(stored, Unread());
          ScanLineStops(stored, [], MTU);
          assert stored + [] == stored;
          return ReadFailed;
        }
        assert line == stored + [data.value] + Unread();
        if data.value == NEWLINE {
          SuffixAppend(stored + [data.value], Unread());
          ScanLineEnds(stored, Unread(), MTU);
          return AtNewline(pos);
        }
        transferBuffer[pos] := data.value;
        pos := pos + 1;
        stored := stored + [data.value];
      }
      SuffixAppend(stored, Unread());
      ScanLineStops(stored, Unread(), MTU);
      assert transferBuffer[..pos] == transferBuffer[..];
      return BufferFull;
    }

    // Receives one line. A newline that is buffered behind it makes the whole transfer buffer the text.
    method RecvChunk(first: bool) returns (r: Result<nat, ReceiveError>)
      requires Valid()
      modifies this`readBuffer, serial, transferBuffer, bodyBuffer
      ensures Suffix(Unread(), old(Unread()))
      ensures Valid() && serial.outgoing == old(serial.outgoing)
      ensures r != Err(TransportError) ==> serial.readFaults == old(serial.readFaults)
      ensures r == Err(TransportError) ==>
        serial.readFaults > old(serial.readFaults) || ScanChunk(old(Unread()), first).NoChunk?
      ensures r != Err(TransportError) ==>
        && var c := ScanChunk(old(Unread()), first);
        && !c.NoChunk? && Unread() == c.rest
        && (if SeesNewline() then r == Err(Base64DecodeError)
            else match c
                 case Chunk(body, _) => r == Ok(|body|) && |body| <= BODY_MAX && bodyBuffer[..|body|] == body
                 case BadChunk(error, _) => r == Err(error))
      ensures old(serial.incoming) == [] ==> serial.incoming == []
      ensures old(serial.incoming) == [] && serial.readFaults == old(serial.readFaults) && !CalmChunk(old(Unread()), first) ==>
        r == Err(Base64DecodeError)
    {
      hide Base64.Decode, Hunt, ScanLine, Suffix;
      var found := FindMarker(first);
      if !found {
        return Err(TransportError);
      }
      ghost var line := Unread();
      var e := StoreLine();
      SuffixTransitive(Unread(), line, old(Unread()));
      if e.ReadFailed? {
        return Err(TransportError);
      }
      var text := if e.AtNewline? then Some(transferBuffer[..e.pos]) else None;
      if readBuffer != [] && readBuffer[0] == NEWLINE {
        FullBufferIsNoText(transferBuffer[..]);
        text := Some(transferBuffer[..]);
      }
      match text
      case None =>
        return Err(FrameTooBig);
      case Some(base64) =>
        var body := Base64.Decode(base64);
        if body.None? {
          return Err(Base64DecodeError);
        }
        Base64.DecodedLength(base64);
        forall i | 0 <= i < |body.value| {
          bodyBuffer[i] := body.value[i];
        }
        return Ok(|body.value|);
    }

    // Frames.

    method SendRawFrame(header: seq<byte>, data: seq<byte>) returns (r: Result<(), SendError>)
      requires Valid() && |header| == 8
      modifies serial, transferBuffer, bodyBuffer
      ensures serial.incoming == old(serial.incoming) && serial.readFaults == old(serial.readFaults)
      ensures r == Err(DataTooBig) <==> |header + data| + 2 >= 0x1_0000
      ensures r == Err(DataTooBig) ==> serial.outgoing == old(serial.outgoing)
      ensures r.Ok? ==> serial.outgoing == old(serial.outgoing) + Wire(Seal(header + data))
      ensures r == Err(WriteFailed) ==>
        old(serial.outgoing) <= serial.outgoing < old(serial.outgoing) + Wire(Seal(header + data))
    {
      hide Crc.Finalize, Crc.Update, Crc.Bits, Lines;
      var digest := Crc.Update(Crc.Zero(), Crc.Bits(header));
      digest := Crc.Update(digest, Crc.Bits(data));
      var checksum := Crc.Finalize(digest);
      Crc.ChecksumInParts(header, data);

      var size := |header| + |data| + |checksum|;
      if size >= 0x1_0000 {
        return Err(DataTooBig);
      }
      assert U16Be(size) + header + data + checksum == Prefixed(Seal(header + data));
      var ok := SendChunked(U16Be(size) + header + data + checksum);
      return if ok then Ok(()) else Err(WriteFailed);
    }

    // Receives one message into `buffer`; returns its length.
    method RecvRawFrame(buffer: array<byte>) returns (r: Result<nat, ReceiveError>)
      requires Valid() && buffer.Length == TRANSFER_BUFFER_SIZE
      requires buffer != transferBuffer && buffer != bodyBuffer
      modifies this`readBuffer, serial, transferBuffer, bodyBuffer, buffer
      ensures Suffix(Unread(), old(Unread()))
      ensures Valid() && serial.outgoing == old(serial.outgoing)
      ensures r != Err(TransportError) ==> serial.readFaults == old(serial.readFaults)
      ensures r == Err(TransportError) ==>
        serial.readFaults > old(serial.readFaults) || ScanFrame(old(Unread())).NoFrame?
      ensures r != Err(TransportError) ==>
        if SeesNewline() then r == Err(Base64DecodeError) && !CalmFrame(old(Unread()))
        else Received(r, buffer, ScanFrame(old(Unread())))
      ensures old(serial.incoming) == [] ==> serial.incoming == []
      ensures old(serial.incoming) == [] && serial.readFaults == old(serial.readFaults) && !CalmFrame(old(Unread())) ==>
        r == Err(Base64DecodeError)
    {
      hide ScanChunk, Collect, Suffix;
      var first := RecvChunk(true);
      if first.Err? {
        return Err(first.error);
      }
      if first.value < 2 {
        return Err(UnexpectedResponse);
      }
      ghost var body := bodyBuffer[..first.value];
      var length := FromU16Be(bodyBuffer[0], bodyBuffer[1]);
      assert length <= buffer.Length;  // so a frame that exceeds the buffer cannot be announced
      if first.value - 2 > length {
        return Err(UnexpectedResponse);
      }
      forall i | 0 <= i < first.value - 2 {
        buffer[i] := bodyBuffer[2 + i];
      }
      assert buffer[..first.value - 2] == body[2..];
      ghost var u := Unread();
      r := CollectFrame(buffer, first.value - 2, length);
      SuffixTransitive(Unread(), u, old(Unread()));
    }

    // What a caller sees of a received frame.
    ghost predicate Received(r: Result<nat, ReceiveError>, buffer: array<byte>, f: FrameScan)
      reads this, serial, buffer
    {
      match f
      case Frame(message, rest) =>
        && r == Ok(|message|) && |message| <= buffer.Length && buffer[..|message|] == message
        && Unread() == rest
      case BadFrame(error, rest) => r == Err(error) && Unread() == rest
      case NoFrame => false
    }

    // Continuation lines until `buffer` holds `length` bytes, then the checksum.
    method CollectFrame(buffer: array<byte>, start: nat, length: u16) returns (r: Result<nat, ReceiveError>)
      requires Valid() && buffer.Length == TRANSFER_BUFFER_SIZE && start <= length && !SeesNewline()
      requires buffer != transferBuffer && buffer != bodyBuffer
      modifies this`readBuffer, serial, transferBuffer, bodyBuffer, buffer
      ensures Suffix(Unread(), old(Unread()))
      ensures Valid() && serial.outgoing == old(serial.outgoing)
      ensures r != Err(TransportError) ==> serial.readFaults == old(serial.readFaults)
      ensures r == Err(TransportError) ==>
        serial.readFaults > old(serial.readFaults) || Collect(old(Unread()), old(buffer[..start]), length).NoFrame?
      ensures r != Err(TransportError) ==>
        if SeesNewline() then r == Err(Base64DecodeError) && !CalmCollect(old(Unread()), start, length)
        else Received(r, buffer, Collect(old(Unread()), old(buffer[..start]), length))
      ensures old(serial.incoming) == [] ==> serial.incoming == []
      ensures old(serial.incoming) == [] && serial.readFaults == old(serial.readFaults) && !CalmCollect(old(Unread()), start, length) ==>
        r == Err(Base64DecodeError)
    {
      hide ScanChunk, Collect, CalmCollect, Check, Suffix;
      ghost var scan := Collect(Unread(), buffer[..start], length);
      var filled := start;
      SuffixReflexive(Unread());
      while filled < length
        invariant Valid() && serial.outgoing == old(serial.outgoing) && serial.readFaults == old(serial.readFaults)
        invariant old(serial.incoming) == [] ==> serial.incoming == []
        invariant Suffix(Unread(), old(Unread())) && filled <= length && !SeesNewline()
        invariant scan == Collect(Unread(), buffer[..filled], length)
        invariant CalmCollect(old(Unread()), start, length) ==> CalmCollect(Unread(), filled, length)
        invariant old(serial.incoming) == [] && CalmCollect(Unread(), filled, length) ==> CalmCollect(old(Unread()), start, length)
        decreases |Unread()|
      {
        ghost var u, got := Unread(), buffer[..filled];
        CollectStep(u, got, length);
        var next := RecvChunk(false);
        SuffixTransitive(Unread(), u, old(Unread()));
        if next.Err? {
          return Err(next.error);
        }
        if next.value > length - filled {
          return Err(UnexpectedResponse);
        }
        ghost var body := bodyBuffer[..next.value];
        assert scan == Collect(Unread(), got + body, length);
        forall i | 0 <= i < next.value {
          buffer[filled + i] := bodyBuffer[i];
        }
        filled := filled + next.value;
        assert buffer[..filled] == got + body;
      }
      CollectDone(Unread(), buffer[..length]);
      r := CheckFrame(buffer, length);
    }

    method CheckFrame(buffer: array<byte>, length: u16) returns (r: Result<nat, ReceiveError>)
      requires buffer.Length == TRANSFER_BUFFER_SIZE
      ensures r != Err(TransportError) && Received(r, buffer, Check(buffer[..length], Unread()))
    {
      hide Crc.Checksum;
      if length < 2 {
        return Err(UnexpectedResponse);
      }
      ghost var frame := buffer[..length];
      assert frame[..length - 2] == buffer[..length - 2] && frame[length - 2..] == buffer[length - 2..length];
      if buffer[length - 2..length] != Crc.Checksum(buffer[..length - 2]) {
        return Err(UnexpectedResponse);
      }
      return Ok(length - 2);
    }

    // Requests and replies.

    method SendFrame(request: Request, data: seq<byte>) returns (r: Result<(), SendError>)
      requires Valid()
      modifies serial, transferBuffer, bodyBuffer
      ensures serial.incoming == old(serial.incoming) && serial.readFaults == old(serial.readFaults)
      ensures r == Err(DataTooBig) <==> |data| + 10 >= 0x1_0000
      ensures r == Err(DataTooBig) ==> serial.outgoing == old(serial.outgoing)
      ensures r.Ok? ==> serial.outgoing == old(serial.outgoing) + Wire(Seal(request.Message(data)))
      ensures r == Err(WriteFailed) ==>
        old(serial.outgoing) <= serial.outgoing < old(serial.outgoing) + Wire(Seal(request.Message(data)))
    {
      hide Wire, Crc.Checksum;
      if |data| >= 0x1_0000 {
        return Err(DataTooBig);
      }
      var header := Header(1, if request.write then WRITE else READ, 0, |data|,
                           request.groupId, request.sequenceNum, request.commandId);
      r := SendRawFrame(header.ToBytes(), data);
    }

    // Receives the reply to a request; its payload starts behind the header in `buffer`.
    method ReceiveFrame(buffer: array<byte>, request: Request) returns (r: Result<nat, ReceiveError>)
      requires Valid() && buffer.Length == TRANSFER_BUFFER_SIZE
      requires buffer != transferBuffer && buffer != bodyBuffer
      modifies this`readBuffer, serial, transferBuffer, bodyBuffer, buffer
      ensures Suffix(Unread(), old(Unread()))
      ensures Valid() && serial.outgoing == old(serial.outgoing)
      ensures r != Err(TransportError) ==> serial.readFaults == old(serial.readFaults)
      ensures r == Err(TransportError) ==>
        serial.readFaults > old(serial.readFaults) || ScanReply(old(Unread()), request).NoReply?
      ensures r != Err(TransportError) ==>
        if SeesNewline() then r == Err(Base64DecodeError) && !CalmReply(old(Unread()), request)
        else match ScanReply(old(Unread()), request)
             case Reply(payload, rest) =>
               && r == Ok(|payload|) && HEADER_SIZE + |payload| <= buffer.Length
               && buffer[HEADER_SIZE..HEADER_SIZE + |payload|] == payload && Unread() == rest
             case BadReply(error, rest) => r == Err(error) && Unread() == rest
             case NoReply => false
      ensures old(serial.incoming) == [] ==> serial.incoming == []
      ensures old(serial.incoming) == [] && serial.readFaults == old(serial.readFaults) && !CalmReply(old(Unread()), request) ==>
        r == Err(Base64DecodeError)
    {
      hide ScanFrame, CalmFrame, Suffix;
      SuffixReflexive(Unread());
      while true
        invariant Valid() && serial.outgoing == old(serial.outgoing) && serial.readFaults == old(serial.readFaults)
        invariant old(serial.incoming) == [] ==> serial.incoming == []
        invariant Suffix(Unread(), old(Unread()))
        invariant ScanReply(Unread(), request) == ScanReply(old(Unread()), request)
        invariant CalmReply(old(Unread()), request) ==> CalmReply(Unread(), request)
        invariant old(serial.incoming) == [] && CalmReply(Unread(), request) ==> CalmReply(old(Unread()), request)
        decreases |Unread()|
      {
        ghost var u := Unread();
        var received := RecvRawFrame(buffer);
        SuffixTransitive(Unread(), u, old(Unread()));
        if received.Err? {
          return Err(received.error);
        }
        var size := received.value;
        if size < HEADER_SIZE {
          return Err(UnexpectedResponse);
        }
        var header := Header.FromBytes(buffer[..HEADER_SIZE]);
        assert buffer[..HEADER_SIZE] == buffer[..size][..HEADER_SIZE];
        if header.sequenceNum != request.sequenceNum {
          continue;
        }
        var expectedOp := if request.write then WRITE_RSP else READ_RSP;
        if || header.groupId != request.groupId
           || header.commandId != request.commandId
           || header.op != expectedOp
           || header.dataLength != size - HEADER_SIZE
        {
          return Err(UnexpectedResponse);
        }
        assert buffer[HEADER_SIZE..size] == buffer[..size][HEADER_SIZE..];
        return Ok(size - HEADER_SIZE);
      }
    }
  }
}
