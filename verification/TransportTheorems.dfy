/**
 The transport end to end: both directions of the wire, under every way the port may fragment its reads.
 The methods here only call operations of the transport; what is new is what the calls guarantee together.
 */
module TransportTheorems {
  import opened Bytes
  import opened Wrappers
  import Crc
  import opened Framing
  import opened FramingTheorems
  import opened Smp
  import opened SerialTransport
  import opened Connection
  import opened Cbor
  import opened Commands

  // A frame that one side has sent is received by the other, byte for byte, behind any noise without a
  // marker, and what follows it stays unread. Only a fault of the port can prevent that.
  method SendThenReceive(sender: SerialTransport, header: seq<byte>, data: seq<byte>, noise: seq<byte>,
                         following: seq<byte>, buffer: array<byte>)
      returns (sent: Result<(), SendError>, received: Result<nat, ReceiveError>, receiver: SerialTransport)
    requires sender.Valid() && sender.serial.outgoing == [] && |header| == HEADER_SIZE
    requires buffer.Length == TRANSFER_BUFFER_SIZE
    requires buffer != sender.transferBuffer && buffer != sender.bodyBuffer
    requires Noise(noise, true) && CalmRest(following)
    modifies sender.serial, sender.transferBuffer, sender.bodyBuffer, buffer
    ensures fresh(receiver) && fresh(receiver.serial) && receiver.Valid()
    ensures |header + data| <= 65533 <==> sent != Err(DataTooBig)
    ensures sent.Ok? && receiver.serial.readFaults == 0 ==>
      && received == Ok(|header + data|) && buffer[..|header + data|] == header + data
      && receiver.Unread() == following
  {
    hide Wire, Crc.Checksum, ScanFrame, CalmFrame, Noise, Suffix;
    sent := sender.SendRawFrame(header, data);
    ghost var frame := sender.serial.outgoing;
    var port := new SerialPort(noise + sender.serial.outgoing + following);
    receiver := new SerialTransport(port);
    received := receiver.RecvRawFrame(buffer);
    if sent.Ok? {
      RoundTrip(noise, header + data, following);
      assert frame == Wire(Seal(header + data));
    }
  }

  // The exception: a good frame is lost if a newline follows it and both are buffered already.
  method BufferedNewlineLosesFrame(transport: SerialTransport, buffer: array<byte>, ghost message: seq<byte>)
      returns (r: Result<nat, ReceiveError>)
    requires transport.Valid() && buffer.Length == TRANSFER_BUFFER_SIZE
    requires buffer != transport.transferBuffer && buffer != transport.bodyBuffer
    requires |message| + 2 < 0x1_0000 && transport.serial.incoming == []
    requires transport.readBuffer == Wire(Seal(message)) + [NEWLINE]
    modifies transport`readBuffer, transport.serial, transport.transferBuffer, transport.bodyBuffer, buffer
    ensures transport.serial.readFaults == old(transport.serial.readFaults) ==> r == Err(Base64DecodeError)
  {
    hide Wire, Crc.Checksum, ScanFrame, CalmFrame, Suffix;
    NewlineBehindAFrame(message);
    assert transport.Unread() == transport.readBuffer;
    r := transport.RecvRawFrame(buffer);
  }

  // A transmission of any number of frames is received frame by frame, in order, unless the port faults.
  method ReceiveAll(transport: SerialTransport, n: nat, buffer: array<byte>, ghost sent: seq<Sent>,
                    ghost following: seq<byte>)
      returns (messages: seq<seq<byte>>, ok: bool)
    requires transport.Valid() && buffer.Length == TRANSFER_BUFFER_SIZE
    requires buffer != transport.transferBuffer && buffer != transport.bodyBuffer
    requires Sendable(sent) && n == |sent| && CalmSent(sent) && CalmRest(following)
    requires transport.Unread() == Transmit(sent) + following
    modifies transport`readBuffer, transport.serial, transport.transferBuffer, transport.bodyBuffer, buffer
    ensures transport.Valid()
    ensures ok ==> messages == Messages(sent) && transport.Unread() == following
    ensures !ok ==> transport.serial.readFaults != old(transport.serial.readFaults)
  {
    hide Wire, Crc.Checksum, ScanFrame, CalmFrame, Noise, Suffix, CalmSent, Transmit, CalmRest;
    messages := [];
    assert sent[0..] == sent;
    for i := 0 to n
      invariant transport.Valid() && transport.serial.readFaults == old(transport.serial.readFaults)
      invariant transport.Unread() == Transmit(sent[i..]) + following
      invariant messages == Messages(sent[..i])
    {
      ghost var s := Transmit(sent[i + 1..]) + following;
      NextFrame(sent, i, following);
      RoundTrip(sent[i].noise, sent[i].message, s);
      var received := transport.RecvRawFrame(buffer);
      if received.Err? {
        return messages, false;
      }
      messages := messages + [buffer[..received.value]];
    }
    assert sent[..n] == sent;
    NoMoreFrames(sent[n..], following);
    return messages, true;
  }

  lemma NoMoreFrames(none: seq<Sent>, following: seq<byte>)
    requires none == []
    ensures Transmit(none) + following == following
  {
  }

  // The stream at the i-th frame.
  lemma NextFrame(sent: seq<Sent>, i: nat, following: seq<byte>)
    requires Sendable(sent) && i < |sent| && CalmSent(sent) && CalmRest(following)
    ensures |sent[i].message| + 2 < 0x1_0000 && Noise(sent[i].noise, true)
    ensures Transmit(sent[i..]) + following
         == sent[i].noise + Wire(Seal(sent[i].message)) + (Transmit(sent[i + 1..]) + following)
    ensures CalmRest(Transmit(sent[i + 1..]) + following)
  {
    hide Wire, Crc.Checksum, Noise, CalmRest;
    var tail := sent[i..];
    assert tail[0] == sent[i] && tail[1..] == sent[i + 1..];
    assert CalmSent(tail[1..]);
    CalmTransmit(tail[1..], following);
  }

  // A command gets the payload of the first reply with its sequence number, behind any number of replies to
  // other requests, and nothing after that reply is consumed.
  method TransceiveWithStaleReplies(transceiver: Transceiver, write: bool, groupId: u16, commandId: u8, data: seq<byte>,
                                    ghost stale: seq<Sent>, ghost noise: seq<byte>, ghost h: Header,
                                    ghost payload: seq<byte>, ghost following: seq<byte>)
      returns (r: Result<seq<byte>, ExecuteError>)
    requires transceiver.Valid()
    requires var request := Request(write, transceiver.nextSeqnum, groupId, commandId);
             Stale(stale, request) && request.IsAnsweredBy(h) && h.ver < 4 && h.dataLength == |payload|
    requires |payload| + 10 < 0x1_0000 && Noise(noise, true)
    requires CalmSent(stale) && CalmRest(noise) && CalmRest(following)
    requires transceiver.Unread() == Transmit(stale) + (noise + Wire(Seal(h.ToBytes() + payload)) + following)
    modifies transceiver`nextSeqnum, transceiver.transport`readBuffer, transceiver.transport.serial,
             transceiver.transport.transferBuffer, transceiver.transport.bodyBuffer, transceiver.receiveBuffer
    ensures r.Ok? ==> r.value == payload && transceiver.Unread() == following
    ensures r.Err? ==>
      || transceiver.transport.serial.readFaults != old(transceiver.transport.serial.readFaults)
      || r.error.SendFailed?
  {
    hide Wire, Crc.Checksum, ScanReply, CalmReply, Noise, Suffix, Stale, CalmSent, Header.ToBytes;
    var request := Request(write, transceiver.nextSeqnum, groupId, commandId);
    ReplyIsFound(stale, noise, request, h, payload, following);
    r := transceiver.TransceiveCommand(write, groupId, commandId, data);
  }

  // The upload requests on the wire.

  // With a frame size of at most 65533, a request that the chunk size allows is always encoded and sent, once
  // for every attempt, as a write to command 1 of group 1, and reads back as what it was made of.
  method ExecuteImageUpload<R>(connection: Connection, frameSize: u64, u: ImageUpload,
                               decodeError: seq<byte> -> Option<ErrResponse>, decode: seq<byte> -> Option<R>)
      returns (r: Result<R, ExecuteError>, ghost attempts: seq<Attempt>)
    requires connection.Valid() && frameSize <= 65533
    requires ImageUploadMaxDataChunkSize(frameSize).Some? && |u.data| <= ImageUploadMaxDataChunkSize(frameSize).value
    modifies connection.transceiver`nextSeqnum, connection.transceiver.transport`readBuffer,
             connection.transceiver.transport.serial, connection.transceiver.transport.transferBuffer,
             connection.transceiver.transport.bodyBuffer, connection.transceiver.receiveBuffer
    ensures connection.Valid() && |u.Encode()| + 10 < 0x1_0000
    ensures r != Err(EncodeFailed) && r != Err(SendFailed(DataTooBig)) && 1 <= |attempts| <= connection.retries + 1
    ensures Consecutive(attempts, true, old(connection.transceiver.nextSeqnum), 1, 1)
    ensures AllSent(attempts) ==>
      connection.transceiver.transport.serial.outgoing
      == old(connection.transceiver.transport.serial.outgoing) + Requests(attempts, u.Encode())
    ensures DecodeMap(u.Encode()).Some? && DecodeMap(u.Encode()).value.1 == []
    ensures SaysImageUpload(DecodeMap(u.Encode()).value.0, u)
  {
    hide ImageUpload.Encode, ImageUploadMaxDataChunkSize, DecodeMap, Consecutive, AllSent, Requests, Chained, Decoded,
      SaysImageUpload;
    ImageRequestFits(frameSize, u);
    ImageUploadReadsBack(u);
    r, attempts := connection.ExecuteCommand(true, 1, 1, u.Encode(), decodeError, decode, true);
  }

  // The same for files, with command 0 of group 8.
  method ExecuteFileUpload<R>(connection: Connection, frameSize: u64, u: FileUpload,
                              decodeError: seq<byte> -> Option<ErrResponse>, decode: seq<byte> -> Option<R>)
      returns (r: Result<R, ExecuteError>, ghost attempts: seq<Attempt>)
    requires connection.Valid() && frameSize <= 65533
    requires FileUploadMaxDataChunkSize(frameSize, u.name).Some?
    requires |u.data| <= FileUploadMaxDataChunkSize(frameSize, u.name).value
    modifies connection.transceiver`nextSeqnum, connection.transceiver.transport`readBuffer,
             connection.transceiver.transport.serial, connection.transceiver.transport.transferBuffer,
             connection.transceiver.transport.bodyBuffer, connection.transceiver.receiveBuffer
    ensures connection.Valid() && |u.Encode()| + 10 < 0x1_0000
    ensures r != Err(EncodeFailed) && r != Err(SendFailed(DataTooBig)) && 1 <= |attempts| <= connection.retries + 1
    ensures Consecutive(attempts, true, old(connection.transceiver.nextSeqnum), 8, 0)
    ensures AllSent(attempts) ==>
      connection.transceiver.transport.serial.outgoing
      == old(connection.transceiver.transport.serial.outgoing) + Requests(attempts, u.Encode())
    ensures DecodeMap(u.Encode()).Some? && DecodeMap(u.Encode()).value.1 == []
    ensures SaysFileUpload(DecodeMap(u.Encode()).value.0, u)
  {
    hide FileUpload.Encode, FileUploadMaxDataChunkSize, DecodeMap, Consecutive, AllSent, Requests, Chained, Decoded,
      SaysFileUpload;
    FileRequestFits(frameSize, u);
    FileUploadReadsBack(u);
    r, attempts := connection.ExecuteCommand(true, 8, 0, u.Encode(), decodeError, decode, true);
  }
}
