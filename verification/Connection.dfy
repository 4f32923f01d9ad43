/** The SMP connection: sequence numbers, retries, and the order in which errors are reported. */
module Connection {
  import opened Bytes
  import opened Wrappers
  import Crc
  import opened Framing
  import opened Smp
  import opened SerialTransport

  datatype DeviceError =
    | V1(rc: int, reason: Option<string>)
    | V2(group: u16, rc: int)

  datatype ExecuteError =
    | SendFailed(send: SendError)
    | ReceiveFailed(receive: ReceiveError)
    | EncodeFailed
    | DecodeFailed
    | ErrorResponse(device: DeviceError)
  {
    predicate CommandNotSupported() {
      ErrorResponse? && device.V1? && device.rc == MGMT_ERR_ENOTSUP
    }
  }

  const MGMT_ERR_EOK: int := 0
  const MGMT_ERR_ENOTSUP: int := 8

  // Exactly a plain error with code 8 says that a command is not supported.
  lemma NotSupportedIsCode8(e: ExecuteError)
    ensures e.CommandNotSupported() <==> exists reason :: e == ErrorResponse(V1(8, reason))
  {
    assert e.CommandNotSupported() ==> e == ErrorResponse(V1(8, e.device.reason));
  }

  // One exchange: what was unread before and after it, and how it ended.
  datatype Attempt = Attempt(
    request: Request,
    before: seq<byte>,
    result: Result<seq<byte>, ExecuteError>,
    after: seq<byte>
  ) {
    // The exchange consumed some of the stream; a result that is not a failure is the reply in it.
    ghost predicate Genuine() {
      && Suffix(after, before)
      && (result.Ok? ==> ScanReply(before, request) == Reply(result.value, after))
    }
  }

  // What is written when every attempt sends its request completely.
  function Requests(attempts: seq<Attempt>, data: seq<byte>): seq<byte>
    requires |data| + 10 < 0x1_0000
  {
    if attempts == [] then []
    else Requests(attempts[..|attempts| - 1], data) + Wire(Seal(attempts[|attempts| - 1].request.Message(data)))
  }

  class Transceiver {
    const transport: SerialTransport
    const receiveBuffer: array<byte>
    var nextSeqnum: u8

    ghost predicate Valid()
      reads this, transport
    {
      && transport.Valid()
      && receiveBuffer.Length == TRANSFER_BUFFER_SIZE
      && receiveBuffer != transport.transferBuffer && receiveBuffer != transport.bodyBuffer
    }

    ghost function Unread(): seq<byte>
      reads this, transport, transport.serial
    {
      transport.Unread()
    }

    constructor (transport: SerialTransport, seed: u8)
      requires transport.Valid()
      ensures Valid() && this.transport == transport && nextSeqnum == seed
    {
      this.transport, nextSeqnum := transport, seed;
      receiveBuffer := new byte[TRANSFER_BUFFER_SIZE](_ => 0);
    }

    method TransceiveCommand(write: bool, groupId: u16, commandId: u8, data: seq<byte>)
        returns (r: Result<seq<byte>, ExecuteError>)
      requires Valid()
      modifies this`nextSeqnum, transport`readBuffer, transport.serial, transport.transferBuffer,
               transport.bodyBuffer, receiveBuffer
      ensures Valid() && nextSeqnum == (old(nextSeqnum) + 1) % 0x100
      ensures Attempt(Request(write, old(nextSeqnum), groupId, commandId), old(Unread()), r, Unread()).Genuine()
      ensures r == Err(SendFailed(DataTooBig)) <==> |data| + 10 >= 0x1_0000
      ensures r.Err? && r.error.SendFailed? ==> Unread() == old(Unread())
      ensures r == Err(SendFailed(DataTooBig)) ==> transport.serial.outgoing == old(transport.serial.outgoing)
      ensures r.Ok? || r.error.ReceiveFailed? ==>
        transport.serial.outgoing == old(transport.serial.outgoing)
          + Wire(Seal(Request(write, old(nextSeqnum), groupId, commandId).Message(data)))
      ensures r.Err? ==> r.error.SendFailed? || r.error.ReceiveFailed?
      ensures (&& transport.serial.readFaults == old(transport.serial.readFaults)
               && (r.Ok? || r.error.ReceiveFailed?)
               && CalmReply(old(Unread()), Request(write, old(nextSeqnum), groupId, commandId))) ==>
        match ScanReply(old(Unread()), Request(write, old(nextSeqnum), groupId, commandId))
        case Reply(payload, _) => r == Ok(payload)
        case BadReply(error, _) => r == Err(ReceiveFailed(error))
        case NoReply => r == Err(ReceiveFailed(TransportError))
      ensures (&& transport.serial.readFaults == old(transport.serial.readFaults)
               && (r.Ok? || r.error.ReceiveFailed?) && old(transport.serial.incoming) == []
               && !CalmReply(old(Unread()), Request(write, old(nextSeqnum), groupId, commandId))) ==>
        r == Err(ReceiveFailed(Base64DecodeError))
    {
      hide Wire, Crc.Checksum, ScanReply, CalmReply, Suffix;
      var request := Request(write, nextSeqnum, groupId, commandId);
      nextSeqnum := (nextSeqnum + 1) % 0x100;
      var sent := transport.SendFrame(request, data);
      SuffixReflexive(Unread());
      if sent.Err? {
        return Err(SendFailed(sent.error));
      }
      var received := transport.ReceiveFrame(receiveBuffer, request);
      if received.Err? {
        return Err(ReceiveFailed(received.error));
      }
      return Ok(receiveBuffer[HEADER_SIZE..HEADER_SIZE + received.value]);
    }

    // Repeats the exchange, with a new sequence number, until it succeeds or the retries are used up.
    method TransceiveCommandWithRetries(write: bool, groupId: u16, commandId: u8, data: seq<byte>, numRetries: u8)
        returns (r: Result<seq<byte>, ExecuteError>, ghost attempts: seq<Attempt>)
      requires Valid()
      modifies this`nextSeqnum, transport`readBuffer, transport.serial, transport.transferBuffer,
               transport.bodyBuffer, receiveBuffer
      ensures Valid()
      ensures 1 <= |attempts| <= numRetries + 1
      ensures r == attempts[|attempts| - 1].result
      ensures forall i :: 0 <= i < |attempts| - 1 ==> attempts[i].result.Err?
      ensures r.Err? ==> |attempts| == numRetries + 1
      ensures r.Err? ==> r.error.SendFailed? || r.error.ReceiveFailed?
      ensures nextSeqnum == (old(nextSeqnum) + |attempts|) % 0x100
      ensures Consecutive(attempts, write, old(nextSeqnum), groupId, commandId)
      ensures Chained(attempts, old(Unread()), Unread())
      ensures |data| + 10 >= 0x1_0000 <==> r == Err(SendFailed(DataTooBig))
      ensures |data| + 10 < 0x1_0000 && AllSent(attempts) ==>
        transport.serial.outgoing == old(transport.serial.outgoing) + Requests(attempts, data)
    {
      hide *;
      var counter: u8 := 0;
      attempts := [];
      ghost var start, stream, written := nextSeqnum, Unread(), transport.serial.outgoing;
      ghost var first := Request(write, start, groupId, commandId);
      NoAttempts(first, data, stream, written);
      while true
        invariant Valid() && counter <= numRetries && |attempts| == counter
        invariant forall i :: 0 <= i < |attempts| ==> attempts[i].result.Err?
        invariant nextSeqnum == (start + counter) % 0x100
        invariant Tried(attempts, first, data, stream, Unread(), written, transport.serial.outgoing)
        decreases numRetries - counter
      {
        ghost var earlier := attempts;
        r, attempts := Try(write, groupId, commandId, data, first, stream, written, earlier);
        if counter >= numRetries {
          break;
        }
        counter := counter + 1;
        if r.Ok? {
          break;
        }
      }
      Unfold(attempts, first, data, stream, Unread(), written, transport.serial.outgoing);
    }

    // One more attempt.
    method Try(write: bool, groupId: u16, commandId: u8, data: seq<byte>, ghost first: Request, ghost stream: seq<byte>,
               ghost written: seq<byte>, ghost earlier: seq<Attempt>)
        returns (r: Result<seq<byte>, ExecuteError>, ghost attempts: seq<Attempt>)
      requires Valid() && first.write == write && first.groupId == groupId && first.commandId == commandId
      requires nextSeqnum == (first.sequenceNum + |earlier|) % 0x100
      requires Tried(earlier, first, data, stream, Unread(), written, transport.serial.outgoing)
      modifies this`nextSeqnum, transport`readBuffer, transport.serial, transport.transferBuffer,
               transport.bodyBuffer, receiveBuffer
      ensures Valid() && nextSeqnum == (first.sequenceNum + |attempts|) % 0x100
      ensures |attempts| == |earlier| + 1 && attempts[|earlier|].result == r
      ensures forall i :: 0 <= i < |earlier| ==> attempts[i] == earlier[i]
      ensures Tried(attempts, first, data, stream, Unread(), written, transport.serial.outgoing)
      ensures r.Err? ==> r.error.SendFailed? || r.error.ReceiveFailed?
      ensures |data| + 10 >= 0x1_0000 <==> r == Err(SendFailed(DataTooBig))
    {
      hide Tried, Wire, Seal, Request.Message, ScanReply, CalmReply, Suffix;
      ghost var request := Request(write, nextSeqnum, groupId, commandId);
      ghost var before, sent := Unread(), transport.serial.outgoing;
      r := TransceiveCommand(write, groupId, commandId, data);
      ghost var attempt := Attempt(request, before, r, Unread());
      TriedAppend(earlier, attempt, first, data, stream, written, sent, transport.serial.outgoing);
      attempts := earlier + [attempt];
    }
  }

  // The error fields of a decoded response.
  datatype ErrResponse = ErrResponse(rc: Option<int>, rsn: Option<string>, err: Option<(u16, int)>)

  const SEND_BUFFER_SIZE: nat := 0xffff

  class Connection {
    const transceiver: Transceiver
    var retries: u8

    ghost predicate Valid()
      reads this, transceiver, transceiver.transport
    {
      transceiver.Valid()
    }

    constructor (transceiver: Transceiver, retries: u8)
      requires transceiver.Valid()
      ensures Valid() && this.transceiver == transceiver && this.retries == retries
    {
      this.transceiver, this.retries := transceiver, retries;
    }

    // Sends an encoded request and decodes the response, first as an error and then as itself.
    method ExecuteCommand<R>(write: bool, groupId: u16, commandId: u8, encoded: seq<byte>,
                             decodeError: seq<byte> -> Option<ErrResponse>, decode: seq<byte> -> Option<R>,
                             useRetries: bool)
        returns (r: Result<R, ExecuteError>, ghost attempts: seq<Attempt>)
      requires Valid()
      modifies transceiver`nextSeqnum, transceiver.transport`readBuffer, transceiver.transport.serial,
               transceiver.transport.transferBuffer, transceiver.transport.bodyBuffer, transceiver.receiveBuffer
      ensures Valid() && transceiver.nextSeqnum == (old(transceiver.nextSeqnum) + |attempts|) % 0x100
      ensures |attempts| <= if useRetries then retries + 1 else 1
      ensures Consecutive(attempts, write, old(transceiver.nextSeqnum), groupId, commandId)
      ensures Chained(attempts, old(transceiver.Unread()), transceiver.Unread())
      ensures r == Err(EncodeFailed) <==> |encoded| > SEND_BUFFER_SIZE
      ensures r == Err(EncodeFailed) <==> attempts == []
      ensures r == Err(SendFailed(DataTooBig)) <==> 0x1_0000 - 10 <= |encoded| <= SEND_BUFFER_SIZE
      ensures r == Err(EncodeFailed) ==> transceiver.transport.serial.outgoing == old(transceiver.transport.serial.outgoing)
      ensures |encoded| <= SEND_BUFFER_SIZE ==>
        match attempts[|attempts| - 1].result
        case Err(e) => r == Err(e) && |attempts| == if useRetries then retries + 1 else 1
        case Ok(response) => Decoded(response, decodeError, decode, r)
      ensures |encoded| + 10 < 0x1_0000 && AllSent(attempts) ==>
        transceiver.transport.serial.outgoing
        == old(transceiver.transport.serial.outgoing) + Requests(attempts, encoded)
    {
      hide Attempt.Genuine, Chained, Consecutive, AllSent, Requests, Wire, Seal, ScanReply, CalmReply;
      attempts := [];
      NoAttempts(Request(write, transceiver.nextSeqnum, groupId, commandId), [], transceiver.Unread(), []);
      if |encoded| > SEND_BUFFER_SIZE {
        return Err(EncodeFailed), [];
      }
      var transceived;
      transceived, attempts := transceiver.TransceiveCommandWithRetries(
        write, groupId, commandId, encoded, if useRetries then retries else 0);
      if transceived.Err? {
        return Err(transceived.error), attempts;
      }
      var response := transceived.value;
      r := DecodeResponse(response, decodeError, decode);
    }

    static method DecodeResponse<R>(response: seq<byte>, decodeError: seq<byte> -> Option<ErrResponse>,
                                    decode: seq<byte> -> Option<R>)
        returns (r: Result<R, ExecuteError>)
      ensures Decoded(response, decodeError, decode, r)
    {
      var err := decodeError(response);
      if err.None? {
        return Err(DecodeFailed);
      }
      if err.value.err.Some? {
        var (group, rc) := err.value.err.value;
        return Err(ErrorResponse(V2(group, rc)));
      }
      if err.value.rc.Some? {
        var rc := err.value.rc.value;
        if rc != MGMT_ERR_EOK {
          return Err(ErrorResponse(V1(rc, err.value.rsn)));
        }
      }
      var decoded := decode(response);
      return if decoded.Some? then Ok(decoded.value) else Err(DecodeFailed);
    }
  }

  // What a response means. A group-based error takes precedence over a plain one, a plain zero is no error,
  // and only a response without errors is decoded as itself.
  ghost predicate Decoded<R>(response: seq<byte>, decodeError: seq<byte> -> Option<ErrResponse>,
                             decode: seq<byte> -> Option<R>, r: Result<R, ExecuteError>) {
    var e := decodeError(response);
    var fine := e.Some? && e.value.err.None? && (e.value.rc == None || e.value.rc == Some(0));
    && (r.Ok? <==> fine && decode(response).Some?)
    && (r.Ok? ==> r.value == decode(response).value)
    && (forall group: u16, rc :: r == Err(ErrorResponse(V2(group, rc))) <==> e.Some? && e.value.err == Some((group, rc)))
    && (forall rc, reason :: r == Err(ErrorResponse(V1(rc, reason))) <==>
          e.Some? && e.value.err.None? && e.value.rc == Some(rc) && rc != 0 && e.value.rsn == reason)
    && (r == Err(DecodeFailed) <==> e.None? || (fine && decode(response).None?))
    && (r.Err? ==> r.error.ErrorResponse? || r.error.DecodeFailed?)
  }

  // Every request reached the port completely.
  predicate AllSent(attempts: seq<Attempt>) {
    forall i :: 0 <= i < |attempts| ==> attempts[i].result.Err? ==> !attempts[i].result.error.SendFailed?
  }

  // Attempts carry the sequence numbers from `start` on, wrapping at 256.
  predicate Consecutive(attempts: seq<Attempt>, write: bool, start: u8, groupId: u16, commandId: u8) {
    forall i :: 0 <= i < |attempts| ==>
      attempts[i].request == Request(write, (start + i) % 0x100, groupId, commandId)
  }

  // Each attempt goes on where the previous one stopped reading.
  ghost predicate Chained(attempts: seq<Attempt>, before: seq<byte>, after: seq<byte>) {
    && (forall i :: 0 <= i < |attempts| ==> attempts[i].Genuine())
    && (forall i :: 0 <= i < |attempts| - 1 ==> attempts[i].after == attempts[i + 1].before)
    && (if attempts == [] then before == after
        else attempts[0].before == before && attempts[|attempts| - 1].after == after)
  }

  // Some attempts of one command, beginning with some request: what they read and what they wrote.
  ghost predicate Tried(attempts: seq<Attempt>, first: Request, data: seq<byte>, before: seq<byte>, after: seq<byte>,
                        written: seq<byte>, now: seq<byte>) {
    && Consecutive(attempts, first.write, first.sequenceNum, first.groupId, first.commandId)
    && Chained(attempts, before, after)
    && (|data| + 10 < 0x1_0000 && AllSent(attempts) ==> now == written + Requests(attempts, data))
  }

  lemma NoAttempts(first: Request, data: seq<byte>, before: seq<byte>, written: seq<byte>)
    ensures Tried([], first, data, before, before, written, written)
  {
  }

  lemma Unfold(attempts: seq<Attempt>, first: Request, data: seq<byte>, before: seq<byte>, after: seq<byte>,
               written: seq<byte>, now: seq<byte>)
    requires Tried(attempts, first, data, before, after, written, now)
    ensures Consecutive(attempts, first.write, first.sequenceNum, first.groupId, first.commandId)
    ensures Chained(attempts, before, after)
    ensures |data| + 10 < 0x1_0000 && AllSent(attempts) ==> now == written + Requests(attempts, data)
  {
  }

  lemma TriedAppend(attempts: seq<Attempt>, a: Attempt, first: Request, data: seq<byte>, before: seq<byte>,
                    written: seq<byte>, sent: seq<byte>, now: seq<byte>)
    requires Tried(attempts, first, data, before, a.before, written, sent) && a.Genuine()
    requires a.request == first.(sequenceNum := (first.sequenceNum + |attempts|) % 0x100)
    requires |data| + 10 < 0x1_0000 && (a.result.Err? ==> !a.result.error.SendFailed?) ==>
             now == sent + Wire(Seal(a.request.Message(data)))
    ensures Tried(attempts + [a], first, data, before, a.after, written, now)
  {
    hide Attempt.Genuine, Wire, Crc.Checksum, Requests, Chained, Consecutive, AllSent;
    ConsecutiveAppend(attempts, a, first.write, first.sequenceNum, first.groupId, first.commandId);
    ChainedAppend(attempts, a, before);
    AllSentAppend(attempts, a);
    if |data| + 10 < 0x1_0000 {
      RequestsAppend(attempts, a, data);
      var requests, request := Requests(attempts, data), Wire(Seal(a.request.Message(data)));
      assert written + requests + request == written + (requests + request);
    }
  }

  lemma ConsecutiveAppend(attempts: seq<Attempt>, a: Attempt, write: bool, start: u8, groupId: u16, commandId: u8)
    requires Consecutive(attempts, write, start, groupId, commandId)
    requires a.request == Request(write, (start + |attempts|) % 0x100, groupId, commandId)
    ensures Consecutive(attempts + [a], write, start, groupId, commandId)
  {
  }

  lemma AllSentAppend(attempts: seq<Attempt>, a: Attempt)
    ensures AllSent(attempts + [a]) <==> AllSent(attempts) && (a.result.Err? ==> !a.result.error.SendFailed?)
  {
    assert (attempts + [a])[|attempts|] == a;
    assert forall i :: 0 <= i < |attempts| ==> (attempts + [a])[i] == attempts[i];
  }

  lemma ChainedAppend(attempts: seq<Attempt>, a: Attempt, before: seq<byte>)
    requires Chained(attempts, before, a.before) && a.Genuine()
    ensures Chained(attempts + [a], before, a.after)
  {
    hide Attempt.Genuine;
  }

  lemma RequestsAppend(attempts: seq<Attempt>, a: Attempt, data: seq<byte>)
    requires |data| + 10 < 0x1_0000
    ensures Requests(attempts + [a], data) == Requests(attempts, data) + Wire(Seal(a.request.Message(data)))
  {
    hide Wire, Crc.Checksum;
    assert (attempts + [a])[..|attempts|] == attempts;
  }

  // No two attempts of one call share a sequence number, for every retry count.
  lemma SequenceNumbersDiffer(attempts: seq<Attempt>, write: bool, start: u8, groupId: u16, commandId: u8, i: nat, j: nat)
    requires |attempts| <= 0x100 && Consecutive(attempts, write, start, groupId, commandId)
    requires i < j < |attempts|
    ensures attempts[i].request.sequenceNum != attempts[j].request.sequenceNum
  {
    SameRemainder(start + i, start + j);
  }

  lemma SameRemainder(a: nat, b: nat)
    requires a < b < a + 0x100
    ensures a % 0x100 != b % 0x100
  {
    assert b - a == 0x100 * (b / 0x100 - a / 0x100) + (b % 0x100 - a % 0x100);
  }
}
