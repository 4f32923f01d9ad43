/** SMP messages: the eight-byte header, and finding the reply to a request in a stream of frames. */
module Smp {
  import opened Bytes
  import opened Wrappers
  import Crc
  import opened Framing
  import opened FramingTheorems

  const HEADER_SIZE: nat := 8

  datatype Header = Header(
    ver: u8,
    op: u8,
    flags: u8,
    dataLength: u16,
    groupId: u16,
    sequenceNum: u8,
    commandId: u8
  ) {
    function ToBytes(): (d: seq<byte>)
      ensures |d| == HEADER_SIZE
    {
      [ver % 4 * 8 + op % 8, flags] + U16Be(dataLength) + U16Be(groupId) + [sequenceNum, commandId]
    }

    static function FromBytes(d: seq<byte>): Header
      requires |d| == HEADER_SIZE
    {
      Header(d[0] / 8 % 4, d[0] % 8, d[1], FromU16Be(d[2], d[3]), FromU16Be(d[4], d[5]), d[6], d[7])
    }
  }

  // Where each field stands, and how it is encoded.
  lemma HeaderLayout(h: Header)
    requires h.ver < 4 && h.op < 8
    ensures var b := h.ToBytes();
            && b[0] == 8 * h.ver + h.op && b[1] == h.flags && Two(b[2], b[3]) == h.dataLength
            && Two(b[4], b[5]) == h.groupId && b[6] == h.sequenceNum && b[7] == h.commandId
  {
    hide U16Be, U32Be, FromU16Be, FromU32Be, Two, Four;
    BigEndianBytes(h.dataLength, 0, []);
    BigEndianBytes(h.groupId, 0, []);
    assert h.ver % 4 == h.ver && h.op % 8 == h.op;
    var b, l, g := h.ToBytes(), U16Be(h.dataLength), U16Be(h.groupId);
    assert b == [8 * h.ver + h.op, h.flags, l[0], l[1], g[0], g[1], h.sequenceNum, h.commandId];
  }

  // The same for the receiver; the reserved bits are ignored.
  lemma ReceivedLayout(d: seq<byte>)
    requires |d| == 8
    ensures var h := Header.FromBytes(d);
            && h.ver == d[0] / 8 % 4 && h.op == d[0] % 8 && h.flags == d[1] && h.dataLength == Two(d[2], d[3])
            && h.groupId == Two(d[4], d[5]) && h.sequenceNum == d[6] && h.commandId == d[7]
  {
  }

  // Headers survive exactly if the version fits in two bits and the operation in three.
  lemma HeaderRoundTrip(h: Header)
    ensures Header.FromBytes(h.ToBytes()) == h <==> h.ver < 4 && h.op < 8
  {
    var v, o := h.ver % 4, h.op % 8;
    assert (v * 8 + o) / 8 % 4 == v && (v * 8 + o) % 8 == o;
  }

  // Bytes survive exactly if the three reserved bits are clear.
  lemma HeaderBytesRoundTrip(d: seq<byte>)
    requires |d| == HEADER_SIZE
    ensures Header.FromBytes(d).ToBytes() == d <==> d[0] < 32
  {
    hide U16Be, FromU16Be;
    var b := Header.FromBytes(d).ToBytes();
    FirstByte(d[0]);
    U16BeOfBytes(d[2], d[3]);
    U16BeOfBytes(d[4], d[5]);
    assert b == [d[0] / 8 % 4 * 8 + d[0] % 8, d[1], d[2], d[3], d[4], d[5], d[6], d[7]];
  }

  lemma U16BeOfBytes(hi: byte, lo: byte)
    ensures U16Be(FromU16Be(hi, lo)) == [hi, lo]
  {
  }

  lemma FirstByte(b: byte)
    ensures b / 8 % 4 * 8 + b % 8 == b <==> b < 32
  {
  }

  const READ: u8 := 0
  const READ_RSP: u8 := 1
  const WRITE: u8 := 2
  const WRITE_RSP: u8 := 3

  // What a request and its reply have in common.
  datatype Request = Request(write: bool, sequenceNum: u8, groupId: u16, commandId: u8) {
    function Message(data: seq<byte>): seq<byte>
      requires |data| < 0x1_0000
    {
      Header(1, if write then WRITE else READ, 0, |data|, groupId, sequenceNum, commandId).ToBytes() + data
    }

    predicate IsAnsweredBy(h: Header) {
      && h.sequenceNum == sequenceNum && h.groupId == groupId && h.commandId == commandId
      && h.op == if write then WRITE_RSP else READ_RSP
    }
  }

  // A request in bytes: version 1, operation 2 for a write and 0 for a read, no flags, the length of the data,
  // the group, the sequence number, the command, and the data.
  lemma RequestBytes(request: Request, data: seq<byte>)
    requires |data| < 0x1_0000
    ensures var m := request.Message(data);
            && |m| == 8 + |data| && m[8..] == data
            && m[0] == (if request.write then 10 else 8) && m[1] == 0
            && Two(m[2], m[3]) == |data| && Two(m[4], m[5]) == request.groupId
            && m[6] == request.sequenceNum && m[7] == request.commandId
  {
    hide Header.ToBytes;
    HeaderLayout(Header(1, if request.write then WRITE else READ, 0, |data|,
                        request.groupId, request.sequenceNum, request.commandId));
  }

  datatype ReplyScan =
    | Reply(payload: seq<byte>, rest: seq<byte>)
    | BadReply(error: ReceiveError, rest: seq<byte>)
    | NoReply

  // What a message with the right sequence number amounts to.
  function Judge(message: seq<byte>, rest: seq<byte>, request: Request): ReplyScan
    requires |message| >= HEADER_SIZE
  {
    var h := Header.FromBytes(message[..HEADER_SIZE]);
    if !request.IsAnsweredBy(h) || h.dataLength != |message| - HEADER_SIZE then BadReply(UnexpectedResponse, rest)
    else Reply(message[HEADER_SIZE..], rest)
  }

  // Frames with another sequence number are skipped; the first one with the right number decides.
  function ScanReply(s: seq<byte>, request: Request): ReplyScan
    decreases |s|
  {
    match ScanFrame(s)
    case NoFrame => NoReply
    case BadFrame(error, rest) => BadReply(error, rest)
    case Frame(message, rest) =>
      if |message| < HEADER_SIZE then BadReply(UnexpectedResponse, rest)
      else if Header.FromBytes(message[..HEADER_SIZE]).sequenceNum != request.sequenceNum then ScanReply(rest, request)
      else Judge(message, rest, request)
  }

  // No line on the way to the reply is followed by a newline.
  predicate CalmReply(s: seq<byte>, request: Request)
    decreases |s|
  {
    && CalmFrame(s)
    && match ScanFrame(s)
       case Frame(message, rest) =>
         |message| >= HEADER_SIZE && message[6] != request.sequenceNum ==> CalmReply(rest, request)
       case _ => true
  }

  ghost predicate Stale(sent: seq<Sent>, request: Request) {
    && Sendable(sent)
    && forall i :: 0 <= i < |sent| ==>
         |sent[i].message| >= HEADER_SIZE && sent[i].message[6] != request.sequenceNum
  }

  // Any number of replies to other requests may precede the reply on the wire.
  lemma {:induction false} StaleRepliesAreSkipped(stale: seq<Sent>, request: Request, s: seq<byte>)
    requires Stale(stale, request)
    ensures ScanReply(Transmit(stale) + s, request) == ScanReply(s, request)
    ensures CalmSent(stale) && CalmRest(s) && CalmReply(s, request) ==> CalmReply(Transmit(stale) + s, request)
  {
    hide ScanFrame, CalmFrame, Wire, Crc.Checksum;
    if stale == [] {
      assert Transmit(stale) + s == s;
    } else {
      var rest := Transmit(stale[1..]) + s;
      RoundTrip(stale[0].noise, stale[0].message, rest);
      assert Transmit(stale) + s == stale[0].noise + Wire(Seal(stale[0].message)) + rest;
      StaleRepliesAreSkipped(stale[1..], request, s);
      if CalmSent(stale) && CalmRest(s) {
        CalmTransmit(stale[1..], s);
      }
    }
  }

  lemma MatchingReply(noise: seq<byte>, request: Request, h: Header, payload: seq<byte>, rest: seq<byte>)
    requires Noise(noise, true) && h.ver < 4 && h.op < 8 && request.IsAnsweredBy(h)
    requires h.dataLength == |payload| && |payload| + 10 < 0x1_0000
    ensures ScanReply(noise + Wire(Seal(h.ToBytes() + payload)) + rest, request) == Reply(payload, rest)
    ensures CalmRest(rest) ==> CalmReply(noise + Wire(Seal(h.ToBytes() + payload)) + rest, request)
  {
    hide ScanFrame, CalmFrame, Wire, Crc.Checksum;
    var message := h.ToBytes() + payload;
    RoundTrip(noise, message, rest);
    assert message[..HEADER_SIZE] == h.ToBytes() && message[HEADER_SIZE..] == payload;
    assert message[6] == h.sequenceNum;
    HeaderRoundTrip(h);
  }

  // The matching reply is found behind any number of stale ones, and nothing more is consumed.
  lemma ReplyIsFound(stale: seq<Sent>, noise: seq<byte>, request: Request, h: Header, payload: seq<byte>, rest: seq<byte>)
    requires Stale(stale, request) && Noise(noise, true)
    requires h.ver < 4 && h.op < 8 && request.IsAnsweredBy(h)
    requires h.dataLength == |payload| && |payload| + 10 < 0x1_0000
    ensures ScanReply(Transmit(stale) + (noise + Wire(Seal(h.ToBytes() + payload)) + rest), request) == Reply(payload, rest)
    ensures CalmSent(stale) && CalmRest(noise) && CalmRest(rest) ==>
            CalmReply(Transmit(stale) + (noise + Wire(Seal(h.ToBytes() + payload)) + rest), request)
  {
    hide ScanReply, CalmReply, Wire, Crc.Checksum, Header.ToBytes, Stale;
    var wire := Wire(Seal(h.ToBytes() + payload));
    MatchingReply(noise, request, h, payload, rest);
    StaleRepliesAreSkipped(stale, request, noise + wire + rest);
    WireStartsWithMarker(Seal(h.ToBytes() + payload));
    assert CalmRest(noise) ==> CalmRest(noise + wire + rest);
  }

  // Conversely, whatever is taken for the reply is one.

  // In bytes: operation 3 answers a write and 1 a read; the length is that of the payload; group, sequence
  // number and command are those of the request.
  predicate IsReply(message: seq<byte>, request: Request, payload: seq<byte>) {
    && |message| >= 8 && message[8..] == payload
    && message[0] % 8 == (if request.write then 3 else 1)
    && Two(message[2], message[3]) == |payload| && Two(message[4], message[5]) == request.groupId
    && message[6] == request.sequenceNum && message[7] == request.commandId
  }

  lemma ReplyInBytes(message: seq<byte>, request: Request, payload: seq<byte>)
    requires |message| >= HEADER_SIZE
    ensures var h := Header.FromBytes(message[..HEADER_SIZE]);
            IsReply(message, request, payload) <==>
            message[HEADER_SIZE..] == payload && request.IsAnsweredBy(h) && h.dataLength == |payload|
  {
    hide Header.FromBytes;
    var d := message[..HEADER_SIZE];
    ReceivedLayout(d);
    assert forall i :: 0 <= i < 8 ==> d[i] == message[i];
  }

  // The first message with the right number is refused if it is no reply.
  lemma NoReplyIsRefused(noise: seq<byte>, message: seq<byte>, request: Request, rest: seq<byte>)
    requires Noise(noise, true) && 8 <= |message| <= 65533 && message[6] == request.sequenceNum
    requires !IsReply(message, request, message[8..])
    ensures ScanReply(noise + Wire(Seal(message)) + rest, request) == BadReply(UnexpectedResponse, rest)
  {
    hide ScanFrame, Wire, Crc.Checksum, Header.FromBytes, IsReply;
    RoundTrip(noise, message, rest);
    NumberInHeader(message);
    ReplyInBytes(message, request, message[8..]);
  }

  // The stream starts with n frames that carry other numbers, and the reply.
  ghost predicate AnsweredAfter(s: seq<byte>, n: nat, request: Request, payload: seq<byte>, rest: seq<byte>) {
    && ReceiveFrames(s, n + 1).Some?
    && var (messages, end) := ReceiveFrames(s, n + 1).value;
    && |messages| == n + 1 && end == rest && IsReply(messages[n], request, payload)
    && forall i :: 0 <= i < n ==> |messages[i]| >= HEADER_SIZE && messages[i][6] != request.sequenceNum
  }

  lemma ReplyExactly(s: seq<byte>, request: Request, payload: seq<byte>, rest: seq<byte>)
    ensures ScanReply(s, request) == Reply(payload, rest) <==>
            exists n: nat :: AnsweredAfter(s, n, request, payload, rest)
  {
    hide ScanReply, AnsweredAfter;
    if ScanReply(s, request) == Reply(payload, rest) {
      var n := ReplyOrigin(s, request);
    }
    forall n: nat | AnsweredAfter(s, n, request, payload, rest)
      ensures ScanReply(s, request) == Reply(payload, rest)
    {
      FirstReplyIsTaken(s, n, request, payload, rest);
    }
  }

  lemma ReplyFound(message: seq<byte>, request: Request, payload: seq<byte>)
    requires IsReply(message, request, payload)
    ensures |message| >= HEADER_SIZE && Header.FromBytes(message[..HEADER_SIZE]).sequenceNum == request.sequenceNum
    ensures forall rest :: Judge(message, rest, request) == Reply(payload, rest)
  {
    hide Header.FromBytes;
    ReplyInBytes(message, request, payload);
    NumberInHeader(message);
  }

  lemma OneFrame(s: seq<byte>, n: nat)
    ensures ReceiveFrames(s, n + 1).Some? <==> ScanFrame(s).Frame? && ReceiveFrames(ScanFrame(s).rest, n).Some?
    ensures ReceiveFrames(s, n + 1).Some? ==>
            && var (more, end) := ReceiveFrames(ScanFrame(s).rest, n).value;
               ReceiveFrames(s, n + 1).value == ([ScanFrame(s).message] + more, end)
    ensures ReceiveFrames(s, 0) == Some(([], s))
  {
    hide ScanFrame;
  }

  lemma {:induction false} ReplyOrigin(s: seq<byte>, request: Request) returns (n: nat)
    requires ScanReply(s, request).Reply?
    ensures AnsweredAfter(s, n, request, ScanReply(s, request).payload, ScanReply(s, request).rest)
    decreases |s|
  {
    hide ScanFrame, ReceiveFrames, Header.FromBytes, IsReply;
    var Frame(message, rest) := ScanFrame(s);
    NumberInHeader(message);
    ReplyInBytes(message, request, message[8..]);
    if message[6] == request.sequenceNum {
      n := 0;
    } else {
      n := ReplyOrigin(rest, request);
      n := n + 1;
    }
    OneFrame(s, n);
    OneFrame(rest, 0);
  }

  lemma {:induction false} FirstReplyIsTaken(s: seq<byte>, n: nat, request: Request, payload: seq<byte>, rest: seq<byte>)
    requires AnsweredAfter(s, n, request, payload, rest)
    ensures ScanReply(s, request) == Reply(payload, rest)
    decreases n
  {
    hide ScanFrame, ReceiveFrames, Header.FromBytes, IsReply;
    OneFrame(s, n);
    var after := ScanFrame(s).rest;
    if n == 0 {
      OneFrame(after, 0);
      ReplyFound(ReceiveFrames(s, 1).value.0[0], request, payload);
    } else {
      var messages, more := ReceiveFrames(s, n + 1).value.0, ReceiveFrames(after, n).value.0;
      assert forall i :: 0 <= i < n ==> more[i] == messages[i + 1];
      assert messages[0] == ScanFrame(s).message;
      NumberInHeader(messages[0]);
      FirstReplyIsTaken(after, n - 1, request, payload, rest);
    }
  }

  // The header repeats the length of the payload. So although the length prefix of a frame is not covered by
  // the checksum, a reply whose prefix was changed is never taken for a reply.
  lemma WrongLengthIsNoReply(noise: seq<byte>, message: seq<byte>, request: Request, length: nat, rest: seq<byte>)
    requires Noise(noise, true) && HEADER_SIZE <= |message| && |message| + 2 < 0x1_0000
    requires message[6] == request.sequenceNum
    requires Header.FromBytes(message[..HEADER_SIZE]).dataLength == |message| - HEADER_SIZE
    requires length < 0x1_0000 && length != |Seal(message)|
    ensures !ScanReply(noise + Lines(U16Be(length) + Seal(message), true) + rest, request).Reply?
  {
    hide ScanFrame, Collect, Lines, Crc.Checksum, Noise, Header.FromBytes;
    var s, frame := noise + Lines(U16Be(length) + Seal(message), true) + rest, Seal(message);
    ChangedLength(noise, frame, length, rest);
    if ScanFrame(s).Frame? {
      var other := ScanFrame(s).message;
      if length < |frame| {
        LoweredLength(noise, frame, length, rest);
        assert |other| >= HEADER_SIZE ==> other[..HEADER_SIZE] == message[..HEADER_SIZE];
      } else {
        var pieces := CollectOrigin(rest, frame, length);
        assert Seal(other)[..HEADER_SIZE] == other[..HEADER_SIZE] == message[..HEADER_SIZE];
      }
      if |other| >= HEADER_SIZE {
        NumberInHeader(other);
        NumberInHeader(message);
      }
    }
  }

  lemma NumberInHeader(message: seq<byte>)
    requires |message| >= HEADER_SIZE
    ensures Header.FromBytes(message[..HEADER_SIZE]).sequenceNum == message[6]
  {
  }
}
