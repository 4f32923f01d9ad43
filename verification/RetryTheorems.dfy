/**
 Whose replies the attempts of a command get, also after faults that cut frames apart: reading may go on
 anywhere in the stream, and what is left there is again frames behind noise.
 */
module RetryTheorems {
  import opened Bytes
  import opened Wrappers
  import Base64
  import Crc
  import opened Framing
  import opened FramingTheorems
  import opened Smp
  import opened SerialTransport
  import opened Connection
  import opened SequenceNumbers

  // The first byte of the first marker appears nowhere else in a frame.

  predicate NoSix(s: seq<byte>) {
    forall i :: 0 <= i < |s| ==> s[i] != 6
  }

  lemma {:induction false} NoSixInLines(data: seq<byte>, first: bool)
    requires data != []
    ensures Lines(data, first) != [] && NoSix(Lines(data, first)[1..]) && (!first ==> NoSix(Lines(data, first)))
  {
    hide Base64.Encode;
    var n := if |data| <= BODY_MAX then |data| else BODY_MAX;
    Base64.EncodeIsText(data[..n]);
    LinesStep(data, n, first);
    if |data| > BODY_MAX {
      NoSixInLines(data[n..], false);
    } else {
      LinesOfNothing(false);
      assert data[n..] == [];
    }
  }

  lemma SuffixOfWire(w: seq<byte>, frame: seq<byte>)
    requires |frame| < 0x1_0000 && Suffix(w, Wire(frame)) && |w| < |Wire(frame)|
    ensures NoSix(w)
  {
    hide Lines;
    NoSixInLines(Prefixed(frame), true);
    var tail := Wire(frame)[1..];
    assert forall i :: 0 <= i < |w| ==> w[i] == tail[|tail| - |w| + i];
  }

  lemma MoreJunk(junk: seq<byte>, noise: seq<byte>)
    requires NoSix(junk) && Noise(noise, true)
    ensures Noise(junk + noise, true)
  {
    var all := junk + noise;
    forall i: nat
      ensures !MarkerAt(all, i, true)
    {
      if i >= |junk| {
        assert !MarkerAt(noise, i - |junk|, true);
      }
    }
  }

  lemma LessNoise(w: seq<byte>, noise: seq<byte>)
    requires Suffix(w, noise) && Noise(noise, true)
    ensures Noise(w, true)
  {
    forall i: nat
      ensures !MarkerAt(w, i, true)
    {
      assert !MarkerAt(noise, |noise| - |w| + i, true);
    }
  }

  lemma {:induction false} NothingInNoise(noise: seq<byte>)
    requires Noise(noise, true)
    ensures Hunt(noise, true) == None
  {
    if |noise| >= 2 {
      assert !MarkerAt(noise, 0, true);
      assert noise[..2] == [noise[0], noise[1]];
      LessNoise(noise[1..], noise);
      NothingInNoise(noise[1..]);
    }
  }

  // Noise instead of the noise before the first frame.
  lemma OtherNoise(noise: seq<byte>, sent: seq<Sent>) returns (left: seq<Sent>)
    requires Sendable(sent) && sent != [] && Noise(noise, true)
    ensures Sendable(left) && Messages(left) == Messages(sent)
    ensures Transmit(left) == noise + Wire(Seal(sent[0].message)) + Transmit(sent[1..])
  {
    hide Wire, Crc.Checksum, Noise;
    left := [Sent(noise, sent[0].message)] + sent[1..];
    assert left[1..] == sent[1..];
    assert Sendable(sent[1..]);
  }

  // The end of a frame counts as noise before the next one.
  lemma EndOfFrame(junk: seq<byte>, sent: seq<Sent>, tail: seq<byte>) returns (left: seq<Sent>, end: seq<byte>)
    requires Sendable(sent) && Noise(tail, true) && NoSix(junk)
    ensures Sendable(left) && Noise(end, true) && Messages(left) == Messages(sent)
    ensures junk + (Transmit(sent) + tail) == Transmit(left) + end
  {
    hide Wire, Crc.Checksum, Noise, NoSix, Messages;
    if sent == [] {
      MoreJunk(junk, tail);
      left, end := [], junk + tail;
    } else {
      var noise, wire := sent[0].noise, Wire(Seal(sent[0].message));
      MoreJunk(junk, noise);
      left := OtherNoise(junk + noise, sent);
      end := tail;
      assert junk + (noise + wire + Transmit(sent[1..]) + tail) == junk + noise + wire + Transmit(sent[1..]) + tail;
    }
  }

  // Reading goes on within the first frame.
  lemma WithinFrame(sent: seq<Sent>, tail: seq<byte>, u: seq<byte>) returns (left: seq<Sent>, end: seq<byte>)
    requires Sendable(sent) && Noise(tail, true) && sent != []
    requires Suffix(u, Wire(Seal(sent[0].message)) + (Transmit(sent[1..]) + tail))
    requires |Transmit(sent[1..]) + tail| <= |u| < |Wire(Seal(sent[0].message)) + (Transmit(sent[1..]) + tail)|
    ensures Sendable(left) && Noise(end, true) && u == Transmit(left) + end
    ensures |left| <= |sent| && Messages(left) == Messages(sent)[|sent| - |left|..]
  {
    hide Wire, Crc.Checksum, Noise, NoSix, Suffix, Messages, Transmit;
    var wire, rest := Wire(Seal(sent[0].message)), Transmit(sent[1..]) + tail;
    CutOff(u, wire, rest);
    SuffixOfWire(u[..|u| - |rest|], Seal(sent[0].message));
    left, end := EndOfFrame(u[..|u| - |rest|], sent[1..], tail);
    MessagesStep(sent);
  }

  // Reading goes on in the noise before it.
  lemma BeforeFrame(sent: seq<Sent>, tail: seq<byte>, u: seq<byte>) returns (left: seq<Sent>)
    requires Sendable(sent) && sent != []
    requires Suffix(u, sent[0].noise + (Wire(Seal(sent[0].message)) + (Transmit(sent[1..]) + tail)))
    requires |Wire(Seal(sent[0].message)) + (Transmit(sent[1..]) + tail)| <= |u|
    ensures Sendable(left) && u == Transmit(left) + tail && Messages(left) == Messages(sent)
  {
    hide Wire, Crc.Checksum, Noise, Suffix, Messages, Transmit;
    var noise, wire, rest := sent[0].noise, Wire(Seal(sent[0].message)), Transmit(sent[1..]) + tail;
    CutOff(u, noise, wire + rest);
    var w := u[..|u| - |wire + rest|];
    LessNoise(w, noise);
    left := OtherNoise(w, sent);
    assert w + wire + Transmit(sent[1..]) + tail == w + (wire + rest);
  }

  lemma SameLength(a: seq<Sent>, b: seq<Sent>)
    requires Messages(a) == Messages(b)
    ensures |a| == |b| && Messages(a) == Messages(b)[|b| - |a|..]
  {
  }

  lemma MessagesStep(sent: seq<Sent>)
    requires sent != []
    ensures Messages(sent) == [sent[0].message] + Messages(sent[1..])
  {
  }

  // Wherever reading goes on in a transmission, the rest is a transmission of its last messages.
  lemma {:induction false} RestOfTransmission(sent: seq<Sent>, tail: seq<byte>, u: seq<byte>)
      returns (left: seq<Sent>, end: seq<byte>)
    requires Sendable(sent) && Noise(tail, true) && Suffix(u, Transmit(sent) + tail)
    ensures Sendable(left) && Noise(end, true) && u == Transmit(left) + end
    ensures |left| <= |sent| && Messages(left) == Messages(sent)[|sent| - |left|..]
  {
    hide Wire, Crc.Checksum, Noise, Suffix, Messages, Transmit;
    NothingTransmitted();
    if sent == [] {
      left, end := [], u;
      assert [] + tail == tail && [] + u == u;
      LessNoise(u, tail);
      SameLength(left, sent);
    } else {
      var noise, wire, rest := sent[0].noise, Wire(Seal(sent[0].message)), Transmit(sent[1..]) + tail;
      TransmitStep(sent);
      Associative(noise + wire, Transmit(sent[1..]), tail);
      Associative(noise, wire, rest);
      if |u| < |rest| {
        SmallerSuffix(u, noise + wire, rest);
        left, end := RestOfTransmission(sent[1..], tail, u);
        MessagesStep(sent);
      } else if |u| < |wire + rest| {
        SmallerSuffix(u, noise, wire + rest);
        left, end := WithinFrame(sent, tail, u);
      } else {
        left := BeforeFrame(sent, tail, u);
        end := tail;
        SameLength(left, sent);
      }
    }
  }

  lemma NothingTransmitted()
    ensures Transmit([]) == []
  {
  }

  lemma SmallerSuffix(u: seq<byte>, s: seq<byte>, t: seq<byte>)
    requires Suffix(u, s + t) && |u| <= |t|
    ensures Suffix(u, t)
  {
  }

  lemma CutOff(u: seq<byte>, s: seq<byte>, t: seq<byte>)
    requires Suffix(u, s + t) && |t| <= |u|
    ensures u == u[..|u| - |t|] + t && Suffix(u[..|u| - |t|], s)
  {
    var st := s + t;
    assert forall i :: 0 <= i < |u| ==> u[i] == st[|st| - |u| + i];
  }

  // A reply that is found in a transmission is one of its messages.
  lemma {:induction false} ReplyIsSent(sent: seq<Sent>, tail: seq<byte>, request: Request) returns (k: nat)
    requires Sendable(sent) && Noise(tail, true) && ScanReply(Transmit(sent) + tail, request).Reply?
    ensures k < |sent| && IsReply(sent[k].message, request, ScanReply(Transmit(sent) + tail, request).payload)
  {
    hide ScanFrame, Wire, Crc.Checksum, Noise, Header.FromBytes, IsReply;
    if sent == [] {
      assert Transmit(sent) + tail == tail;
      NoFrameInNoise(tail);
    } else {
      var rest := Transmit(sent[1..]) + tail;
      assert Transmit(sent) + tail == sent[0].noise + Wire(Seal(sent[0].message)) + rest;
      RoundTrip(sent[0].noise, sent[0].message, rest);
      NumberInHeader(sent[0].message);
      ReplyInBytes(sent[0].message, request, sent[0].message[8..]);
      if sent[0].message[6] == request.sequenceNum {
        k := 0;
      } else {
        k := ReplyIsSent(sent[1..], tail, request);
        k := k + 1;
      }
    }
  }

  lemma NoFrameInNoise(noise: seq<byte>)
    requires Noise(noise, true)
    ensures ScanFrame(noise) == NoFrame
  {
    NothingInNoise(noise);
  }

  lemma {:induction false} EachReadsTheRest(attempts: seq<Attempt>, before: seq<byte>, after: seq<byte>, i: nat)
    requires Chained(attempts, before, after) && i < |attempts|
    ensures Suffix(attempts[i].before, before)
  {
    hide ScanReply;
    if i == 0 {
      SuffixReflexive(before);
    } else {
      EachReadsTheRest(attempts, before, after, i - 1);
      assert attempts[i - 1].Genuine();
      SuffixTransitive(attempts[i].before, attempts[i - 1].before, before);
    }
  }

  lemma NumberOfAttempt(start: u8, first: nat, i: nat)
    ensures (NumberOf(start, first) + i) % 0x100 == NumberOf(start, first + i)
  {
  }

  // The device has answered any requests in any order; its frames stand in the stream with the numbers of the
  // requests they answer. Whatever happens between the attempts of a command, a payload that the i-th one
  // returns is that of a frame for the same request or one a multiple of 256 away; so it is its own, if the
  // frames in the stream answer requests less than 256 away.
  lemma EveryReplyIsItsOwn(attempts: seq<Attempt>, write: bool, start: u8, first: nat, groupId: u16, commandId: u8,
                           sent: seq<Sent>, ids: seq<nat>, tail: seq<byte>, after: seq<byte>, i: nat)
      returns (k: nat)
    requires Answers(sent, ids, start) && Noise(tail, true)
    requires Consecutive(attempts, write, NumberOf(start, first), groupId, commandId)
    requires Chained(attempts, Transmit(sent) + tail, after)
    requires i < |attempts| && attempts[i].result.Ok?
    ensures k < |sent| && IsReply(sent[k].message, attempts[i].request, attempts[i].result.value)
    ensures ids[k] % 0x100 == (first + i) % 0x100
    ensures ids[k] == first + i <==> -0x100 < ids[k] - (first + i) < 0x100
  {
    hide Transmit, Noise, ScanReply, NumberOf, Header.FromBytes;
    var request := attempts[i].request;
    assert attempts[i].Genuine();
    EachReadsTheRest(attempts, Transmit(sent) + tail, after, i);
    var left, end := RestOfTransmission(sent, tail, attempts[i].before);
    var j := ReplyIsSent(left, end, request);
    k := |sent| - |left| + j;
    assert Messages(left)[j] == Messages(sent)[k];
    NumberInHeader(sent[k].message);
    NumberOfAttempt(start, first, i);
    SameNumber(start, ids[k], first + i);
    if ids[k] <= first + i {
      Apart(ids[k], first + i);
    } else {
      Apart(first + i, ids[k]);
    }
  }
}
