/**
 What the framing guarantees: the receiver accepts exactly the sealed messages, however they are cut
 into lines; it takes back what the sender writes, in order; and it notices every short burst.
 */
module FramingTheorems {
  import opened Bytes
  import opened Wrappers
  import Base64
  import Crc
  import opened Framing

  // Receiving a line.

  predicate MarkerAt(s: seq<byte>, i: nat, first: bool) {
    i + 1 < |s| && s[i] == Marker(first)[0] && s[i + 1] == Marker(first)[1]
  }

  // Bytes in which the receiver finds no marker.
  ghost predicate Noise(noise: seq<byte>, first: bool) {
    forall i: nat :: !MarkerAt(noise, i, first)
  }

  lemma {:induction false} HuntSkipsNoise(noise: seq<byte>, first: bool, rest: seq<byte>)
    requires Noise(noise, first)
    ensures Hunt(noise + Marker(first) + rest, first) == Some(rest)
  {
    var s := noise + Marker(first) + rest;
    if noise == [] {
      assert s[..2] == Marker(first) && s[2..] == rest;
    } else {
      assert !MarkerAt(noise, 0, first);
      assert s[0] == noise[0] && s[1] == if |noise| > 1 then noise[1] else Marker(first)[0];
      assert s[..2] == [s[0], s[1]] && Marker(first) == [Marker(first)[0], Marker(first)[1]];
      assert Noise(noise[1..], first) by {
        assert forall i: nat :: MarkerAt(noise[1..], i, first) ==> MarkerAt(noise, i + 1, first);
      }
      HuntSkipsNoise(noise[1..], first, rest);
      assert s[1..] == noise[1..] + Marker(first) + rest;
    }
  }

  // One line, whatever came before it, yields its body.
  lemma ScanChunkFindsLine(noise: seq<byte>, body: seq<byte>, first: bool, rest: seq<byte>)
    requires Noise(noise, first) && |body| <= BODY_MAX
    ensures ScanChunk(noise + Line(body, first) + rest, first) == Chunk(body, rest)
  {
    var text := Base64.Encode(body);
    var s := noise + Line(body, first) + rest;
    assert s == noise + Marker(first) + (text + [NEWLINE] + rest);
    HuntSkipsNoise(noise, first, text + [NEWLINE] + rest);
    Base64.EncodeIsText(body);
    Base64.EncodedLength(body);
    assert NEWLINE !in text;
    ScanLineEnds(text, rest, MTU);
    Base64.DecodeEncode(body);
  }

  // Receiving a frame, however its bytes were distributed over lines.

  datatype Piece = Piece(noise: seq<byte>, body: seq<byte>)

  function Emit(pieces: seq<Piece>, first: bool): seq<byte> {
    if pieces == [] then []
    else pieces[0].noise + Line(pieces[0].body, first) + Emit(pieces[1..], false)
  }

  function Bodies(pieces: seq<Piece>): seq<byte> {
    if pieces == [] then [] else pieces[0].body + Bodies(pieces[1..])
  }

  // Continuation lines of at most 93 bytes each; lines may be empty, but not the last one.
  ghost predicate Continuations(pieces: seq<Piece>) {
    && (forall i :: 0 <= i < |pieces| ==>
          |pieces[i].body| <= BODY_MAX && Noise(pieces[i].noise, false))
    && (pieces != [] ==> pieces[|pieces| - 1].body != [])
  }

  lemma {:induction false} EmptyBodies(pieces: seq<Piece>)
    requires Continuations(pieces) && pieces != []
    ensures Bodies(pieces) != []
  {
    if |pieces| > 1 {
      assert Continuations(pieces[1..]);
      EmptyBodies(pieces[1..]);
    }
  }

  predicate CalmPieces(pieces: seq<Piece>) {
    forall i :: 0 <= i < |pieces| ==> CalmRest(pieces[i].noise)
  }

  lemma CalmEmit(pieces: seq<Piece>, rest: seq<byte>)
    ensures CalmRest(Emit(pieces, false) + rest) <==> CalmRest(if pieces == [] then rest else pieces[0].noise)
  {
    if pieces == [] {
      assert Emit(pieces, false) + rest == rest;
    }
  }

  lemma CalmNothing()
    ensures CalmPieces([])
  {
  }

  lemma CalmMore(pieces: seq<Piece>)
    requires pieces != []
    ensures CalmPieces(pieces) <==> CalmRest(pieces[0].noise) && CalmPieces(pieces[1..])
  {
    assert pieces == [pieces[0]] + pieces[1..];
  }

  lemma {:induction false} CollectIgnoresChunking(pieces: seq<Piece>, rest: seq<byte>, got: seq<byte>, length: nat)
    requires Continuations(pieces) && |got| + |Bodies(pieces)| == length
    ensures Collect(Emit(pieces, false) + rest, got, length) == Check(got + Bodies(pieces), rest)
    ensures CalmRest(Emit(pieces, false) + rest) && CalmCollect(Emit(pieces, false) + rest, |got|, length) <==>
            CalmPieces(pieces) && CalmRest(rest)
    decreases pieces
  {
    hide ScanChunk, Check, Line, CalmRest, CalmPieces;
    CalmEmit(pieces, rest);
    if pieces == [] {
      assert Emit(pieces, false) + rest == rest && got + Bodies(pieces) == got;
      CalmNothing();
    } else {
      EmptyBodies(pieces);
      var p, more := pieces[0], pieces[1..];
      assert Continuations(more);
      var s := Emit(more, false) + rest;
      assert Emit(pieces, false) + rest == p.noise + Line(p.body, false) + s;
      ScanChunkFindsLine(p.noise, p.body, false, s);
      CollectIgnoresChunking(more, rest, got + p.body, length);
      assert got + p.body + Bodies(more) == got + Bodies(pieces);
      CalmMore(pieces);
    }
  }

  // A way to send some frame: the first line carries the length, the others are arbitrary.
  ghost predicate Split(pieces: seq<Piece>, frame: seq<byte>) {
    && |frame| < 0x1_0000
    && pieces != []
    && 2 <= |pieces[0].body| <= BODY_MAX && Noise(pieces[0].noise, true)
    && Continuations(pieces[1..])
    && Bodies(pieces) == Prefixed(frame)
  }

  // The receiver does not depend on how the sender cut the frame into lines.
  lemma ReceiveIgnoresChunking(pieces: seq<Piece>, frame: seq<byte>, rest: seq<byte>)
    requires Split(pieces, frame)
    ensures ScanFrame(Emit(pieces, true) + rest) == Check(frame, rest)
    ensures CalmFrame(Emit(pieces, true) + rest) <==> CalmPieces(pieces[1..]) && CalmRest(rest)
  {
    hide ScanChunk, Check, Line, CalmRest, CalmPieces;
    var p, more := pieces[0], pieces[1..];
    var s := Emit(more, false) + rest;
    assert Emit(pieces, true) + rest == p.noise + Line(p.body, true) + s;
    ScanChunkFindsLine(p.noise, p.body, true, s);
    assert p.body + Bodies(more) == Prefixed(frame);
    assert Prefixed(frame)[0] == p.body[0] && Prefixed(frame)[1] == p.body[1];
    assert p.body[2..] + Bodies(more) == Prefixed(frame)[2..] == frame;
    CollectIgnoresChunking(more, rest, p.body[2..], |frame|);
  }

  // Conversely, only such streams are received as frames.

  lemma {:induction false} HuntOrigin(s: seq<byte>, first: bool) returns (noise: seq<byte>)
    requires Hunt(s, first).Some?
    ensures s == noise + Marker(first) + Hunt(s, first).value && Noise(noise, first)
  {
    if s[..2] == Marker(first) {
      noise := [];
    } else {
      var tail := HuntOrigin(s[1..], first);
      noise := [s[0]] + tail;
      var rest := Hunt(s, first).value;
      assert s == [s[0]] + (tail + Marker(first) + rest);
      assert s[1] == (tail + Marker(first))[0];
      assert s[..2] == [s[0], s[1]] && Marker(first) == [Marker(first)[0], Marker(first)[1]];
      MoreNoise(s[0], tail, first);
    }
  }

  lemma MoreNoise(b: byte, tail: seq<byte>, first: bool)
    requires Noise(tail, first) && [b, (tail + Marker(first))[0]] != Marker(first)
    ensures Noise([b] + tail, first)
  {
    var noise := [b] + tail;
    forall i: nat
      ensures !MarkerAt(noise, i, first)
    {
      if i == 0 {
        assert Marker(first) == [Marker(first)[0], Marker(first)[1]];
      } else {
        assert !MarkerAt(tail, i - 1, first);
      }
    }
  }

  lemma {:induction false} ScanLineOrigin(s: seq<byte>, room: nat)
    requires ScanLine(s, room).Text?
    ensures s == ScanLine(s, room).text + [NEWLINE] + ScanLine(s, room).rest
  {
    if s[0] == NEWLINE {
      assert s == [] + [NEWLINE] + s[1..];
    } else {
      ScanLineOrigin(s[1..], room - 1);
    }
  }

  lemma ChunkOrigin(s: seq<byte>, first: bool) returns (p: Piece)
    requires ScanChunk(s, first).Chunk?
    ensures p.body == ScanChunk(s, first).body && |p.body| <= BODY_MAX && Noise(p.noise, first)
    ensures s == p.noise + Line(p.body, first) + ScanChunk(s, first).rest
  {
    hide Base64.Decode, Base64.Encode, Hunt, ScanLine, Noise;
    var line := Hunt(s, first).value;
    var noise := HuntOrigin(s, first);
    ScanLineOrigin(line, MTU);
    var text := ScanLine(line, MTU).text;
    Base64.EncodeDecode(text);
    p := Piece(noise, ScanChunk(s, first).body);
    assert s == noise + Marker(first) + (text + [NEWLINE] + ScanLine(line, MTU).rest);
  }

  lemma {:induction false} CollectOrigin(s: seq<byte>, got: seq<byte>, length: nat) returns (pieces: seq<Piece>)
    requires |got| <= length && Collect(s, got, length).Frame?
    ensures Continuations(pieces)
    ensures got + Bodies(pieces) == Seal(Collect(s, got, length).message)
    ensures |got| + |Bodies(pieces)| == length
    ensures s == Emit(pieces, false) + Collect(s, got, length).rest
    decreases |s|
  {
    hide ScanChunk, Line, Crc.Checksum;
    if |got| == length {
      pieces := [];
      assert got + [] == got[..length - 2] + got[length - 2..];
    } else {
      var p := ChunkOrigin(s, false);
      var rest := ScanChunk(s, false).rest;
      var more := CollectOrigin(rest, got + p.body, length);
      pieces := [p] + more;
      assert pieces[1..] == more;
      assert got + Bodies(pieces) == got + p.body + Bodies(more);
      if more == [] {
        assert Bodies(more) == [];
      }
    }
  }

  // The receiver accepts a message exactly from the streams that carry it, sealed, cut into lines.
  lemma ReceiveExactly(s: seq<byte>, message: seq<byte>, rest: seq<byte>)
    ensures ScanFrame(s) == Frame(message, rest) <==>
            exists pieces :: Split(pieces, Seal(message)) && s == Emit(pieces, true) + rest
  {
    if ScanFrame(s) == Frame(message, rest) {
      var pieces := FrameOrigin(s);
    }
    forall pieces | Split(pieces, Seal(message)) && s == Emit(pieces, true) + rest
      ensures ScanFrame(s) == Frame(message, rest)
    {
      ReceiveIgnoresChunking(pieces, Seal(message), rest);
      SealIsCodeword(message);
    }
  }

  lemma FrameOrigin(s: seq<byte>) returns (pieces: seq<Piece>)
    requires ScanFrame(s).Frame?
    ensures Split(pieces, Seal(ScanFrame(s).message)) && s == Emit(pieces, true) + ScanFrame(s).rest
  {
    hide ScanChunk, Collect, Line, Seal;
    var p := ChunkOrigin(s, true);
    var rest, length := ScanChunk(s, true).rest, FromU16Be(p.body[0], p.body[1]);
    var more := CollectOrigin(rest, p.body[2..], length);
    pieces := [p] + more;
    assert pieces[1..] == more;
    assert p.body == U16Be(length) + p.body[2..];
    assert Bodies(pieces) == U16Be(length) + (p.body[2..] + Bodies(more));
  }

  lemma SealIsCodeword(message: seq<byte>)
    ensures Crc.Codeword(Seal(message)) && Seal(message)[..|message|] == message
  {
  }

  // What the sender writes is one way to cut a frame into lines.

  function Cut(data: seq<byte>): (pieces: seq<Piece>)
    requires data != []
    ensures pieces != []
  {
    if |data| <= BODY_MAX then [Piece([], data)]
    else [Piece([], data[..BODY_MAX])] + Cut(data[BODY_MAX..])
  }

  function Texts(pieces: seq<Piece>): seq<byte> {
    if pieces == [] then [] else Base64.Encode(pieces[0].body) + Texts(pieces[1..])
  }

  lemma {:induction false} LinesAreCut(data: seq<byte>, first: bool)
    requires data != []
    ensures Lines(data, first) == Emit(Cut(data), first)
    ensures Bodies(Cut(data)) == data
  {
    hide Line;
    var p := Cut(data)[0];
    assert p.noise + Line(p.body, first) == Line(p.body, first);
    if |data| > BODY_MAX {
      LinesAreCut(data[BODY_MAX..], false);
      assert Cut(data)[1..] == Cut(data[BODY_MAX..]);
    } else {
      assert Cut(data)[1..] == [];
      assert Emit([], false) == [] && Bodies([]) == [];
    }
  }

  // All lines but the last carry 93 bytes.
  predicate Full(pieces: seq<Piece>) {
    pieces != [] && forall i :: 0 <= i < |pieces| ==> FullAt(pieces, i)
  }

  predicate FullAt(pieces: seq<Piece>, i: nat)
    requires i < |pieces|
  {
    && pieces[i].noise == [] && 0 < |pieces[i].body| <= BODY_MAX
    && (i < |pieces| - 1 ==> |pieces[i].body| == BODY_MAX)
  }

  lemma {:induction false} CutIsFull(data: seq<byte>)
    requires data != []
    ensures Full(Cut(data))
  {
    var pieces := Cut(data);
    if |data| > BODY_MAX {
      var more := Cut(data[BODY_MAX..]);
      CutIsFull(data[BODY_MAX..]);
      forall i | 0 <= i < |pieces|
        ensures FullAt(pieces, i)
      {
        assert i > 0 ==> pieces[i] == more[i - 1] && FullAt(more, i - 1);
      }
    }
  }

  lemma {:induction false} CutCount(data: seq<byte>)
    requires data != []
    ensures |Cut(data)| == (|data| + 92) / 93
  {
    assert BODY_MAX == 93;
    if |data| > 93 {
      CutCount(data[93..]);
    }
  }

  // Cutting at a multiple of three bytes does not change the text, so padding comes last only.
  lemma {:induction false} TextsOfCut(data: seq<byte>)
    requires data != []
    ensures Texts(Cut(data)) == Base64.Encode(data)
  {
    hide Base64.Encode;
    if |data| > BODY_MAX {
      var head, tail := data[..BODY_MAX], data[BODY_MAX..];
      TextsOfCut(tail);
      assert Cut(data)[1..] == Cut(tail);
      Base64.EncodeAppend(head, tail);
      assert head + tail == data;
    } else {
      assert Cut(data)[1..] == [] && Texts([]) == [];
    }
  }

  // No line outgrows the line buffer, so the encoder always has room.
  lemma LineFits(body: seq<byte>, first: bool)
    requires |body| <= BODY_MAX
    ensures |Line(body, first)| <= 127
  {
    Base64.EncodedLength(body);
  }

  // A line, byte by byte.
  lemma LineBytes(body: seq<byte>)
    ensures Line(body, true) == [0x06, 0x09] + Base64.Encode(body) + [0x0a]
    ensures Line(body, false) == [0x04, 0x14] + Base64.Encode(body) + [0x0a]
  {
  }

  // The length comes first, then the message, then the checksum: the first line of a frame.
  lemma FirstLine(message: seq<byte>)
    requires |message| + 2 <= 91
    ensures Wire(Seal(message))
         == [0x06, 0x09] + Base64.Encode([0, |message| + 2] + message + Crc.Checksum(message)) + [0x0a]
  {
    hide Base64.Encode, Crc.Checksum, Line, Lines, U16Be;
    var n: byte := |message| + 2;
    var data: seq<byte> := [0, n] + message + Crc.Checksum(message);
    var frame := Seal(message);
    SmallNumber(n);
    assert frame == message + Crc.Checksum(message) && |frame| == n;
    assert U16Be(|frame|) + frame == data;
    OneLine(data);
    LineBytes(data);
  }

  lemma SmallNumber(n: byte)
    ensures U16Be(n) == [0, n]
  {
  }

  lemma OneLine(data: seq<byte>)
    requires 0 < |data| <= 93
    ensures Lines(data, true) == Line(data, true)
  {
    hide Line;
  }

  // The frame of the empty message: 06 09 "AAIAAA==" 0a.
  lemma EmptyFrame()
    ensures Wire(Seal([]))
         == [0x06, 0x09, 'A' as int, 'A' as int, 'I' as int, 'A' as int, 'A' as int, 'A' as int, '=' as int, '=' as int, 0x0a]
  {
    hide Crc.Checksum, Base64.Encode, Base64.Symbol, Wire;
    FirstLine([]);
    Crc.ChecksumOfZeros(0);
    assert seq(0, i => 0) == [];
    assert [0, 0 + 2] + [] + Crc.Checksum([]) == [0, 2, 0] + [0];
    Base64.EncodeAppend([0, 2, 0], [0]);
    var i0, j0, k0, l0 := Base64.QuadIsANumber(0, 2, 0);
    var i1, _, _, l1 := Base64.PaddedQuadsAreNumbers(0, 0);
    assert i0 == 0 && j0 == 0 && k0 == 8 && l0 == 0 && i1 == 0 && l1 == 0;
    assert Base64.TABLE[0] == 'A' && Base64.TABLE[8] == 'I';
  }

  // What is no line of a frame.

  lemma OverlongLineIsTooBig(noise: seq<byte>, first: bool, line: seq<byte>, rest: seq<byte>)
    requires Noise(noise, first) && |line| == 127 && 0x0a !in line
    ensures ScanChunk(noise + Marker(first) + (line + rest), first) == BadChunk(FrameTooBig, rest)
  {
    HuntSkipsNoise(noise, first, line + rest);
    ScanLineStops(line, rest, MTU);
  }

  lemma BadTextIsRejected(noise: seq<byte>, first: bool, text: seq<byte>, rest: seq<byte>)
    requires Noise(noise, first) && |text| < 127 && 0x0a !in text && Base64.Decode(text).None?
    ensures ScanChunk(noise + Marker(first) + (text + [0x0a] + rest), first) == BadChunk(Base64DecodeError, rest)
  {
    HuntSkipsNoise(noise, first, text + [0x0a] + rest);
    ScanLineEnds(text, rest, MTU);
  }

  // A first line without a length, or with more data than it announces.
  lemma BadFirstLineIsRejected(noise: seq<byte>, body: seq<byte>, rest: seq<byte>)
    requires Noise(noise, true) && |body| <= 93
    requires |body| >= 2 ==> |body| - 2 > Two(body[0], body[1])
    ensures ScanFrame(noise + Line(body, true) + rest) == BadFrame(UnexpectedResponse, rest)
  {
    hide ScanChunk, Line, Noise;
    ScanChunkFindsLine(noise, body, true, rest);
  }

  lemma {:induction false} CutContinues(data: seq<byte>)
    requires data != []
    ensures Continuations(Cut(data)) && CalmPieces(Cut(data))
  {
    assert Noise([], false);
    if |data| > BODY_MAX {
      CutContinues(data[BODY_MAX..]);
    }
  }

  // The receiver takes back what the sender wrote, whatever precedes and follows it.
  lemma ReceiveInvertsSend(noise: seq<byte>, frame: seq<byte>, rest: seq<byte>)
    requires |frame| < 0x1_0000 && Noise(noise, true)
    ensures ScanFrame(noise + Wire(frame) + rest) == Check(frame, rest)
    ensures CalmFrame(noise + Wire(frame) + rest) <==> CalmRest(rest)
  {
    hide ScanFrame, Check, CalmFrame, Line;
    var data := Prefixed(frame);
    var cut := Cut(data);
    var pieces := [Piece(noise, cut[0].body)] + cut[1..];
    LinesAreCut(data, true);
    CutContinues(data);
    assert Emit(pieces, true) == noise + Wire(frame) by {
      assert pieces[1..] == cut[1..];
      assert Emit(cut, true) == [] + Line(cut[0].body, true) + Emit(cut[1..], false);
      assert [] + Line(cut[0].body, true) == Line(cut[0].body, true);
      assert noise + Line(cut[0].body, true) + Emit(cut[1..], false)
             == noise + (Line(cut[0].body, true) + Emit(cut[1..], false));
    }
    assert Bodies(pieces) == data;
    assert Split(pieces, frame);
    ReceiveIgnoresChunking(pieces, frame, rest);
  }

  // Framing round trip.
  lemma RoundTrip(noise: seq<byte>, message: seq<byte>, rest: seq<byte>)
    requires |message| + 2 < 0x1_0000 && Noise(noise, true)
    ensures ScanFrame(noise + Wire(Seal(message)) + rest) == Frame(message, rest)
    ensures CalmFrame(noise + Wire(Seal(message)) + rest) <==> CalmRest(rest)
  {
    hide ScanFrame, CalmFrame, Crc.Codeword, Wire;
    ReceiveInvertsSend(noise, Seal(message), rest);
    SealIsCodeword(message);
  }

  // A good frame that is followed by a newline is not calm: buffered as a whole, it is lost.
  lemma NewlineBehindAFrame(message: seq<byte>)
    requires |message| + 2 < 0x1_0000
    ensures ScanFrame(Wire(Seal(message)) + [NEWLINE]) == Frame(message, [NEWLINE])
    ensures !CalmFrame(Wire(Seal(message)) + [NEWLINE])
  {
    hide ScanFrame, CalmFrame, Crc.Checksum, Wire;
    RoundTrip([], message, [NEWLINE]);
    assert [] + Wire(Seal(message)) + [NEWLINE] == Wire(Seal(message)) + [NEWLINE];
  }

  // A burst of up to sixteen bits in the frame is always noticed, and costs that frame only.
  lemma BurstRejected(noise: seq<byte>, message: seq<byte>, frame: seq<byte>, p: nat, rest: seq<byte>)
    requires |message| + 2 < 0x1_0000 && Noise(noise, true)
    requires Crc.BurstAt(Seal(message), frame, p) && frame != Seal(message)
    ensures ScanFrame(noise + Wire(frame) + rest) == BadFrame(UnexpectedResponse, rest)
  {
    hide ScanFrame, Crc.Codeword, Wire, Crc.BurstAt;
    assert |frame| == |message| + 2 by { BurstLength(Seal(message), frame, p); }
    SealIsCodeword(message);
    Crc.BurstDetected(Seal(message), frame, p);
    ReceiveInvertsSend(noise, frame, rest);
  }

  lemma BurstLength(f: seq<byte>, g: seq<byte>, p: nat)
    requires Crc.BurstAt(f, g, p)
    ensures |f| == |g|
  {
  }

  // Two adjacent bytes of header, payload or checksum may be anything.
  lemma AdjacentBytesRejected(noise: seq<byte>, message: seq<byte>, frame: seq<byte>, i: nat, rest: seq<byte>)
    requires |message| + 2 < 0x1_0000 && Noise(noise, true)
    requires |frame| == |message| + 2 && frame != Seal(message) && i + 2 <= |frame|
    requires frame[..i] == Seal(message)[..i] && frame[i + 2..] == Seal(message)[i + 2..]
    ensures ScanFrame(noise + Wire(frame) + rest) == BadFrame(UnexpectedResponse, rest)
  {
    Crc.AdjacentBytesAreABurst(Seal(message), frame, i);
    BurstRejected(noise, message, frame, 8 * i, rest);
  }

  // The length prefix is not covered by the checksum. What becomes of a frame whose announced length differs.

  // The lines of some bytes, as far as the announced length reaches.
  lemma {:induction false} CollectLines(data: seq<byte>, rest: seq<byte>, got: seq<byte>, length: nat)
    requires |got| <= length
    ensures length >= |got + data| ==> Collect(Lines(data, false) + rest, got, length) == Collect(rest, got + data, length)
    ensures length < |got + data| ==>
            && var n := length - |got|;
            && var f := Collect(Lines(data, false) + rest, got, length);
               if n % 93 == 0 then f == Check(got + data[..n], Lines(data[n..], false) + rest)
               else f.BadFrame? && f.error == UnexpectedResponse
    decreases data
  {
    hide ScanChunk, Check, Line;
    if data == [] {
      assert Lines(data, false) + rest == rest && got + data == got;
    } else if |got| == length {
      assert got + data[..0] == got && data[0..] == data;
    } else {
      assert BODY_MAX == 93;
      var n := if |data| <= 93 then |data| else 93;
      var body, more := data[..n], data[n..];
      var s := Lines(more, false) + rest;
      LinesStep(data, n, false);
      assert Lines(data, false) + rest == [] + Line(body, false) + s;
      ScanChunkFindsLine([], body, false, s);
      if |got| + n <= length {
        CollectLines(more, rest, got + body, length);
        assert got + body + more == got + data;
        if length < |got + data| {
          Remainder(length - |got|);
          var m := length - |got + body|;
          assert got + body + more[..m] == got + data[..n + m] && more[m..] == data[n + m..];
        }
      }
    }
  }

  lemma Remainder(n: nat)
    requires n >= 93
    ensures n % 93 == (n - 93) % 93
  {
  }

  // The same for the first line, so for the whole frame.
  lemma ChangedLength(noise: seq<byte>, frame: seq<byte>, length: nat, rest: seq<byte>)
    requires Noise(noise, true) && length < 0x1_0000
    ensures var f := ScanFrame(noise + Lines(U16Be(length) + frame, true) + rest);
            if length >= |frame| then f == Collect(rest, frame, length)
            else if (length + 2) % 93 == 0 then f == Check(frame[..length], Lines(frame[length..], false) + rest)
            else f.BadFrame? && f.error == UnexpectedResponse
  {
    hide ScanChunk, Check, Line, Lines, Collect, Noise;
    assert BODY_MAX == 93;
    var data := U16Be(length) + frame;
    var n := if |data| <= 93 then |data| else 93;
    var body, more := data[..n], data[n..];
    var s := Lines(more, false) + rest;
    LinesStep(data, n, true);
    assert noise + Lines(data, true) + rest == noise + Line(body, true) + s;
    ScanChunkFindsLine(noise, body, true, s);
    assert FromU16Be(body[0], body[1]) == length;
    if n - 2 <= length {
      var got := body[2..];
      CollectLines(more, rest, got, length);
      assert got + more == frame;
      if length < |frame| {
        Remainder(length + 2);
        var m := length - |got|;
        assert got + more[..m] == frame[..length] && more[m..] == frame[length..];
      }
    }
  }

  // Lowered, a length is accepted exactly if it ends at the end of a line that is not the last one, and the
  // bytes up to there happen to be a valid frame. The other lines then stay unread.
  lemma LoweredLength(noise: seq<byte>, frame: seq<byte>, length: nat, rest: seq<byte>)
    requires Noise(noise, true) && |frame| < 0x1_0000 && length < |frame|
    ensures var f := ScanFrame(noise + Lines(U16Be(length) + frame, true) + rest);
            && (f.Frame? <==> (length + 2) % 93 == 0 && Crc.Codeword(frame[..length]))
            && (f.Frame? ==> f == Frame(frame[..length - 2], Lines(frame[length..], false) + rest))
            && (!f.Frame? ==> f.BadFrame? && f.error == UnexpectedResponse)
  {
    hide ScanFrame, Crc.Checksum, Lines, Noise;
    ChangedLength(noise, frame, length, rest);
    assert length >= 2 ==> frame[..length][..length - 2] == frame[..length - 2];
  }

  // Raised, it is accepted exactly if continuation lines follow that complete a valid frame of that length.
  lemma RaisedLength(noise: seq<byte>, frame: seq<byte>, length: nat, following: seq<byte>, message: seq<byte>,
                     rest: seq<byte>)
    requires Noise(noise, true) && |frame| < length < 0x1_0000
    ensures ScanFrame(noise + Lines(U16Be(length) + frame, true) + following) == Frame(message, rest) <==>
            |Seal(message)| == length && exists pieces :: Completes(pieces, frame, message, following, rest)
  {
    hide ScanFrame, Collect, Lines, Noise, Seal, Completes;
    ChangedLength(noise, frame, length, following);
    CollectExactly(following, frame, length, message, rest);
  }

  ghost predicate Completes(pieces: seq<Piece>, got: seq<byte>, message: seq<byte>, s: seq<byte>, rest: seq<byte>) {
    Continuations(pieces) && got + Bodies(pieces) == Seal(message) && s == Emit(pieces, false) + rest
  }

  lemma CollectExactly(s: seq<byte>, got: seq<byte>, length: nat, message: seq<byte>, rest: seq<byte>)
    requires |got| <= length
    ensures Collect(s, got, length) == Frame(message, rest) <==>
            |Seal(message)| == length && exists pieces :: Completes(pieces, got, message, s, rest)
  {
    hide Collect, Crc.Checksum;
    if Collect(s, got, length) == Frame(message, rest) {
      var pieces := CollectOrigin(s, got, length);
      assert Completes(pieces, got, message, s, rest);
    }
    forall pieces | |Seal(message)| == length && Completes(pieces, got, message, s, rest)
      ensures Collect(s, got, length) == Frame(message, rest)
    {
      CollectIgnoresChunking(pieces, rest, got, length);
      SealIsCodeword(message);
    }
  }

  // An example: lowered to 91, the length of any longer frame of zeros is accepted.

  function Zeros(n: nat): (s: seq<byte>)
    ensures |s| == n
  {
    seq(n, i => 0)
  }

  lemma LengthPrefixNotCovered(n: nat)
    requires 91 < n < 0x1_0000
    ensures Seal(Zeros(n - 2)) == Zeros(n)
    ensures ScanFrame(Lines(U16Be(91) + Zeros(n), true)) == Frame(Zeros(89), Lines(Zeros(n - 91), false))
  {
    hide Crc.Checksum, Lines, Noise, ScanFrame;
    assert Noise([], true) by { NoNoise(); }
    Crc.ChecksumOfZeros(n - 2);
    Crc.ChecksumOfZeros(89);
    LoweredLength([], Zeros(n), 91, []);
    var wire := Lines(U16Be(91) + Zeros(n), true);
    assert [] + wire + [] == wire;
    assert Zeros(n)[..91] == Zeros(91) && Zeros(91)[..89] == Zeros(89) && Zeros(n)[91..] == Zeros(n - 91);
    assert Zeros(91)[89..] == [0, 0];
    assert Lines(Zeros(n - 91), false) + [] == Lines(Zeros(n - 91), false);
  }

  lemma NoNoise()
    ensures Noise([], true)
  {
  }

  // A stream of frames, each behind some noise, is received frame by frame, in order.

  datatype Sent = Sent(noise: seq<byte>, message: seq<byte>)

  ghost predicate Sendable(sent: seq<Sent>) {
    forall i :: 0 <= i < |sent| ==> |sent[i].message| + 2 < 0x1_0000 && Noise(sent[i].noise, true)
  }

  function Transmit(sent: seq<Sent>): seq<byte>
    requires forall i :: 0 <= i < |sent| ==> |sent[i].message| + 2 < 0x1_0000
  {
    if sent == [] then [] else sent[0].noise + Wire(Seal(sent[0].message)) + Transmit(sent[1..])
  }

  lemma {:induction false} TransmitAppend(a: seq<Sent>, b: seq<Sent>)
    requires Sendable(a) && Sendable(b)
    ensures Sendable(a + b) && Transmit(a + b) == Transmit(a) + Transmit(b)
  {
    hide Wire, Crc.Checksum;
    if a == [] {
      assert a + b == b;
    } else {
      TransmitAppend(a[1..], b);
      assert (a + b)[1..] == a[1..] + b;
      assert Transmit(a + b) == a[0].noise + Wire(Seal(a[0].message)) + Transmit(a[1..] + b);
    }
  }

  predicate CalmSent(sent: seq<Sent>) {
    forall i :: 0 <= i < |sent| ==> CalmRest(sent[i].noise)
  }

  lemma CalmTransmit(sent: seq<Sent>, rest: seq<byte>)
    requires Sendable(sent) && CalmSent(sent) && CalmRest(rest)
    ensures CalmRest(Transmit(sent) + rest)
  {
    hide Crc.Checksum;
    if sent != [] {
      WireStartsWithMarker(Seal(sent[0].message));
      assert CalmRest(sent[0].noise);
    }
  }

  lemma WireStartsWithMarker(frame: seq<byte>)
    requires |frame| < 0x1_0000
    ensures Marker(true) <= Wire(frame)
  {
  }

  function Messages(sent: seq<Sent>): (messages: seq<seq<byte>>)
    ensures |messages| == |sent|
  {
    seq(|sent|, i requires 0 <= i < |sent| => sent[i].message)
  }

  // The messages of the next n frames, if all of them are received, and what follows.
  function ReceiveFrames(s: seq<byte>, n: nat): Option<(seq<seq<byte>>, seq<byte>)>
    decreases n
  {
    hide *;
    if n == 0 then Some(([], s))
    else
      match ScanFrame(s)
      case Frame(message, rest) =>
        (match ReceiveFrames(rest, n - 1)
         case Some((more, end)) => Some(([message] + more, end))
         case None => None)
      case _ => None
  }

  lemma {:induction false} FramesInOrder(sent: seq<Sent>, rest: seq<byte>)
    requires Sendable(sent)
    ensures ReceiveFrames(Transmit(sent) + rest, |sent|) == Some((Messages(sent), rest))
  {
    hide ScanFrame, Crc.Checksum, Wire;
    if sent == [] {
      assert Transmit(sent) + rest == rest;
    } else {
      var s := Transmit(sent[1..]) + rest;
      RoundTrip(sent[0].noise, sent[0].message, s);
      assert Transmit(sent) + rest == sent[0].noise + Wire(Seal(sent[0].message)) + s;
      FramesInOrder(sent[1..], rest);
      assert Messages(sent) == [sent[0].message] + Messages(sent[1..]);
    }
  }
}
