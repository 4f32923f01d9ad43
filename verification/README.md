# SMP client: framing, protocol, transfers and firmware update

A model of the MCUmgr client library `mcumgr-toolkit`, from the bytes on a serial line up to the procedure
that updates the firmware of a device, and proofs of what these layers guarantee together.

| file | what it is about |
|---|---|
| `Bytes.dfy`, `Wrappers.dfy` | bounded integers, byte orders spelled out, options and results |
| `Base64.dfy`, `Crc.dfy` | base64 (section 4 of RFC 4648) and CRC-16/XMODEM, concretely |
| `Framing.dfy` | the serial framing as functions: what is written, and what is made of any stream of bytes |
| `FramingTheorems.dfy` | round trip, independence of chunking, exact characterisation, error detection, order |
| `SerialTransport.dfy` | the transport: buffers overwritten in place, a port that fragments its reads at will |
| `Smp.dfy` | the message header, and which reply a request gets from a stream |
| `Connection.dfy` | sequence numbers, retries, precedence of errors |
| `TransportTheorems.dfy` | sending and receiving end to end, over both sides' buffers, and the upload requests on the wire |
| `RetryTheorems.dfy` | whose replies the attempts of a command get, also after faults in the middle of a frame |
| `SequenceNumbers.dfy` | the protocol as a system of steps with lost, late and repeated replies |
| `Cbor.dfy`, `Commands.dfy` | the two upload requests as bytes (section 3 of RFC 8949), and the chunk sizes |
| `Client.dfy` | commands, responses, errors, the progress callback |
| `ImageTransfer.dfy`, `FileTransfer.dfy` | the three transfer loops, for any device and for an honest one |
| `Mcuboot.dfy` | the MCUboot image parser, and its inverse |
| `FirmwareUpdate.dfy` | the update procedure and the safety of its command traces |

How the layers fit: the classes in `SerialTransport` and `Connection` change their buffers as the source does
and are proved against the functions in `Framing` and `Smp`, which say what a whole stream of bytes amounts
to. The theorems are about these functions, and so hold for the classes under every fragmentation of reads.
The transfer loops and the update procedure are methods on a `Session`, which records every command with its
outcome and every call of the callback; their contracts describe these records, and the lemmas beside them say
what that means for a device.

What goes over the wire is also stated in literal bytes, apart from the definitions it follows from: the base64
table, the bits of a byte, the lines, the header, requests and replies, CBOR heads and keys, and the magic
numbers and fields of an image.

Three findings about the code:

- serial.rs:168-170 looks at the next byte even when a line has ended. If that byte is already buffered and is
  a newline, the whole line buffer is decoded, which always fails (`Framing.FullBufferIsNoText`). A stream is
  *calm* if no line that is read for a frame has a newline behind it. The receiver agrees with the stream
  specification for every fragmentation of a calm stream, and fails on every other stream that is buffered in
  time; both are clauses of `RecvRawFrame`. Whatever noise precedes a sent frame, the stream is calm if and only
  if what follows the frame does not start with a newline (`FramingTheorems.RoundTrip`). An input that fails is
  any good frame with a newline behind it (`FramingTheorems.NewlineBehindAFrame`,
  `TransportTheorems.BufferedNewlineLosesFrame`).
- The length prefix of a frame is not covered by the checksum. A lowered length is accepted if and only if it
  ends where a line other than the last ends and the bytes up to there are a valid frame
  (`FramingTheorems.LoweredLength`), as in frames of zeros (`LengthPrefixNotCovered`); a raised one if and
  only if continuation lines follow that complete a valid frame of that length (`RaisedLength`). Because the
  header repeats the length, neither ever yields a reply (`Smp.WrongLengthIsNoReply`).
- The chunk size is neither the largest possible one nor monotone in the frame size; the exact conditions are
  `Commands.CapacityIsOptimal` and `Commands.CapacityIsNotMonotone`.

A device that appends data only where it left off is modelled in `ImageTransfer` (`Device`, `Handle`); it may
resume or restart a session at offset 0. `Compatible` says that data of an earlier session with the same
SHA-256 hash are from the same image; this is the only place where the hash must not collide.

`hide` in proofs only keeps definitions from the solver that the proof does not need.

## Model

| member | source | states |
|---|---|---|
| `Base64.DecodeEncode` | mcumgr-toolkit/src/transport/serial.rs:78-80 | Decoding the base64 text of any bytes gives back these bytes. |
| `Base64.EncodeDecode` | mcumgr-toolkit/src/transport/serial.rs:172-173 | Only the canonical text of some bytes decodes: encoding what was decoded gives back the text, so no two texts mean the same bytes. |
| `Base64.EncodeAppend` | mcumgr-toolkit/src/transport/serial.rs:55-80 | Cutting bytes behind a multiple of three cuts their text, which is why 93-byte bodies can be encoded line by line. |
| `Base64.DecodedLength` | mcumgr-toolkit/src/transport/serial.rs:172-173 | Whatever decodes has a length divisible by four and yields at most three bytes for every four symbols. |
| `Base64.SymbolIsInTable` | mcumgr-toolkit/src/transport/serial.rs:78-80 | The symbol of every six-bit value is the one the standard table has in its place. |
| `Base64.QuadIsANumber` | mcumgr-toolkit/src/transport/serial.rs:78-80 | The four symbols of three bytes are the digits, in that table, of the number the bytes make, most significant first. |
| `Base64.PaddedQuadsAreNumbers` | mcumgr-toolkit/src/transport/serial.rs:78-80 | The same for two bytes and for one, with zero bits below and one or two equals signs behind. |
| `Crc.ChecksumInParts` | mcumgr-toolkit/src/transport/serial.rs:199-204 | Feeding header and payload to the digest one after the other gives the checksum of their concatenation. |
| `Crc.ChecksumOfOne` | mcumgr-toolkit/src/transport/serial.rs:253-263 | The checksum of a single set bit is the polynomial 0x1021; with linearity this pins the checksum down as CRC-16/XMODEM. |
| `Crc.BitsOfByte` | mcumgr-toolkit/src/transport/serial.rs:253-263 | The bits of each byte enter the register most significant first, listed one by one. |
| `Crc.ShiftNLinear` | mcumgr-toolkit/src/transport/serial.rs:253-263 | Any number of shifts of the register distributes over exclusive or. |
| `Crc.UpdateWord` | mcumgr-toolkit/src/transport/serial.rs:253-263 | Feeding up to sixteen bits equals adding them to the top of the register and shifting it as often. |
| `Crc.UpdateInjective` | mcumgr-toolkit/src/transport/serial.rs:253-263 | Two registers that agree after the same bits agreed before them. |
| `Crc.CodewordRegister` | mcumgr-toolkit/src/transport/serial.rs:253-263 | A frame carries the right checksum exactly if feeding all of it, checksum included, leaves the register at zero. |
| `Crc.BurstDetected` | mcumgr-toolkit/src/transport/serial.rs:253-263 | Among frames of any length that agree outside of sixteen consecutive bits, at most one has a valid checksum. |
| `Crc.AdjacentBytesAreABurst` | mcumgr-toolkit/src/transport/serial.rs:253-263 | Frames that agree outside of two adjacent bytes differ in such a burst at most. |
| `Framing.FullBufferIsNoText` | mcumgr-toolkit/src/transport/serial.rs:168-173 | The whole 127-byte line buffer never decodes, so looking at a newline that is buffered behind a line always ends in a base64 error. |
| `Framing.ScanLineEnds` | mcumgr-toolkit/src/transport/serial.rs:140-166 | Of the bytes behind a marker the receiver takes those up to the first newline, if the line buffer has room for more than them. |
| `Framing.ScanLineStops` | mcumgr-toolkit/src/transport/serial.rs:140-166 | Without a newline the line is unfinished while there is room, and too big as soon as the buffer is full. |
| `FramingTheorems.HuntSkipsNoise` | mcumgr-toolkit/src/transport/serial.rs:114-138 | The hunt ends behind the first marker, whatever marker-free bytes precede it, even if they end in the first half of a marker. |
| `FramingTheorems.ScanChunkFindsLine` | mcumgr-toolkit/src/transport/serial.rs:113-185 | A line with at most 93 bytes is received with exactly its body, behind any marker-free noise. |
| `FramingTheorems.CollectIgnoresChunking` | mcumgr-toolkit/src/transport/serial.rs:236-251 | Continuation lines of 0 to 93 bytes, the last one not empty, each behind its own noise, add up to the announced frame however they are cut; the stream is calm if and only if neither noise between them nor what follows starts with a newline. |
| `FramingTheorems.ReceiveIgnoresChunking` | mcumgr-toolkit/src/transport/serial.rs:218-268 | A frame is received the same for every split of length, message and checksum into a first line of 2 to 93 bytes and continuation lines of 0 to 93 bytes, of which the last is not empty (an empty line behind it belongs to what follows); with the exact condition for the stream to be calm. |
| `FramingTheorems.ReceiveExactly` | mcumgr-toolkit/src/transport/serial.rs:218-268 | A message is received from a stream if and only if the stream starts with such a split of the message and its checksum; what follows stays unread. |
| `FramingTheorems.OverlongLineIsTooBig` | mcumgr-toolkit/src/transport/serial.rs:140-184 | 127 bytes without a newline behind a marker are reported as too big. |
| `FramingTheorems.BadTextIsRejected` | mcumgr-toolkit/src/transport/serial.rs:172-173 | A line that is no base64 text is reported as such. |
| `FramingTheorems.BadFirstLineIsRejected` | mcumgr-toolkit/src/transport/serial.rs:224-238 | A first line that is too short for a length, or has more data than it announces, is an unexpected response. |
| `FramingTheorems.CutIsFull` | mcumgr-toolkit/src/transport/serial.rs:67-101 | All lines the sender writes but the last carry exactly 93 bytes, and none is empty. |
| `FramingTheorems.CutCount` | mcumgr-toolkit/src/transport/serial.rs:67-101 | n bytes go out in n / 93 lines, rounded up. |
| `FramingTheorems.TextsOfCut` | mcumgr-toolkit/src/transport/serial.rs:67-101 | The concatenated texts of the lines are the base64 text of the whole stream, so padding appears at its end only. |
| `FramingTheorems.LineFits` | mcumgr-toolkit/src/transport/serial.rs:50-85 | Marker, text and newline of a body of at most 93 bytes fit into the 127-byte buffer, so the encoder never lacks room. |
| `FramingTheorems.LineBytes` | mcumgr-toolkit/src/transport/serial.rs:68-99 | A first line is 06 09, the text and 0a; a continuation line is 04 14, the text and 0a. |
| `FramingTheorems.FirstLine` | mcumgr-toolkit/src/transport/serial.rs:199-215 | A message of up to 89 bytes goes out as one line with the text of its length plus 2 in two bytes, the message and the checksum. |
| `FramingTheorems.EmptyFrame` | mcumgr-toolkit/src/transport/serial.rs:192-216 | The frame of the empty message in literal bytes: 06 09, the text AAIAAA==, 0a. |
| `FramingTheorems.LinesAreCut` | mcumgr-toolkit/src/transport/serial.rs:67-101 | What the send loop writes is one of the splits the receiver does not depend on, and loses no byte. |
| `FramingTheorems.ReceiveInvertsSend` | mcumgr-toolkit/src/transport/serial.rs:67-268 | For every frame of at most 65535 bytes, valid or not, every noise before and every stream behind it: the receiver sees exactly that frame and leaves that stream; the whole is calm if and only if the stream behind does not start with a newline. |
| `FramingTheorems.RoundTrip` | mcumgr-toolkit/src/transport/serial.rs:67-268 | Framing round trip: every message of at most 65533 bytes is received as it was sent, behind any marker-free noise, and nothing behind it is consumed; calm if and only if no newline follows. |
| `FramingTheorems.NewlineBehindAFrame` | mcumgr-toolkit/src/transport/serial.rs:168-170 | A good frame with a newline behind it is a stream that carries the message but is not calm, for every message. |
| `FramingTheorems.BurstRejected` | mcumgr-toolkit/src/transport/serial.rs:253-263 | Changing up to sixteen consecutive bits of message and checksum makes the receiver reject the frame, and costs no byte behind it. |
| `FramingTheorems.AdjacentBytesRejected` | mcumgr-toolkit/src/transport/serial.rs:253-263 | The same for any change of header, payload or checksum within two adjacent bytes. |
| `FramingTheorems.ChangedLength` | mcumgr-toolkit/src/transport/serial.rs:218-268 | What becomes of a frame with any other announced length, in all cases: cut at a line end and checked, rejected within a line, or continued with what follows. |
| `FramingTheorems.LoweredLength` | mcumgr-toolkit/src/transport/serial.rs:224-262 | For every frame and every smaller length: the frame is accepted if and only if the length plus 2 is a multiple of 93 and the bytes up to it are a valid frame; then they are the message, and the other lines stay unread. |
| `FramingTheorems.RaisedLength` | mcumgr-toolkit/src/transport/serial.rs:224-262 | For every frame and every larger length: a message is received if and only if continuation lines follow that complete the frame to that message with its checksum, at that length. |
| `FramingTheorems.LengthPrefixNotCovered` | mcumgr-toolkit/src/transport/serial.rs:199-215 | The length prefix is not protected: for every frame of more than 91 zero bytes, lowering its announced length to 91 makes the receiver accept a shorter message. |
| `FramingTheorems.FramesInOrder` | mcumgr-toolkit/src/transport/serial.rs:218-268 | Any number of frames, each behind its own noise, is received one by one in order, and what follows them stays unread. |
| `SerialTransport.SerialPort.Read` | mcumgr-toolkit/src/transport/serial.rs:118-130 | A read returns any non-empty part of what is still to come that fits, nothing exactly at the end of the stream, or a fault. |
| `SerialTransport.SerialPort.WriteAll` | mcumgr-toolkit/src/transport/serial.rs:84-85 | A write appends all of the bytes or fails behind any part of them. |
| `SerialTransport.SerialTransport.FillBody` | mcumgr-toolkit/src/transport/serial.rs:22-35 | Moves as many bytes as fit from the iterator into the body buffer, in order, and leaves the rest. |
| `SerialTransport.SerialTransport.PackLine` | mcumgr-toolkit/src/transport/serial.rs:72-85 | Turns the body into marker, text and newline within the transfer buffer; the encoder has room for every body. |
| `SerialTransport.SerialTransport.SendChunked` | mcumgr-toolkit/src/transport/serial.rs:67-101 | Writes exactly the lines of the data, or a proper prefix of them if a write fails. |
| `SerialTransport.SerialTransport.FindMarker` | mcumgr-toolkit/src/transport/serial.rs:114-138 | However the reads fragment the stream, consumes exactly the bytes up to and including the first marker. |
| `SerialTransport.SerialTransport.StoreLine` | mcumgr-toolkit/src/transport/serial.rs:140-166 | Stores the bytes up to the newline, or as many as the buffer holds, and consumes nothing else. |
| `SerialTransport.SerialTransport.RecvChunk` | mcumgr-toolkit/src/transport/serial.rs:113-185 | Receives the line the stream specifies, for every fragmentation of reads, except that a newline buffered behind it makes it a base64 error; if everything is buffered, that happens whenever a newline follows. |
| `SerialTransport.SerialTransport.SendRawFrame` | mcumgr-toolkit/src/transport/serial.rs:192-216 | Fails with DataTooBig exactly from 65534 bytes of header and payload on, before writing anything; otherwise writes the wire form of the message with its checksum. |
| `SerialTransport.SerialTransport.RecvRawFrame` | mcumgr-toolkit/src/transport/serial.rs:218-268 | Reassembles in place; terminates on every stream. On calm streams, and whenever no newline is seen, it agrees with the stream specification in message, error and bytes consumed, for every fragmentation; on every other buffered stream it ends in a base64 error. |
| `SerialTransport.SerialTransport.CollectFrame` | mcumgr-toolkit/src/transport/serial.rs:236-251 | The reassembly loop fills the buffer with exactly the announced bytes, rejects a line that would exceed them, and ends because the unread stream shrinks even when a line is empty; it fails on every buffered stream that is not calm. |
| `SerialTransport.SerialTransport.CheckFrame` | mcumgr-toolkit/src/transport/serial.rs:253-267 | Accepts exactly the frames whose last two bytes are the checksum of the others. |
| `SerialTransport.SerialTransport.SendFrame` | mcumgr-toolkit/src/transport/mod.rs:125-150 | Writes the header with version 1, the operation and the payload length, and the payload, as one frame, or fails with DataTooBig. |
| `SerialTransport.SerialTransport.ReceiveFrame` | mcumgr-toolkit/src/transport/mod.rs:166-207 | Skips frames with other sequence numbers and returns the payload of the first frame with the right one, or the error that frame specifies; terminates on every stream; fails on every buffered stream that is not calm up to the reply. |
| `TransportTheorems.SendThenReceive` | mcumgr-toolkit/src/transport/serial.rs:67-268 | End to end over both buffers: what one side sends arrives at the other byte for byte, for every fragmentation of the reads and every noise, and what follows stays unread. |
| `TransportTheorems.BufferedNewlineLosesFrame` | mcumgr-toolkit/src/transport/serial.rs:168-173 | A concrete failing case: a good frame that is buffered with a newline behind it is never received. |
| `TransportTheorems.ReceiveAll` | mcumgr-toolkit/src/transport/serial.rs:218-268 | Receiving as often as frames were sent returns exactly their messages in order, for every fragmentation and any noise between them that does not start with a newline, unless the port faults. |
| `TransportTheorems.TransceiveWithStaleReplies` | mcumgr-toolkit/src/connection.rs:71-93 | End to end: behind any number of replies to other requests, a command gets exactly the payload of its own reply, unless the port faults, and consumes nothing behind it. |
| `Smp.HeaderRoundTrip` | mcumgr-toolkit/src/transport/mod.rs:21-45 | A header survives encoding and decoding if and only if its version is below 4 and its operation below 8. |
| `Smp.HeaderBytesRoundTrip` | mcumgr-toolkit/src/transport/mod.rs:21-45 | Eight bytes survive decoding and encoding if and only if the three reserved bits are clear. |
| `Smp.HeaderLayout` | mcumgr-toolkit/src/transport/mod.rs:32-45 | What is sent, byte by byte: version and operation in the first, then flags, length and group in two bytes each with the most significant first, number and command. |
| `Smp.ReceivedLayout` | mcumgr-toolkit/src/transport/mod.rs:21-30 | What is read from which byte of a received header. |
| `Smp.RequestBytes` | mcumgr-toolkit/src/transport/mod.rs:125-150 | A request starts with 10 for a write and 8 for a read, has no flags, and carries length, group, number, command and data at their places. |
| `Smp.StaleRepliesAreSkipped` | mcumgr-toolkit/src/transport/mod.rs:174-193 | Any number of frames of any kind with other sequence numbers can be removed from the stream without changing what is received. |
| `Smp.MatchingReply` | mcumgr-toolkit/src/transport/mod.rs:181-206 | A frame with the right number, group, command, operation and length is the reply, and exactly its payload is returned. |
| `Smp.ReplyIsFound` | mcumgr-toolkit/src/transport/mod.rs:174-206 | The reply is found behind any number of stale frames, and nothing behind it is consumed. |
| `Smp.ReplyExactly` | mcumgr-toolkit/src/transport/mod.rs:174-206 | A payload is returned if and only if the stream starts with some frames that carry other numbers, followed by one whose bytes are: operation 3 for a write and 1 for a read, the length of the payload, the group, the number and the command of the request, and the payload. |
| `Smp.NoReplyIsRefused` | mcumgr-toolkit/src/transport/mod.rs:195-201 | The first message with the right number that is no reply in this sense ends in an unexpected response. |
| `Smp.WrongLengthIsNoReply` | mcumgr-toolkit/src/transport/mod.rs:187-201 | A reply whose length prefix was changed to any other value is never taken for a reply, because its header repeats the length. |
| `Connection.Transceiver.TransceiveCommand` | mcumgr-toolkit/src/connection.rs:71-93 | One exchange takes one sequence number, wrapping at 256, and returns what the stream specifies for that number; too much data is refused before anything is written. |
| `Connection.Transceiver.TransceiveCommandWithRetries` | mcumgr-toolkit/src/connection.rs:95-126 | At most one attempt more than the retries, up to 256; returns the first success or else the last error; each attempt has the next sequence number and goes on where the last one stopped reading; unless a write fails, what is written is one request per attempt. |
| `Connection.SequenceNumbersDiffer` | mcumgr-toolkit/src/connection.rs:78-125 | No two attempts of one call share a sequence number, not even with 255 retries. |
| `Connection.NotSupportedIsCode8` | mcumgr-toolkit/src/connection.rs:59-68 | Exactly a plain error with code 8, with whatever reason, means that a command is not supported. |
| `Connection.Connection.ExecuteCommand` | mcumgr-toolkit/src/connection.rs:187-243 | Encoding failures send nothing; transport errors come after all attempts; otherwise the response decides; retries are used only if asked for. |
| `Connection.Connection.DecodeResponse` | mcumgr-toolkit/src/connection.rs:219-243 | Success exactly if the error fields decode, no group error is present, the plain one is absent or zero, and the response decodes; a group error exactly if one is present, whatever else is; a plain one exactly if it is nonzero and no group error is present. |
| `SequenceNumbers.RunKeepsInvariant` | mcumgr-toolkit/src/connection.rs:78-92 | In every run, request i carries the start number plus i modulo 256, and replies carry the number of their request. |
| `SequenceNumbers.TakenRepliesAreCongruent` | mcumgr-toolkit/src/transport/mod.rs:174-206 | In every run with losses, delays, duplicates, time-outs and retries, a reply is only taken for its own request or one that is a multiple of 256 newer. |
| `SequenceNumbers.AcceptedReplyIsCurrent` | mcumgr-toolkit/src/transport/mod.rs:174-206 | In every run, a reply that matches is the reply to the current request if and only if it is less than 256 requests old. |
| `SequenceNumbers.NoReplyIsMistaken` | mcumgr-toolkit/src/transport/mod.rs:174-206 | If no reply stays in flight for 256 requests, no reply of a run is ever mistaken. |
| `SequenceNumbers.OldReplyIsMistaken` | mcumgr-toolkit/src/connection.rs:78-79 | The bound is sharp: for every start number there is a run in which a reply that is 256 requests old is taken for the current one. |
| `SequenceNumbers.CurrentReplyDecides` | mcumgr-toolkit/src/transport/mod.rs:174-206 | On the wire: if every frame answers one of the last 256 requests, the first frame that answers the current one decides, whatever surrounds it. |
| `RetryTheorems.RestOfTransmission` | mcumgr-toolkit/src/transport/serial.rs:114-138 | Wherever reading goes on after a fault, in the middle of a frame or of noise, what is left is a transmission of the last messages: the rest of a cut frame is noise. |
| `RetryTheorems.ReplyIsSent` | mcumgr-toolkit/src/transport/mod.rs:174-206 | A payload that is returned from a transmission is that of one of its messages. |
| `RetryTheorems.EveryReplyIsItsOwn` | mcumgr-toolkit/src/connection.rs:78-125 | Over all attempts of a command, with any faults between them: a payload that an attempt returns is that of a frame that answers a request congruent to it modulo 256, and of its own request exactly if that frame answers one less than 256 away. |
| `TransportTheorems.ExecuteImageUpload` | mcumgr-toolkit/src/commands/mod.rs:104-104 | On the wire: with a frame size of at most 65533, an image upload request within the chunk size is never refused for its size, is written once for every attempt as command 1 of group 1, and reads back by its literal keys as the request it was. |
| `TransportTheorems.ExecuteFileUpload` | mcumgr-toolkit/src/commands/mod.rs:111-111 | The same for a file upload request, as command 0 of group 8. |
| `Cbor.HeadRoundTrip` | mcumgr-toolkit/src/commands/image.rs:139-154 | Heads of every major type and argument up to 64 bits read back, whatever follows. |
| `Cbor.HeadBytes` | mcumgr-toolkit/src/commands/image.rs:139-154 | Heads in bytes: the major type in three bits, and the argument in five, or 24 to 27 and one, two, four or eight bytes, most significant first. |
| `Cbor.ValueBytes` | mcumgr-toolkit/src/commands/image.rs:139-154 | Major type 0 for integers, 2 for byte strings, 3 for text; f4 and f5 for false and true. |
| `Cbor.MapBytes` | mcumgr-toolkit/src/commands/image.rs:139-154 | Major type 5 and the number of fields, then each field as text key and value in order. |
| `Cbor.MapRoundTrip` | mcumgr-toolkit/src/commands/image.rs:86-119 | Encoded requests are self-delimiting maps whose fields read back in order. |
| `Commands.ImageUploadSize` | mcumgr-toolkit/src/commands/image.rs:86-119 | The encoding of an image upload request has exactly the size that its fields add up to. |
| `Commands.FileUploadSize` | mcumgr-toolkit/src/commands/fs.rs:91-111 | The same for a file upload request. |
| `Commands.ImageUploadReadsBack` | mcumgr-toolkit/src/commands/image.rs:86-119 | An encoded image upload read by literal keys: image, len, off, sha, data and upgrade have the values of the request, optional ones are present exactly if they are in the request, and there are no other keys. |
| `Commands.FileUploadReadsBack` | mcumgr-toolkit/src/commands/fs.rs:91-104 | The same for a file upload with off, data, name and len. |
| `Commands.UploadsAreInjective` | mcumgr-toolkit/src/commands/image.rs:86-119 | Different upload requests have different encodings. |
| `Commands.CapacityIsGood` | mcumgr-toolkit/src/commands/image.rs:152-184 | A chunk size exists exactly if two bytes remain besides the fixed part; it is positive, fits, wastes at most four bytes (two below 2^32), and nothing more than four bytes larger fits. |
| `Commands.CapacityIsOptimal` | mcumgr-toolkit/src/commands/image.rs:152-184 | The chunk size is the largest possible one exactly outside of four short ranges of frame sizes. |
| `Commands.CapacityIsNotMonotone` | mcumgr-toolkit/src/commands/image.rs:166-184 | One more byte of frame size shrinks the chunk at exactly two sizes, where the estimate steps over 65535 and over 4294967295. |
| `Commands.ImageChunkSize` | mcumgr-toolkit/src/commands/image.rs:136-184 | For every 64-bit frame size: an error exactly below 101; otherwise the worst-case message with that much data fits and leaves at most four bytes, and five bytes more would not fit. |
| `Commands.FileChunkSize` | mcumgr-toolkit/src/commands/fs.rs:40-89 | The same for every file name, with the name and its head counted. |
| `Commands.ImageRequestFits` | mcumgr-toolkit/src/commands/image.rs:136-184 | Every request with at most that much data fits into the frame, whichever fields it has and however small they are. |
| `Commands.FileRequestFits` | mcumgr-toolkit/src/commands/fs.rs:40-89 | The same for file uploads. |
| `Client.Session.Execute` | mcumgr-toolkit/src/connection.rs:170-185 | A command ends as the device and the link decide; a success is always a response of the kind the command asks for. |
| `ImageTransfer.Upload` | mcumgr-toolkit/src/client.rs:608-702 | For every device and callback: each request is for the offset the device last reported and carries as much data from there as allowed; at offset 0, and only there, the slot, the length, the SHA-256 hash and the upgrade flag the caller gave; the callback hears every offset; success means the device reported the full length last, and no result contradicts offsets, verdicts or answers. |
| `ImageTransfer.VerdictIsLast` | mcumgr-toolkit/src/client.rs:688-698 | The verdict on the checksum that decides is the last one a response gave, if any did. |
| `ImageTransfer.RequestsFit` | mcumgr-toolkit/src/client.rs:616-671 | Every request of an upload fits into the frame; with a frame size of at most 65533 none can fail to encode or be too big to send. |
| `ImageTransfer.HandleKeeps` | mcumgr-toolkit/src/commands/image.rs:86-128 | One arrival of a request leaves an honest device with a prefix of the image, and with more than before if the request was for where it left off. |
| `ImageTransfer.DeliverKeeps` | mcumgr-toolkit/src/connection.rs:95-126 | A command whose requests or replies are lost any number of times either never arrives or leaves a prefix longer than the offset it was for. |
| `ImageTransfer.OffsetsAgree` | mcumgr-toolkit/src/client.rs:631-693 | As long as commands succeed, the client has the offset of the device, which grows with every command. |
| `ImageTransfer.DeviceHoldsAPrefix` | mcumgr-toolkit/src/client.rs:631-693 | At any time during an upload the device is untouched or holds a prefix of the image, also when sessions are resumed. |
| `ImageTransfer.UploadDelivers` | mcumgr-toolkit/src/client.rs:631-701 | An upload of a non-empty image that succeeds has delivered exactly the image; it takes at most one command per byte and never complains about an offset. |
| `FileTransfer.Download` | mcumgr-toolkit/src/client.rs:766-827 | For every device: chunks are requested at contiguous offsets, the writer gets exactly the chunks received, success means their total is the length reported first, and when it succeeds the callback has heard every amount, last (length, length). |
| `FileTransfer.ChunksOfFile` | mcumgr-toolkit/src/client.rs:801-820 | Chunks from a device that serves one file add up to a prefix of it that grows with every command. |
| `FileTransfer.DownloadDelivers` | mcumgr-toolkit/src/client.rs:766-827 | From such a device a download delivers exactly the file, in at most one command per byte, and fails only through the callback or the writer. |
| `FileTransfer.Upload` | mcumgr-toolkit/src/client.rs:844-888 | Requests partition the file in order, as large as allowed, with the length in the first one only; the loop ends for every device because chunks are not empty; success means exactly the first bytes of the reader were sent, as many as announced; size 0 sends nothing. |
| `FileTransfer.RequestsFit` | mcumgr-toolkit/src/client.rs:853-876 | Every request of a file upload fits into the frame; with a frame size of at most 65533 none can fail to encode or be too big to send. |
| `FileTransfer.ChunkSizePositive` | mcumgr-toolkit/src/commands/fs.rs:79-88 | The chunk size is never 0. |
| `Mcuboot.GetImageInfo` | mcumgr-toolkit/src/mcuboot/image/mod.rs:86-163 | Reads, seeks and checks agree with the parse of the bytes as a whole, including which error comes first. |
| `Mcuboot.ReadEntries` | mcumgr-toolkit/src/mcuboot/image/mod.rs:133-153 | The loop agrees with a recursive walk over the entries; at its end the cursor is the start plus the bytes counted, which stay below 2^17, and it has visited exactly the entries of the walk, at most 16382. |
| `Mcuboot.VisitedBound` | mcumgr-toolkit/src/mcuboot/image/mod.rs:133-153 | Whatever the bytes are, the walk visits at most 16382 entries. |
| `Mcuboot.WalkStep` | mcumgr-toolkit/src/mcuboot/image/mod.rs:136-152 | One entry: type, a byte that is ignored, and the length, least significant byte first; type 0x10 with length 32 has a hash, others are skipped. |
| `Mcuboot.ParseErrors` | mcumgr-toolkit/src/mcuboot/image/mod.rs:91-162 | Exactly when the image type is unknown, the TLV area or the hash missing: by the literal bytes of the magic numbers and the place the header gives for the area. |
| `Mcuboot.ParsedImage` | mcumgr-toolkit/src/mcuboot/image/mod.rs:86-163 | An image that parses has both magic numbers, its version where the header has it, and its hash behind an entry header of type 0x10 and length 32. |
| `Mcuboot.WalkFindsLastHash` | mcumgr-toolkit/src/mcuboot/image/mod.rs:133-153 | Over serialised entries the walk visits each of them and finds the last one of type 0x10 and length 32. |
| `Mcuboot.ExactTotalAnnounces` | mcumgr-toolkit/src/mcuboot/image/mod.rs:130-137 | The exact size of the area is a total that covers all entries. |
| `Mcuboot.HeaderRoundTrip` | mcumgr-toolkit/src/mcuboot/image/mod.rs:92-118 | The header fields of a serialised image read back. |
| `Mcuboot.ParseInvertsBuild` | mcumgr-toolkit/src/mcuboot/image/mod.rs:86-163 | Parsing a serialised image gives its version and the last suitable hash, or reports its absence, also if the announced total ends within the last value. |
| `FirmwareUpdate.ActiveImage` | mcumgr-toolkit/src/client/firmware_update.rs:215-223 | The image taken for the running one is the first active image 0, or the first image 0 in slot 0 if no image 0 is active, or none only if there is neither. |
| `FirmwareUpdate.DetectBootloader` | mcumgr-toolkit/src/client.rs:530-552 | The bootloader is MCUboot exactly if the device says so and answers the mode query; every other outcome is an error with its cause. |
| `FirmwareUpdate.ChooseBootloader` | mcumgr-toolkit/src/client/firmware_update.rs:186-200 | Detection happens only if no bootloader was given, and the callback is asked before and after it. |
| `FirmwareUpdate.CompareState` | mcumgr-toolkit/src/client/firmware_update.rs:210-234 | Goes on only if the device shows its images and does not run the new one. |
| `FirmwareUpdate.UploadImage` | mcumgr-toolkit/src/client/firmware_update.rs:236-260 | Uploads exactly the firmware, passes the answers of the callback on, and tells cancellation from failure. |
| `FirmwareUpdate.Activate` | mcumgr-toolkit/src/client/firmware_update.rs:262-294 | Sets the parsed hash once; accepts an unsupported command only if a fresh query shows the hash in the first slot; resets last, unless told not to. |
| `FirmwareUpdate.Update` | mcumgr-toolkit/src/client/firmware_update.rs:163-297 | In every run: which commands each stage sends, in particular that upload requests are for the default slot and carry bytes of the firmware, its length, its hash and the upgrade flag as given; when a stage may be reached; how every result came about; that no stage begins before the callback agreed to it; and that after a refusal nothing is sent and the result is the error of the callback, which is its only cause. |
| `FirmwareUpdate.ResetComesLast` | mcumgr-toolkit/src/client/firmware_update.rs:262-294 | A reset is sent at most once, as the last command, and only after the parsed hash was set with success, or with a plain error of code 8 followed by a query that shows the hash in image 0, slot 0. |
| `FirmwareUpdate.SetStateFailsExactly` | mcumgr-toolkit/src/client/firmware_update.rs:263-287 | Any error of the activation other than code 8 ends the update with that error and without another command; with code 8 the update fails exactly if the images shown then do not have the hash in image 0, slot 0. |
| `FirmwareUpdate.OnlyMcubootIsUpdated` | mcumgr-toolkit/src/client/firmware_update.rs:186-208 | Commands other than detection are sent only if the caller named the bootloader or the device said MCUboot and answered the mode query, and only if the firmware parses. |
| `FirmwareUpdate.RunsAlreadyMeans` | mcumgr-toolkit/src/client/firmware_update.rs:215-234 | The firmware counts as installed exactly if the first active image 0, or without any the first one in slot 0, has its hash. |
| `FirmwareUpdate.ActivationFollowsUpload` | mcumgr-toolkit/src/client/firmware_update.rs:241-263 | The image state is set at most once, to the parsed hash, directly after an upload of this firmware that succeeded, and no part of an image is sent afterwards. |
| `FirmwareUpdate.NothingIsChanged` | mcumgr-toolkit/src/client/firmware_update.rs:186-234 | If the firmware is installed already, does not parse, or the bootloader is not known, the device is only asked for its bootloader and its images. |
| `FirmwareUpdate.ActivatedFirmwareIsDelivered` | mcumgr-toolkit/src/client/firmware_update.rs:241-263 | An honest device that is told to activate holds exactly the firmware. |

## Left out

- Opening serial ports, USB enumeration, wall-clock time-outs: a read returns any non-empty part of what is still to come, the end of the stream, or a fault; a write may stop behind any part.
- The internals of the ring buffer: it is a queue of at most 4096 bytes that has room whenever a read is issued.
- The code of the base64, CRC, ring buffer and CBOR libraries: they are modelled by what they compute.
- Recovery from lost bytes within a message: the hunt for a continuation line discards the start of a new message. What is shown is recovery when a frame was cut because reading failed (`RetryTheorems`), and from noise.
- Decoding responses: `Connection` takes the decoders as parameters, and the transfer loops get responses as records.
- `Client.Session.Execute`: a command counts as one step with one outcome. Its attempts, numbers and bytes are the subject of `Connection`; that upload requests pass through it is `TransportTheorems.ExecuteImageUpload` and `ExecuteFileUpload`, for frame sizes up to 65533. The transfer loops are not proved over a `Connection` directly.
- SHA-256: a parameter.
- `ImageTransfer.Upload`: that a run comes to an end is shown for honest devices, in `ImageTransfer.UploadDelivers`; for others the script of outcomes is finite, because the code does not promise to end against a device that makes no progress.
- `FileTransfer.Download`: likewise, and the 64-bit offset is not modelled to wrap behind 2^64 received bytes; from then on the commands of the model are the ones without wrapping.
- 32-bit platforms: `usize` has 64 bits, so converting an offset cannot fail.
- `Mcuboot.Cursor`: the only kind of reader is bytes in memory, as in the firmware update; I/O errors of other readers are not modelled.
- The check of a frame's length against the 65535-byte receive buffer (serial.rs:230-232): a 16-bit length cannot exceed it, which `SerialTransport.SerialTransport.RecvRawFrame` asserts.
- Versions of images on the device are plain strings, and the mode and downgrade fields of MCUboot are carried along without meaning.
- Locks, atomics, log messages and the text of errors.
- The command-line program, the Python bindings, the name tables of errors and groups, and the wrappers of single commands: they add no depth.
- A reply that is written to the port while the client still receives: the port holds everything the device will ever send, and reads take it in order.
- Several members split one function of the source: `FillBody` to `StoreLine`, `CollectFrame` and `CheckFrame` in `SerialTransport`, `StoreFirst`, `DownloadRest`, `SendPart`, `UploadChunk` and the `Tell...` methods in the transfers, `Transceiver.Try` in the retry loop, and the stages of `FirmwareUpdate.Update`.
