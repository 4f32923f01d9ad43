/** Downloading and uploading files, for any device, and what a download achieves with an honest one. */
module FileTransfer {
  import opened Bytes
  import opened Wrappers
  import opened Cbor
  import opened Commands
  import opened Connection
  import opened Client

  // Where a download goes. A write may fail after a part of the data.
  class Sink {
    var content: seq<byte>
    ghost var faults: nat

    constructor ()
      ensures content == [] && faults == 0
    {
      content, faults := [], 0;
    }

    method WriteAll(data: seq<byte>) returns (ok: bool)
      modifies this
      ensures ok ==> content == old(content) + data && faults == old(faults)
      ensures !ok ==> old(content) <= content <= old(content) + data && faults == old(faults) + 1
    {
      var n: nat :| n <= |data|;
      content := content + data[..n];
      ok := *;
      ok := ok && n == |data|;
      faults := if ok then faults else faults + 1;
      assert data == data[..n] + data[n..];
    }
  }

  // Where an upload comes from. A read fails if too little is left, and may fail anyway.
  class Source {
    var content: seq<byte>
    ghost var faults: nat

    constructor (content: seq<byte>)
      ensures this.content == content && faults == 0
    {
      this.content, faults := content, 0;
    }

    method ReadExact(n: nat) returns (r: Option<seq<byte>>)
      modifies this
      ensures r.Some? ==> n <= |old(content)| && r.value == old(content)[..n] && content == old(content)[n..]
      ensures faults == if r.Some? then old(faults) else old(faults) + 1
    {
      var fault: bool := *;
      if fault || |content| < n {
        content, faults := [], faults + 1;
        return None;
      }
      r := Some(content[..n]);
      content := content[n..];
    }
  }

  // Downloading.

  // A chunk for the offset that was asked for.
  predicate InPlace(x: Exchange) {
    && x.command.DownloadFile? && x.outcome.Ok? && x.outcome.value.FileChunk?
    && x.outcome.value.off == x.command.off
  }

  predicate AllInPlace(xs: seq<Exchange>) {
    forall k :: 0 <= k < |xs| ==> InPlace(xs[k])
  }

  // The data received so far.
  function Chunks(xs: seq<Exchange>): seq<byte> {
    if xs == [] then []
    else
      var x := xs[|xs| - 1];
      Chunks(xs[..|xs| - 1]) + if InPlace(x) then x.outcome.value.data else []
  }

  // The length the first response reported.
  function ReportedLength(xs: seq<Exchange>): Option<u64> {
    if xs != [] && xs[0].outcome.Ok? && xs[0].outcome.value.FileChunk? then xs[0].outcome.value.len else None
  }

  // Each command asks for what follows the data received so far, until the reported length is reached.
  predicate Contiguous(name: Blob, xs: seq<Exchange>) {
    forall k :: 0 <= k < |xs| ==> Continues(name, xs, k)
  }

  predicate Continues(name: Blob, xs: seq<Exchange>, k: nat)
    requires k < |xs|
  {
    && xs[k].command.DownloadFile? && xs[k].command.name == name && xs[k].command.off == |Chunks(xs[..k])|
    && (k > 0 ==> ReportedLength(xs).Some? && |Chunks(xs[..k])| < ReportedLength(xs).value)
  }

  // What the callback was told: nothing received yet, then the amount after each chunk.
  predicate ToldChunks(reports: seq<Report>, topic: Topic, xs: seq<Exchange>, earlier: nat) {
    && |reports| <= |xs| + 1 && (reports != [] ==> ReportedLength(xs).Some?)
    && forall k :: 0 <= k < |reports| ==>
      && reports[k].topic == topic
      && reports[k].sent == earlier + (if k == 0 then 1 else k)
      && reports[k].progress == Some((|Chunks(xs[..k])|, ReportedLength(xs).value))
  }

  predicate DownloadEnded(xs: seq<Exchange>, reports: seq<Report>, r: Result<(), ClientError>) {
    && xs != [] && AllInPlace(xs[..|xs| - 1])
    && var last := xs[|xs| - 1];
    match r
    case Ok(_) =>
      AllInPlace(xs) && AllGoOn(reports) && ReportedLength(xs) == Some(|Chunks(xs)|)
    case Err(ExecuteFailed(e)) => last.outcome == Err(e) && AllGoOn(reports)
    case Err(MissingSize) => |xs| == 1 && last.outcome.Ok? && ReportedLength(xs).None? && reports == []
    case Err(UnexpectedOffset) => last.outcome.Ok? && !InPlace(last) && ReportedLength(xs).Some? && AllGoOn(reports)
    case Err(ProgressCallbackError) => AllInPlace(xs) && ReportedLength(xs).Some? && Stopped(reports)
    case Err(WriterError) => AllInPlace(xs) && ReportedLength(xs).Some? && AllGoOn(reports)
    case Err(SizeMismatch) =>
      AllInPlace(xs) && AllGoOn(reports) && ReportedLength(xs).Some? && |Chunks(xs)| > ReportedLength(xs).value
    case Err(_) => false
  }

  lemma ChunksAppend(xs: seq<Exchange>, x: Exchange)
    ensures Chunks(xs + [x]) == Chunks(xs) + if InPlace(x) then x.outcome.value.data else []
    ensures AllInPlace(xs) && InPlace(x) ==> AllInPlace(xs + [x])
    ensures (xs + [x])[..|xs|] == xs
    ensures xs != [] ==> ReportedLength(xs + [x]) == ReportedLength(xs)
  {
    assert (xs + [x])[..|xs|] == xs;
  }

  lemma ContiguousAppend(name: Blob, xs: seq<Exchange>, x: Exchange)
    requires Contiguous(name, xs)
    requires x.command.DownloadFile? && x.command.name == name && x.command.off == |Chunks(xs)|
    requires xs != [] ==> ReportedLength(xs).Some? && |Chunks(xs)| < ReportedLength(xs).value
    ensures Contiguous(name, xs + [x])
  {
    hide Chunks;
    var more := xs + [x];
    forall k | 0 <= k < |more|
      ensures Continues(name, more, k)
    {
      assert more[..k] == xs[..k] && (xs != [] ==> more[0] == xs[0]);
      if k < |xs| {
        assert Continues(name, xs, k);
      } else {
        assert xs[..k] == xs;
      }
    }
  }

  lemma ToldMoreChunks(reports: seq<Report>, topic: Topic, xs: seq<Exchange>, x: Exchange, earlier: nat)
    requires ToldChunks(reports, topic, xs, earlier)
    ensures ToldChunks(reports, topic, xs + [x], earlier)
  {
    hide Chunks;
    var more := xs + [x];
    assert xs != [] ==> more[0] == xs[0];
    assert forall k :: 0 <= k <= |xs| ==> more[..k] == xs[..k];
  }

  lemma ToldAppend(reports: seq<Report>, topic: Topic, xs: seq<Exchange>, earlier: nat, last: Report)
    requires ToldChunks(reports, topic, xs, earlier) && xs != [] && ReportedLength(xs).Some?
    requires |reports| == 0 || |reports| == |xs|
    requires last.topic == topic && last.sent == earlier + if reports == [] then 1 else |xs|
    requires last.progress == Some((if reports == [] then 0 else |Chunks(xs)|, ReportedLength(xs).value))
    ensures ToldChunks(reports + [last], topic, xs, earlier)
  {
    assert xs[..|xs|] == xs && xs[..0] == [] && Chunks([]) == [];
  }

  // All chunks but the last are written, and of that one a part.
  predicate PartlyWritten(before: seq<byte>, xs: seq<Exchange>, now: seq<byte>) {
    xs != [] && before + Chunks(xs[..|xs| - 1]) <= now <= before + Chunks(xs)
  }

  // What a download may end with after one more command.
  lemma Ending(earlier: seq<Exchange>, x: Exchange, reports: seq<Report>)
    requires AllInPlace(earlier) && (earlier != [] ==> ReportedLength(earlier).Some?)
    ensures x.outcome.Err? && AllGoOn(reports) ==>
            DownloadEnded(earlier + [x], reports, Err(ExecuteFailed(x.outcome.error)))
    ensures x.outcome.Ok? && !InPlace(x) && ReportedLength(earlier + [x]).Some? && AllGoOn(reports) ==>
            DownloadEnded(earlier + [x], reports, Err(UnexpectedOffset))
    ensures InPlace(x) && ReportedLength(earlier + [x]).Some? && Stopped(reports) ==>
            DownloadEnded(earlier + [x], reports, Err(ProgressCallbackError))
    ensures InPlace(x) && ReportedLength(earlier + [x]).Some? && AllGoOn(reports) ==>
            DownloadEnded(earlier + [x], reports, Err(WriterError))
  {
    hide AllGoOn, Stopped;
    ChunksAppend(earlier, x);
  }

  lemma Writing(before: seq<byte>, earlier: seq<Exchange>, x: Exchange, now: seq<byte>)
    ensures now == before + Chunks(earlier) ==> PartlyWritten(before, earlier + [x], now)
    ensures now == before + Chunks(earlier + [x]) ==> PartlyWritten(before, earlier + [x], now)
    ensures InPlace(x) && before + Chunks(earlier) <= now <= before + Chunks(earlier) + x.outcome.value.data ==>
            PartlyWritten(before, earlier + [x], now)
    ensures InPlace(x) && now == before + Chunks(earlier) + x.outcome.value.data ==>
            now == before + Chunks(earlier + [x])
  {
    ChunksAppend(earlier, x);
    if InPlace(x) {
      var a, b, c := before, Chunks(earlier), x.outcome.value.data;
      assert a + b + c == a + (b + c);
    }
  }

  // Calls the callback, if there is one, about the data received.
  method TellChunks(session: Session, progress: Option<Topic>, offset: nat, fileLen: u64,
                    ghost xs: seq<Exchange>, ghost earlier: nat, ghost reports: seq<Report>)
      returns (goOn: bool, ghost more: seq<Report>)
    requires xs != [] && ReportedLength(xs) == Some(fileLen) && AllGoOn(reports)
    requires |session.exchanges| == earlier + |xs|
    requires progress.Some? ==>
      && ToldChunks(reports, progress.value, xs, earlier) && (reports == [] || |reports| == |xs|)
      && (reports == [] ==> |xs| == 1)
    requires offset == if reports == [] && progress.Some? then 0 else |Chunks(xs)|
    modifies session`answers, session`reports
    ensures |reports| <= |more| && more[..|reports|] == reports
    ensures session.reports == old(session.reports) + more[|reports|..]
    ensures if goOn then AllGoOn(more) else Stopped(more)
    ensures progress.None? ==> goOn && more == reports
    ensures progress.Some? ==>
      && ToldChunks(more, progress.value, xs, earlier) && |more| == |reports| + 1
      && more[|reports|].progress == Some((offset, fileLen))
  {
    hide ToldChunks, AllGoOn, Stopped, Chunks;
    goOn, more := true, reports;
    if progress.Some? {
      goOn := session.Tell(progress.value, Some((offset, fileLen)));
      ghost var last := Report(progress.value, Some((offset, fileLen)), |session.exchanges|, goOn);
      ToldAppend(reports, progress.value, xs, earlier, last);
      GoOnAppend(reports, last);
      more := reports + [last];
    }
  }

  // What holds between two commands of a download.
  predicate Receiving(name: Blob, progress: Option<Topic>, before: nat, fileLen: u64, xs: seq<Exchange>,
                      reports: seq<Report>) {
    && xs != [] && ReportedLength(xs) == Some(fileLen)
    && Contiguous(name, xs) && AllInPlace(xs) && AllGoOn(reports)
    && (progress.None? ==> reports == [])
    && (progress.Some? ==>
          && ToldChunks(reports, progress.value, xs, before) && |reports| == |xs| + 1
          && reports[|xs|].progress == Some((|Chunks(xs)|, fileLen)))
  }

  method Download(session: Session, name: Blob, writer: Sink, progress: Option<Topic>)
      returns (r: Result<(), ClientError>, ghost xs: seq<Exchange>, ghost reports: seq<Report>)
    modifies session`script, session`exchanges, session`answers, session`reports, writer
    ensures session.exchanges == old(session.exchanges) + xs
    ensures session.reports == old(session.reports) + reports
    ensures Contiguous(name, xs) && DownloadEnded(xs, reports, r)
    ensures r.Ok? ==> writer.content == old(writer.content) + Chunks(xs)
    ensures r.Err? ==> PartlyWritten(old(writer.content), xs, writer.content)
    ensures writer.faults == old(writer.faults) + if r == Err(WriterError) then 1 else 0
    ensures progress.None? ==> reports == []
    ensures progress.Some? ==> ToldChunks(reports, progress.value, xs, |old(session.exchanges)|)
    ensures progress.Some? && r.Ok? ==>
      |reports| == |xs| + 1 && reports[|xs|].progress == Some((|Chunks(xs)|, |Chunks(xs)|))
  {
    hide Contiguous, ToldChunks, AllInPlace, AllGoOn, Stopped, Chunks, PartlyWritten, DownloadEnded, ReportedLength,
      Receiving;
    ghost var start, content, base := session.exchanges, writer.content, session.reports;
    ghost var topic := if progress.Some? then progress.value else Transfer;
    NothingReceived(name, topic, |start|);
    var outcome := session.Execute(DownloadFile(name, 0));
    ghost var x := Exchange(DownloadFile(name, 0), outcome);
    xs, reports := [x], [];
    FirstChunk(name, x, topic, |start|);
    Ending([], x, reports);
    Writing(content, [], x, writer.content);
    assert [] + [x] == xs && writer.content == content + [];
    if outcome.Err? {
      return Err(ExecuteFailed(outcome.error)), xs, reports;
    }
    if outcome.value.len.None? {
      MissingLength(x);
      return Err(MissingSize), xs, reports;
    }
    var fileLen := outcome.value.len.value;
    if outcome.value.off != 0 {
      return Err(UnexpectedOffset), xs, reports;
    }
    r, reports := StoreFirst(session, name, outcome.value.data, writer, progress, fileLen, x, |start|);
    if r.Err? {
      return r, xs, reports;
    }
    r, xs, reports := DownloadRest(
      session, name, writer, progress, fileLen, |outcome.value.data|, start, base, content, xs, reports);
  }

  // Reports, writes and reports the first chunk.
  method StoreFirst(session: Session, name: Blob, data: seq<byte>, writer: Sink, progress: Option<Topic>, fileLen: u64,
                    ghost x: Exchange, ghost before: nat)
      returns (r: Result<(), ClientError>, ghost reports: seq<Report>)
    requires InPlace(x) && x.command == DownloadFile(name, 0) && x.outcome.value.data == data
    requires x.outcome.value.len == Some(fileLen) && |session.exchanges| == before + 1
    modifies session`answers, session`reports, writer
    ensures session.reports == old(session.reports) + reports
    ensures progress.None? ==> reports == []
    ensures progress.Some? ==> ToldChunks(reports, progress.value, [x], before)
    ensures r.Ok? ==> writer.content == old(writer.content) + Chunks([x]) && |data| == |Chunks([x])|
    ensures r.Ok? ==> Receiving(name, progress, before, fileLen, [x], reports)
    ensures r.Err? ==> DownloadEnded([x], reports, r) && PartlyWritten(old(writer.content), [x], writer.content)
    ensures writer.faults == old(writer.faults) + if r == Err(WriterError) then 1 else 0
  {
    hide Contiguous, ToldChunks, AllInPlace, AllGoOn, Stopped, Chunks, PartlyWritten, DownloadEnded, ReportedLength;
    ghost var content, topic := writer.content, if progress.Some? then progress.value else Transfer;
    NothingReceived(name, topic, before);
    FirstChunk(name, x, topic, before);
    ChunksAppend([], x);
    Writing(content, [], x, writer.content);
    assert [] + [x] == [x] && content == content + [];
    reports := [];
    var goOn;
    if progress.Some? {
      goOn, reports := TellChunks(session, progress, 0, fileLen, [x], before, reports);
      if !goOn {
        Ending([], x, reports);
        return Err(ProgressCallbackError), reports;
      }
    }
    var ok := writer.WriteAll(data);
    Writing(content, [], x, writer.content);
    if !ok {
      Ending([], x, reports);
      return Err(WriterError), reports;
    }
    goOn, reports := TellChunks(session, progress, |data|, fileLen, [x], before, reports);
    if !goOn {
      Ending([], x, reports);
      return Err(ProgressCallbackError), reports;
    }
    return Ok(()), reports;
  }

  // The loop of a download, after its first chunk.
  method DownloadRest(session: Session, name: Blob, writer: Sink, progress: Option<Topic>, fileLen: u64, received: nat,
                      ghost start: seq<Exchange>, ghost base: seq<Report>, ghost content: seq<byte>,
                      ghost first: seq<Exchange>, ghost told: seq<Report>)
      returns (r: Result<(), ClientError>, ghost xs: seq<Exchange>, ghost reports: seq<Report>)
    requires session.exchanges == start + first && session.reports == base + told
    requires Receiving(name, progress, |start|, fileLen, first, told)
    requires received == |Chunks(first)| && writer.content == content + Chunks(first)
    modifies session`script, session`exchanges, session`answers, session`reports, writer
    ensures session.exchanges == start + xs && session.reports == base + reports
    ensures Contiguous(name, xs) && DownloadEnded(xs, reports, r)
    ensures r.Ok? ==> writer.content == content + Chunks(xs)
    ensures r.Err? ==> PartlyWritten(content, xs, writer.content)
    ensures writer.faults == old(writer.faults) + if r == Err(WriterError) then 1 else 0
    ensures progress.None? ==> reports == []
    ensures progress.Some? ==> ToldChunks(reports, progress.value, xs, |start|)
    ensures progress.Some? && r.Ok? ==>
      |reports| == |xs| + 1 && reports[|xs|].progress == Some((|Chunks(xs)|, |Chunks(xs)|))
  {
    hide Contiguous, ToldChunks, AllInPlace, AllGoOn, Stopped, Chunks, PartlyWritten, DownloadEnded, ReportedLength;
    var offset := received;
    xs, reports := first, told;
    while offset < fileLen
      invariant session.exchanges == start + xs && session.reports == base + reports
      invariant Receiving(name, progress, |start|, fileLen, xs, reports)
      invariant offset == |Chunks(xs)| && writer.content == content + Chunks(xs) && writer.faults == old(writer.faults)
      decreases |session.script|
    {
      ghost var earlier := xs;
      var outcome := session.Execute(DownloadFile(name, offset));
      ghost var x := Exchange(DownloadFile(name, offset), outcome);
      ContiguousAppend(name, earlier, x);
      ChunksAppend(earlier, x);
      Ending(earlier, x, reports);
      Writing(content, earlier, x, writer.content);
      if progress.Some? {
        ToldMoreChunks(reports, progress.value, earlier, x, |start|);
      }
      xs := earlier + [x];
      if outcome.Err? {
        return Err(ExecuteFailed(outcome.error)), xs, reports;
      }
      if outcome.value.off != offset {
        return Err(UnexpectedOffset), xs, reports;
      }
      var ok := writer.WriteAll(outcome.value.data);
      Writing(content, earlier, x, writer.content);
      if !ok {
        return Err(WriterError), xs, reports;
      }
      offset := offset + |outcome.value.data|;
      var goOn;
      goOn, reports := TellChunks(session, progress, offset, fileLen, xs, |start|, reports);
      Ending(earlier, x, reports);
      if !goOn {
        return Err(ProgressCallbackError), xs, reports;
      }
    }
    AllReceived(content, xs, reports);
    if offset != fileLen {
      return Err(SizeMismatch), xs, reports;
    }
    return Ok(()), xs, reports;
  }

  lemma FirstChunk(name: Blob, x: Exchange, topic: Topic, before: nat)
    requires x.command == DownloadFile(name, 0)
    ensures Contiguous(name, [x]) && ToldChunks([], topic, [x], before) && [] + [x] == [x]
    ensures x.outcome.Ok? && x.outcome.value.FileChunk? ==> ReportedLength([x]) == x.outcome.value.len
  {
    assert [x][..0] == [];
  }

  lemma MissingLength(x: Exchange)
    requires x.outcome.Ok? && x.outcome.value.FileChunk? && x.outcome.value.len.None?
    ensures DownloadEnded([x], [], Err(MissingSize))
  {
  }

  lemma AllReceived(before: seq<byte>, xs: seq<Exchange>, reports: seq<Report>)
    requires xs != [] && AllInPlace(xs) && ReportedLength(xs).Some? && AllGoOn(reports)
    ensures PartlyWritten(before, xs, before + Chunks(xs))
    ensures |Chunks(xs)| == ReportedLength(xs).value ==> DownloadEnded(xs, reports, Ok(()))
    ensures |Chunks(xs)| > ReportedLength(xs).value ==> DownloadEnded(xs, reports, Err(SizeMismatch))
  {
    hide AllGoOn;
  }

  lemma NothingReceived(name: Blob, topic: Topic, earlier: nat)
    ensures Contiguous(name, []) && AllInPlace([]) && AllGoOn([]) && Chunks([]) == []
    ensures ToldChunks([], topic, [], earlier)
  {
  }

  // An honest device serves slices of one file, not empty ones before its end, and its length at the start.
  predicate Serves(file: Blob, x: Exchange) {
    && x.command.DownloadFile? && x.command.off <= |file|
    && x.outcome.Ok? && x.outcome.value.FileChunk?
    && var c := x.outcome.value;
       && c.off == x.command.off && c.off + |c.data| <= |file| && c.data == file[c.off..c.off + |c.data|]
       && (c.off < |file| ==> c.data != [])
       && (c.off == 0 ==> c.len == Some(|file|))
  }

  // Any number of its answers make up a prefix of the file that grows with every command.
  lemma {:induction false} ChunksOfFile(file: Blob, name: Blob, xs: seq<Exchange>)
    requires Contiguous(name, xs) && forall k :: 0 <= k < |xs| ==> Serves(file, xs[k])
    ensures AllInPlace(xs) && Chunks(xs) <= file
    ensures xs != [] ==> ReportedLength(xs) == Some(|file|)
    ensures |xs| <= |Chunks(xs)| || (|xs| == 1 && file == [])
  {
    hide Contiguous, Serves, InPlace;
    if xs != [] {
      var n := |xs| - 1;
      var earlier, x := xs[..n], xs[n];
      ContiguousPrefix(name, xs, n);
      LastCommand(name, xs);
      assert forall k :: 0 <= k < n ==> earlier[k] == xs[k];
      ChunksOfFile(file, name, earlier);
      assert xs == earlier + [x];
      ChunksAppend(earlier, x);
      SliceGrows(file, Chunks(earlier), x);
    }
  }

  lemma LastCommand(name: Blob, xs: seq<Exchange>)
    requires Contiguous(name, xs) && xs != []
    ensures var n := |xs| - 1;
            && xs[n].command.DownloadFile? && xs[n].command.off == |Chunks(xs[..n])|
            && (n > 0 ==> ReportedLength(xs).Some? && |Chunks(xs[..n])| < ReportedLength(xs).value)
            && (n > 0 ==> ReportedLength(xs[..n]) == ReportedLength(xs))
            && (n == 0 ==> xs[n].command.off == 0)
  {
    assert Continues(name, xs, |xs| - 1);
  }

  lemma SliceGrows(file: Blob, received: seq<byte>, x: Exchange)
    requires Serves(file, x) && received <= file && x.command.off == |received|
    ensures InPlace(x) && x.outcome.Ok? && x.outcome.value.FileChunk?
    ensures received + x.outcome.value.data <= file
    ensures |received| < |file| ==> |received + x.outcome.value.data| > |received|
    ensures received == [] ==> x.outcome.value.len == Some(|file|)
  {
    assert file == received + file[|received|..];
  }

  lemma ContiguousPrefix(name: Blob, xs: seq<Exchange>, n: nat)
    requires Contiguous(name, xs) && n <= |xs|
    ensures Contiguous(name, xs[..n])
  {
    hide Chunks;
    var part := xs[..n];
    forall k | 0 <= k < n
      ensures Continues(name, part, k)
    {
      assert Continues(name, xs, k);
      assert part[..k] == xs[..k] && part[0] == xs[0];
    }
  }

  // Downloading from an honest device takes at most one command per byte, delivers exactly the file, and
  // can only fail because of the callback or the writer.
  lemma DownloadDelivers(file: Blob, name: Blob, xs: seq<Exchange>, reports: seq<Report>, r: Result<(), ClientError>)
    requires Contiguous(name, xs) && DownloadEnded(xs, reports, r)
    requires forall k :: 0 <= k < |xs| ==> Serves(file, xs[k])
    ensures r.Ok? ==> Chunks(xs) == file
    ensures r.Ok? || r == Err(ProgressCallbackError) || r == Err(WriterError)
    ensures |xs| <= |file| || (|xs| == 1 && file == [])
  {
    hide Chunks;
    ChunksOfFile(file, name, xs);
    assert Serves(file, xs[|xs| - 1]) && Serves(file, xs[0]);
  }

  // Uploading.

  // The data sent so far.
  function Parts(xs: seq<Exchange>): seq<byte> {
    if xs == [] then []
    else
      var x := xs[|xs| - 1];
      Parts(xs[..|xs| - 1]) + if x.command.UploadFile? then x.command.file.data else []
  }

  // Each command carries the next part of the file, as large as allowed; the length comes with the first.
  predicate Partition(name: Blob, size: u64, chunkSize: u64, xs: seq<Exchange>) {
    forall k :: 0 <= k < |xs| ==>
      && xs[k].command.UploadFile?
      && var f, off := xs[k].command.file, |Parts(xs[..k])|;
         && off < size && f.off == off && f.name == name
         && |f.data| == (if size - off < chunkSize then size - off else chunkSize)
         && f.len == (if off == 0 then Some(size) else None)
  }

  predicate AllOk(xs: seq<Exchange>) {
    forall k :: 0 <= k < |xs| ==> xs[k].outcome.Ok?
  }

  // What the callback was told: the amount sent after each command.
  predicate ToldParts(reports: seq<Report>, topic: Topic, xs: seq<Exchange>, earlier: nat, size: u64) {
    && |reports| <= |xs|
    && forall k :: 0 <= k < |reports| ==>
      && reports[k].topic == topic && reports[k].sent == earlier + k + 1
      && reports[k].progress == Some((|Parts(xs[..k + 1])|, size))
  }

  predicate UploadEnded(size: u64, xs: seq<Exchange>, reports: seq<Report>, r: Result<(), ClientError>) {
    match r
    case Ok(_) => AllOk(xs) && AllGoOn(reports) && |Parts(xs)| == size
    case Err(ExecuteFailed(e)) =>
      xs != [] && AllOk(xs[..|xs| - 1]) && AllGoOn(reports) && xs[|xs| - 1].outcome == Err(e)
    case Err(ReaderError) => AllOk(xs) && AllGoOn(reports) && |Parts(xs)| < size
    case Err(ProgressCallbackError) => AllOk(xs) && Stopped(reports)
    case Err(_) => false
  }

  lemma PartsAppend(xs: seq<Exchange>, x: Exchange)
    requires x.command.UploadFile?
    ensures Parts(xs + [x]) == Parts(xs) + x.command.file.data && (xs + [x])[..|xs|] == xs
    ensures AllOk(xs) && x.outcome.Ok? ==> AllOk(xs + [x])
  {
    assert (xs + [x])[..|xs|] == xs;
  }

  lemma PartitionAppend(name: Blob, size: u64, chunkSize: u64, xs: seq<Exchange>, x: Exchange)
    requires Partition(name, size, chunkSize, xs) && x.command.UploadFile?
    requires var f, off := x.command.file, |Parts(xs)|;
             && off < size && f.off == off && f.name == name
             && |f.data| == (if size - off < chunkSize then size - off else chunkSize)
             && f.len == (if off == 0 then Some(size) else None)
    ensures Partition(name, size, chunkSize, xs + [x])
  {
    hide Parts;
    assert forall k :: 0 <= k <= |xs| ==> (xs + [x])[..k] == xs[..k];
    assert xs[..|xs|] == xs;
  }

  lemma ToldMoreParts(reports: seq<Report>, topic: Topic, xs: seq<Exchange>, x: Exchange, earlier: nat, size: u64)
    requires ToldParts(reports, topic, xs, earlier, size)
    ensures ToldParts(reports, topic, xs + [x], earlier, size)
  {
    hide Parts;
    assert forall k :: 0 <= k <= |xs| ==> (xs + [x])[..k] == xs[..k];
  }

  lemma ToldPartsAppend(reports: seq<Report>, topic: Topic, xs: seq<Exchange>, earlier: nat, size: u64, last: Report)
    requires ToldParts(reports, topic, xs, earlier, size) && |reports| + 1 == |xs|
    requires last.topic == topic && last.sent == earlier + |xs| && last.progress == Some((|Parts(xs)|, size))
    ensures ToldParts(reports + [last], topic, xs, earlier, size)
  {
    assert xs[..|xs|] == xs;
  }

  // Calls the callback, if there is one, about the data sent.
  method TellParts(session: Session, progress: Option<Topic>, offset: nat, size: u64,
                   ghost xs: seq<Exchange>, ghost earlier: nat, ghost reports: seq<Report>)
      returns (goOn: bool, ghost more: seq<Report>)
    requires offset == |Parts(xs)| && AllGoOn(reports) && |session.exchanges| == earlier + |xs|
    requires progress.None? ==> reports == []
    requires progress.Some? ==> ToldParts(reports, progress.value, xs, earlier, size) && |reports| + 1 == |xs|
    modifies session`answers, session`reports
    ensures |reports| <= |more| && more[..|reports|] == reports
    ensures session.reports == old(session.reports) + more[|reports|..]
    ensures if goOn then AllGoOn(more) else Stopped(more)
    ensures progress.None? ==> goOn && more == []
    ensures progress.Some? ==> ToldParts(more, progress.value, xs, earlier, size) && |more| == |xs|
  {
    hide ToldParts, AllGoOn, Stopped, Parts;
    goOn, more := true, reports;
    if progress.Some? {
      goOn := session.Tell(progress.value, Some((offset, size)));
      ghost var last := Report(progress.value, Some((offset, size)), |session.exchanges|, goOn);
      ToldPartsAppend(reports, progress.value, xs, earlier, size, last);
      GoOnAppend(reports, last);
      more := reports + [last];
    }
  }

  // What holds between two commands of an upload.
  predicate Sending(name: Blob, size: u64, chunkSize: u64, progress: Option<Topic>, before: nat, xs: seq<Exchange>,
                    reports: seq<Report>) {
    && Partition(name, size, chunkSize, xs) && |Parts(xs)| <= size && AllOk(xs) && AllGoOn(reports)
    && (progress.None? ==> reports == [])
    && (progress.Some? ==> |reports| == |xs| && ToldParts(reports, progress.value, xs, before, size))
  }

  // What holds at its end.
  predicate UploadFinished(name: Blob, size: u64, chunkSize: u64, progress: Option<Topic>, before: nat,
                           xs: seq<Exchange>, reports: seq<Report>, r: Result<(), ClientError>) {
    && Partition(name, size, chunkSize, xs) && UploadEnded(size, xs, reports, r)
    && (progress.None? ==> reports == [])
    && (progress.Some? ==>
          && ToldParts(reports, progress.value, xs, before, size)
          && |reports| == if r.Err? && r.error.ExecuteFailed? then |xs| - 1 else |xs|)
  }

  method Upload(session: Session, name: Blob, reader: Source, size: u64, progress: Option<Topic>)
      returns (r: Result<(), ClientError>, ghost xs: seq<Exchange>, ghost reports: seq<Report>)
    modifies session`script, session`exchanges, session`answers, session`reports, reader
    ensures session.exchanges == old(session.exchanges) + xs
    ensures session.reports == old(session.reports) + reports
    ensures r == Err(FrameSizeTooSmall) <==> FileUploadMaxDataChunkSize(session.frameSize, name).None?
    ensures r == Err(FrameSizeTooSmall) ==> xs == [] && reports == []
    ensures r != Err(FrameSizeTooSmall) ==>
      && var chunkSize := FileUploadMaxDataChunkSize(session.frameSize, name).value;
      && UploadFinished(name, size, chunkSize, progress, |old(session.exchanges)|, xs, reports, r)
      && Parts(xs) <= old(reader.content)
    ensures r.Ok? ==> size <= |old(reader.content)| && Parts(xs) == old(reader.content)[..size]
    ensures reader.faults == old(reader.faults) + if r == Err(ReaderError) then 1 else 0
    ensures size == 0 ==> xs == []
  {
    hide FileUploadMaxDataChunkSize, Sending, UploadFinished, Parts, UploadEnded;
    xs, reports := [], [];
    var chunkSizeMax := FileUploadMaxDataChunkSize(session.frameSize, name);
    if chunkSizeMax.None? {
      return Err(FrameSizeTooSmall), [], [];
    }
    ChunkSizePositive(session.frameSize, name);
    ghost var start, base, content := session.exchanges, session.reports, reader.content;
    NothingSent(name, size, chunkSizeMax.value, progress, |start|);
    var offset: nat := 0;
    while offset < size
      invariant session.exchanges == start + xs && session.reports == base + reports
      invariant Sending(name, size, chunkSizeMax.value, progress, |start|, xs, reports)
      invariant content == Parts(xs) + reader.content && offset == |Parts(xs)| <= size
      invariant reader.faults == old(reader.faults) && (size == 0 ==> xs == [])
      decreases size - offset
    {
      var part;
      part, xs, reports := SendPart(
        session, name, reader, size, offset, chunkSizeMax.value, progress, start, base, content, xs, reports);
      if part.Err? {
        return Err(part.error), xs, reports;
      }
      offset := part.value;
    }
    EverythingSent(name, size, chunkSizeMax.value, progress, |start|, xs, reports);
    return Ok(()), xs, reports;
  }

  // One round of the loop: reads, sends and reports one part; returns the new offset.
  method SendPart(session: Session, name: Blob, reader: Source, size: u64, offset: nat, chunkSizeMax: u64,
                  progress: Option<Topic>, ghost start: seq<Exchange>, ghost base: seq<Report>,
                  ghost content: seq<byte>, ghost earlier: seq<Exchange>, ghost told: seq<Report>)
      returns (r: Result<nat, ClientError>, ghost xs: seq<Exchange>, ghost reports: seq<Report>)
    requires session.exchanges == start + earlier && session.reports == base + told
    requires Sending(name, size, chunkSizeMax, progress, |start|, earlier, told)
    requires content == Parts(earlier) + reader.content && offset == |Parts(earlier)| < size && chunkSizeMax > 0
    modifies session`script, session`exchanges, session`answers, session`reports, reader
    ensures session.exchanges == start + xs && session.reports == base + reports && Parts(xs) <= content
    ensures r.Ok? ==>
      && Sending(name, size, chunkSizeMax, progress, |start|, xs, reports)
      && content == Parts(xs) + reader.content && offset < r.value == |Parts(xs)| <= size
    ensures r.Err? ==>
      r.error != FrameSizeTooSmall && UploadFinished(name, size, chunkSizeMax, progress, |start|, xs, reports, Err(r.error))
    ensures reader.faults == old(reader.faults) + if r == Err(ReaderError) then 1 else 0
  {
    hide Partition, ToldParts, AllGoOn, AllOk, Stopped, Parts;
    xs, reports := earlier, told;
    var currentChunkSize := if size - offset < chunkSizeMax then size - offset else chunkSizeMax;
    ghost var left := reader.content;
    var chunk := reader.ReadExact(currentChunkSize);
    if chunk.None? {
      return Err(ReaderError), xs, reports;
    }
    var request := FileUpload(offset, chunk.value, name, if offset == 0 then Some(size) else None);
    var outcome := session.Execute(UploadFile(request));
    ghost var x := Exchange(UploadFile(request), outcome);
    PartitionAppend(name, size, chunkSizeMax, earlier, x);
    PartsAppend(earlier, x);
    if progress.Some? {
      ToldMoreParts(reports, progress.value, earlier, x, |start|, size);
    }
    xs := earlier + [x];
    Consumed(content, Parts(earlier), chunk.value, reader.content, left);
    if outcome.Err? {
      return Err(ExecuteFailed(outcome.error)), xs, reports;
    }
    var goOn;
    goOn, reports := TellParts(session, progress, offset + |chunk.value|, size, xs, |start|, reports);
    if !goOn {
      return Err(ProgressCallbackError), xs, reports;
    }
    return Ok(offset + |chunk.value|), xs, reports;
  }

  lemma Consumed(content: seq<byte>, sent: seq<byte>, chunk: seq<byte>, left: seq<byte>, before: seq<byte>)
    requires content == sent + before && |chunk| <= |before| && chunk == before[..|chunk|] && left == before[|chunk|..]
    ensures content == sent + chunk + left && sent <= content && sent + chunk <= content
  {
    assert before == chunk + left;
    assert sent + (chunk + left) == sent + chunk + left;
  }

  lemma ChunkSizePositive(frameSize: u64, name: Blob)
    ensures FileUploadMaxDataChunkSize(frameSize, name).Some? ==> FileUploadMaxDataChunkSize(frameSize, name).value > 0
  {
    ChunkSizesAreCapacities(frameSize, name);
    CapacityIsGood(frameSize, FileFixed(name));
  }

  lemma NothingSent(name: Blob, size: u64, chunkSize: u64, progress: Option<Topic>, before: nat)
    ensures Sending(name, size, chunkSize, progress, before, [], []) && Parts([]) == []
  {
  }

  lemma EverythingSent(name: Blob, size: u64, chunkSize: u64, progress: Option<Topic>, before: nat, xs: seq<Exchange>,
                reports: seq<Report>)
    requires Sending(name, size, chunkSize, progress, before, xs, reports) && |Parts(xs)| == size
    ensures UploadFinished(name, size, chunkSize, progress, before, xs, reports, Ok(()))
  {
    hide Partition, ToldParts, AllGoOn, AllOk, Parts;
  }

  // Every request fits into the frame, and so is neither too big to encode nor too big to send.
  lemma RequestsFit(frameSize: u64, name: Blob, size: u64, chunkSize: u64, xs: seq<Exchange>, k: nat)
    requires FileUploadMaxDataChunkSize(frameSize, name) == Some(chunkSize)
    requires Partition(name, size, chunkSize, xs) && k < |xs|
    ensures var encoded := xs[k].command.file.Encode();
            && SMP_HEADER_SIZE + |encoded| <= frameSize
            && (frameSize <= 65533 ==> |encoded| <= SEND_BUFFER_SIZE && |encoded| + 10 < 0x1_0000)
  {
    hide FileUpload.Encode, FileUploadMaxDataChunkSize, Parts;
    FileRequestFits(frameSize, xs[k].command.file);
  }
}
