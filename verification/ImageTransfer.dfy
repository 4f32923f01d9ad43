/** Uploading a firmware image: the loop, for any device, and what it achieves with an honest one. */
module ImageTransfer {
  import opened Bytes
  import opened Wrappers
  import opened Cbor
  import opened Commands
  import opened Connection
  import opened Client

  // What the caller asked for.
  datatype Job = Job(data: Blob, image: Option<u32>, sha: Hash, upgradeOnly: bool, chunkSize: u64) {
    // The request for some offset: session parameters only at the start, then only data.
    function RequestAt(off: nat): ImageUpload
      requires off < |data|
    {
      var end := if |data| - off < chunkSize then |data| else off + chunkSize;
      if off == 0 then ImageUpload(image, Some(|data|), off, Some(sha), data[off..end], Some(upgradeOnly))
      else ImageUpload(None, None, off, None, data[off..end], None)
    }
  }

  // The offset the device last reported.
  function OffsetAfter(xs: seq<Exchange>): nat {
    if xs == [] then 0
    else
      var x := xs[|xs| - 1];
      if x.outcome.Ok? && x.outcome.value.ImageUploaded? then x.outcome.value.off else 0
  }

  // The last verdict of the device on the checksum, if it gave any.
  function Verdict(xs: seq<Exchange>): Option<bool> {
    if xs == [] then None
    else
      var x := xs[|xs| - 1];
      if x.outcome.Ok? && x.outcome.value.ImageUploaded? && x.outcome.value.isMatch.Some? then x.outcome.value.isMatch
      else Verdict(xs[..|xs| - 1])
  }

  // Commands that followed the device's offsets.
  predicate Follows(job: Job, xs: seq<Exchange>) {
    forall k :: 0 <= k < |xs| ==>
      OffsetAfter(xs[..k]) < |job.data| && xs[k].command == UploadImage(job.RequestAt(OffsetAfter(xs[..k])))
  }

  predicate Accepted(x: Exchange) {
    x.outcome.Ok? && x.outcome.value.ImageUploaded?
  }

  predicate AllAccepted(xs: seq<Exchange>) {
    forall k :: 0 <= k < |xs| ==> Accepted(xs[k])
  }

  // What the callback was told: the offset after each of the first n commands.
  predicate Told(reports: seq<Report>, topic: Topic, xs: seq<Exchange>, earlier: nat, size: nat) {
    && |reports| <= |xs|
    && forall k :: 0 <= k < |reports| ==>
      && reports[k].topic == topic && reports[k].sent == earlier + k + 1
      && reports[k].progress == Some((OffsetAfter(xs[..k + 1]), size))
  }

  // How the upload ended, given the commands executed and the callback's reports.
  predicate Ended(job: Job, xs: seq<Exchange>, reports: seq<Report>, r: Result<(), ClientError>) {
    match r
    case Ok(_) =>
      AllAccepted(xs) && AllGoOn(reports) && OffsetAfter(xs) == |job.data| && Verdict(xs) != Some(false)
    case Err(ExecuteFailed(e)) =>
      xs != [] && AllAccepted(xs[..|xs| - 1]) && AllGoOn(reports) && xs[|xs| - 1].outcome == Err(e)
    case Err(UnexpectedOffset) =>
      AllAccepted(xs) && AllGoOn(reports) && OffsetAfter(xs) > |job.data|
    case Err(ProgressCallbackError) =>
      AllAccepted(xs) && Stopped(reports)
    case Err(ChecksumMismatchOnDevice) =>
      AllAccepted(xs) && AllGoOn(reports) && OffsetAfter(xs) == |job.data| && Verdict(xs) == Some(false)
    case Err(_) => false
  }

  lemma FollowsAppend(job: Job, xs: seq<Exchange>, x: Exchange)
    requires Follows(job, xs) && OffsetAfter(xs) < |job.data|
    requires x.command == UploadImage(job.RequestAt(OffsetAfter(xs)))
    ensures Follows(job, xs + [x]) && (xs + [x])[..|xs|] == xs
  {
    hide Job.RequestAt, OffsetAfter;
    assert forall k :: 0 <= k <= |xs| ==> (xs + [x])[..k] == xs[..k];
    assert xs[..|xs|] == xs;
  }

  lemma AfterAppend(xs: seq<Exchange>, x: Exchange)
    requires Accepted(x)
    ensures OffsetAfter(xs + [x]) == x.outcome.value.off
    ensures Verdict(xs + [x]) == if x.outcome.value.isMatch.Some? then x.outcome.value.isMatch else Verdict(xs)
    ensures AllAccepted(xs) ==> AllAccepted(xs + [x])
  {
    assert (xs + [x])[..|xs|] == xs;
  }

  lemma ToldMore(reports: seq<Report>, topic: Topic, xs: seq<Exchange>, x: Exchange, earlier: nat, size: nat)
    requires Told(reports, topic, xs, earlier, size)
    ensures Told(reports, topic, xs + [x], earlier, size)
  {
    hide OffsetAfter;
    assert forall k :: 0 <= k <= |xs| ==> (xs + [x])[..k] == xs[..k];
  }

  lemma ToldAppend(reports: seq<Report>, topic: Topic, xs: seq<Exchange>, earlier: nat, size: nat, last: Report)
    requires Told(reports, topic, xs, earlier, size) && |reports| + 1 == |xs|
    requires last.topic == topic && last.sent == earlier + |xs| && last.progress == Some((OffsetAfter(xs), size))
    ensures Told(reports + [last], topic, xs, earlier, size)
  {
    assert xs[..|xs|] == xs;
  }

  // Calls the callback, if there is one, about the offset reached.
  method TellOffset(session: Session, progress: Option<Topic>, offset: nat, size: nat,
                    ghost xs: seq<Exchange>, ghost earlier: nat, ghost reports: seq<Report>)
      returns (goOn: bool, ghost more: seq<Report>)
    requires offset == OffsetAfter(xs) && AllGoOn(reports) && |session.exchanges| == earlier + |xs|
    requires progress.None? ==> reports == []
    requires progress.Some? ==> Told(reports, progress.value, xs, earlier, size) && |reports| + 1 == |xs|
    modifies session`answers, session`reports
    ensures |reports| <= |more| && more[..|reports|] == reports
    ensures session.reports == old(session.reports) + more[|reports|..]
    ensures if goOn then AllGoOn(more) else Stopped(more)
    ensures progress.None? ==> goOn && more == []
    ensures progress.Some? ==> Told(more, progress.value, xs, earlier, size) && |more| == |xs|
  {
    hide Told, AllGoOn, Stopped, OffsetAfter;
    goOn, more := true, reports;
    if progress.Some? {
      goOn := session.Tell(progress.value, Some((offset, size)));
      ghost var last := Report(progress.value, Some((offset, size)), |session.exchanges|, goOn);
      ToldAppend(reports, progress.value, xs, earlier, size, last);
      GoOnAppend(reports, last);
      more := reports + [last];
    }
  }

  // What holds between two commands of an upload.
  predicate Uploading(job: Job, progress: Option<Topic>, before: nat, xs: seq<Exchange>, reports: seq<Report>) {
    && Follows(job, xs) && OffsetAfter(xs) <= |job.data| && AllAccepted(xs) && AllGoOn(reports)
    && (progress.None? ==> reports == [])
    && (progress.Some? ==> |reports| == |xs| && Told(reports, progress.value, xs, before, |job.data|))
  }

  // What holds at its end.
  predicate Finished(job: Job, progress: Option<Topic>, before: nat, xs: seq<Exchange>, reports: seq<Report>,
                     r: Result<(), ClientError>) {
    && Follows(job, xs) && Ended(job, xs, reports, r)
    && (progress.None? ==> reports == [])
    && (progress.Some? ==>
          && Told(reports, progress.value, xs, before, |job.data|)
          && |reports| == if r.Err? && (r.error.ExecuteFailed? || r.error.UnexpectedOffset?) then |xs| - 1 else |xs|)
  }

  method Upload(session: Session, data: Blob, image: Option<u32>, checksum: Option<Hash>, upgradeOnly: bool,
                sha256: Blob -> Hash, progress: Option<Topic>)
      returns (r: Result<(), ClientError>, ghost xs: seq<Exchange>, ghost reports: seq<Report>)
    modifies session`script, session`exchanges, session`answers, session`reports
    ensures session.exchanges == old(session.exchanges) + xs
    ensures session.reports == old(session.reports) + reports
    ensures r == Err(FrameSizeTooSmall) <==> ImageUploadMaxDataChunkSize(session.frameSize).None?
    ensures r == Err(ChecksumMismatch) <==>
      ImageUploadMaxDataChunkSize(session.frameSize).Some? && checksum.Some? && checksum.value != sha256(data)
    ensures r == Err(FrameSizeTooSmall) || r == Err(ChecksumMismatch) ==> xs == [] && reports == []
    ensures r != Err(FrameSizeTooSmall) && r != Err(ChecksumMismatch) ==>
      && var job := Job(data, image, sha256(data), upgradeOnly, ImageUploadMaxDataChunkSize(session.frameSize).value);
         Finished(job, progress, |old(session.exchanges)|, xs, reports, r)
    ensures r.Ok? && data != [] ==>
      && xs != [] && xs[|xs| - 1].outcome.Ok? && xs[|xs| - 1].outcome.value.ImageUploaded?
      && xs[|xs| - 1].outcome.value.off == |data|
    ensures xs != [] ==> ImageUploadMaxDataChunkSize(session.frameSize).Some?
    ensures forall k :: 0 <= k < |xs| ==>
      Carries(xs, k, data, image, sha256(data), upgradeOnly, ImageUploadMaxDataChunkSize(session.frameSize).value)
  {
    hide ImageUploadMaxDataChunkSize, Uploading, Finished, OffsetAfter, Verdict;
    xs, reports := [], [];
    var chunkSizeMax := ImageUploadMaxDataChunkSize(session.frameSize);
    if chunkSizeMax.None? {
      return Err(FrameSizeTooSmall), [], [];
    }
    var actualChecksum := sha256(data);
    if checksum.Some? && actualChecksum != checksum.value {
      return Err(ChecksumMismatch), [], [];
    }
    var job := Job(data, image, actualChecksum, upgradeOnly, chunkSizeMax.value);
    ghost var start, base := session.exchanges, session.reports;
    NothingYet(job, progress, |start|);
    var offset: nat := 0;
    var checksumMatched: Option<bool> := None;
    while offset < |data|
      invariant session.exchanges == start + xs && session.reports == base + reports
      invariant Uploading(job, progress, |start|, xs, reports)
      invariant offset == OffsetAfter(xs) && checksumMatched == Verdict(xs)
      decreases |session.script|
    {
      var part;
      part, xs, reports := UploadChunk(session, job, offset, progress, start, base, xs, reports);
      if part.Err? {
        RequestsAre(job, progress, |start|, xs, reports, Err(part.error));
        return Err(part.error), xs, reports;
      }
      offset := part.value.0;
      if part.value.1.Some? {
        checksumMatched := part.value.1;
      }
    }
    AllUploaded(job, progress, |start|, xs, reports);
    if checksumMatched == Some(false) {
      RequestsAre(job, progress, |start|, xs, reports, Err(ChecksumMismatchOnDevice));
      return Err(ChecksumMismatchOnDevice), xs, reports;
    }
    RequestsAre(job, progress, |start|, xs, reports, Ok(()));
    if data != [] {
      LastOffset(xs);
    }
    return Ok(()), xs, reports;
  }

  // What the k-th request carries: the offset that the device reported last, as much data from there on as
  // allowed, and at offset 0, but only there, what identifies the session.
  predicate Carries(xs: seq<Exchange>, k: nat, data: Blob, image: Option<u32>, sha: Hash, upgradeOnly: bool,
                    chunkSize: u64)
    requires k < |xs|
  {
    && (k > 0 ==> xs[k - 1].outcome.Ok? && xs[k - 1].outcome.value.ImageUploaded?)
    && var off := if k == 0 then 0 else xs[k - 1].outcome.value.off;
       && off < |data| && xs[k].command.UploadImage?
       && var u, end := xs[k].command.image, if |data| - off < chunkSize then |data| else off + chunkSize;
          && u.off == off && u.data == data[off..end]
          && if off == 0 then
               && u.image == image && u.len == Some(|data|) && u.sha == Some(sha)
               && u.upgrade == Some(upgradeOnly)
             else u.image == None && u.len == None && u.sha == None && u.upgrade == None
  }

  lemma RequestsAre(job: Job, progress: Option<Topic>, before: nat, xs: seq<Exchange>, reports: seq<Report>,
                    r: Result<(), ClientError>)
    requires Finished(job, progress, before, xs, reports, r)
    ensures forall k :: 0 <= k < |xs| ==>
      Carries(xs, k, job.data, job.image, job.sha, job.upgradeOnly, job.chunkSize)
  {
    hide Told, AllGoOn, Stopped, Verdict, Carries, OffsetAfter;
    forall k | 0 <= k < |xs|
      ensures Carries(xs, k, job.data, job.image, job.sha, job.upgradeOnly, job.chunkSize)
    {
      var earlier := xs[..|xs| - 1];
      assert AllAccepted(earlier);
      assert k > 0 ==> earlier[k - 1] == xs[k - 1];
      RequestIs(job, xs, k);
    }
  }

  lemma RequestIs(job: Job, xs: seq<Exchange>, k: nat)
    requires k < |xs| && (k > 0 ==> Accepted(xs[k - 1])) && OffsetAfter(xs[..k]) < |job.data|
    requires xs[k].command == UploadImage(job.RequestAt(OffsetAfter(xs[..k])))
    ensures Carries(xs, k, job.data, job.image, job.sha, job.upgradeOnly, job.chunkSize)
  {
    assert k > 0 ==> xs[..k][k - 1] == xs[k - 1];
  }

  lemma LastOffset(xs: seq<Exchange>)
    requires OffsetAfter(xs) > 0
    ensures xs != [] && Accepted(xs[|xs| - 1]) && xs[|xs| - 1].outcome.value.off == OffsetAfter(xs)
  {
  }

  // The verdict that counts is the last one.

  predicate Says(x: Exchange, isMatch: bool) {
    && x.outcome.Ok? && x.outcome.value.ImageUploaded?
    && x.outcome.value.isMatch.Some? && x.outcome.value.isMatch.value == isMatch
  }

  predicate SaysLast(xs: seq<Exchange>, k: nat, isMatch: bool)
    requires k < |xs|
  {
    Says(xs[k], isMatch) && forall j :: k < j < |xs| ==> !Says(xs[j], true) && !Says(xs[j], false)
  }

  lemma {:induction false} VerdictIsLast(xs: seq<Exchange>, isMatch: bool)
    ensures Verdict(xs) == Some(isMatch) <==> exists k :: 0 <= k < |xs| && SaysLast(xs, k, isMatch)
  {
    if xs != [] {
      var n := |xs| - 1;
      var earlier := xs[..n];
      VerdictIsLast(earlier, isMatch);
      if Says(xs[n], true) || Says(xs[n], false) {
        assert SaysLast(xs, n, isMatch) <==> Says(xs[n], isMatch);
      } else {
        forall k | 0 <= k < n
          ensures SaysLast(xs, k, isMatch) <==> SaysLast(earlier, k, isMatch)
        {
          assert forall j :: 0 <= j < n ==> earlier[j] == xs[j];
        }
        assert !Says(xs[n], isMatch) && Verdict(xs) == Verdict(earlier);
        if k :| 0 <= k < n && SaysLast(earlier, k, isMatch) {
          assert SaysLast(xs, k, isMatch);
        }
      }
    }
  }

  // One round of the loop: sends a chunk and reports the new offset; returns it and the device's verdict.
  method UploadChunk(session: Session, job: Job, offset: nat, progress: Option<Topic>, ghost start: seq<Exchange>,
                     ghost base: seq<Report>, ghost earlier: seq<Exchange>, ghost told: seq<Report>)
      returns (r: Result<(nat, Option<bool>), ClientError>, ghost xs: seq<Exchange>, ghost reports: seq<Report>)
    requires session.exchanges == start + earlier && session.reports == base + told
    requires Uploading(job, progress, |start|, earlier, told) && offset == OffsetAfter(earlier) < |job.data|
    modifies session`script, session`exchanges, session`answers, session`reports
    ensures session.exchanges == start + xs && session.reports == base + reports
    ensures r.Ok? ==> |session.script| < |old(session.script)|
    ensures r.Ok? ==> Uploading(job, progress, |start|, xs, reports) && r.value.0 == OffsetAfter(xs)
    ensures r.Ok? ==> Verdict(xs) == if r.value.1.Some? then r.value.1 else Verdict(earlier)
    ensures r.Err? ==>
      && r.error != FrameSizeTooSmall && r.error != ChecksumMismatch
      && Finished(job, progress, |start|, xs, reports, Err(r.error))
  {
    hide Follows, Told, OffsetAfter, Verdict, AllAccepted, AllGoOn, Stopped;
    xs, reports := earlier, told;
    var size := |job.data|;
    var currentChunkSize := if size - offset < job.chunkSize then size - offset else job.chunkSize;
    var chunkData := job.data[offset..offset + currentChunkSize];
    var request :=
      if offset == 0 then
        ImageUpload(job.image, Some(size), offset, Some(job.sha), chunkData, Some(job.upgradeOnly))
      else
        ImageUpload(None, None, offset, None, chunkData, None);
    var outcome := session.Execute(UploadImage(request));
    ghost var x := Exchange(UploadImage(request), outcome);
    xs := earlier + [x];
    assert request == job.RequestAt(offset);
    FollowsAppend(job, earlier, x);
    if progress.Some? {
      ToldMore(reports, progress.value, earlier, x, |start|, size);
    }
    if outcome.Err? {
      return Err(ExecuteFailed(outcome.error)), xs, reports;
    }
    AfterAppend(earlier, x);
    var newOffset := outcome.value.off;
    if newOffset > size {
      return Err(UnexpectedOffset), xs, reports;
    }
    var goOn;
    goOn, reports := TellOffset(session, progress, newOffset, size, xs, |start|, reports);
    if !goOn {
      return Err(ProgressCallbackError), xs, reports;
    }
    return Ok((newOffset, outcome.value.isMatch)), xs, reports;
  }

  lemma NothingYet(job: Job, progress: Option<Topic>, before: nat)
    ensures Uploading(job, progress, before, [], []) && OffsetAfter([]) == 0 && Verdict([]) == None
  {
  }

  lemma AllUploaded(job: Job, progress: Option<Topic>, before: nat, xs: seq<Exchange>, reports: seq<Report>)
    requires Uploading(job, progress, before, xs, reports) && OffsetAfter(xs) >= |job.data|
    ensures OffsetAfter(xs) == |job.data|
    ensures Verdict(xs) != Some(false) ==> Finished(job, progress, before, xs, reports, Ok(()))
    ensures Verdict(xs) == Some(false) ==> Finished(job, progress, before, xs, reports, Err(ChecksumMismatchOnDevice))
  {
    hide Follows, Told, OffsetAfter, Verdict, AllAccepted, AllGoOn;
  }

  // Every request fits into the frame, and so is neither too big to encode nor too big to send.
  lemma RequestsFit(frameSize: u64, job: Job, xs: seq<Exchange>, k: nat)
    requires ImageUploadMaxDataChunkSize(frameSize) == Some(job.chunkSize)
    requires Follows(job, xs) && k < |xs|
    ensures var encoded := xs[k].command.image.Encode();
            && SMP_HEADER_SIZE + |encoded| <= frameSize
            && (frameSize <= 65533 ==> |encoded| <= SEND_BUFFER_SIZE && |encoded| + 10 < 0x1_0000)
  {
    hide Commands.ImageUpload.Encode, ImageUploadMaxDataChunkSize, OffsetAfter;
    ImageRequestFits(frameSize, xs[k].command.image);
  }

  // An honest device: it keeps one upload session, identified by the hash of the image, appends data only
  // where it left off, and always replies with how much it has. It may resume a session or start over.

  datatype Device = Device(sha: Option<Hash>, stored: seq<byte>) {
    function Handle(u: ImageUpload, resume: bool): Device {
      if u.off == 0 then
        if resume && u.sha.Some? && sha == u.sha && stored != [] then this
        else Device(u.sha, u.data)
      else if u.off == |stored| then Device(sha, stored + u.data)
      else this
    }

    // What it holds belongs to the image with that hash.
    ghost predicate Holds(data: Blob, hash: Hash) {
      sha == Some(hash) && stored <= data
    }
  }

  // What happens to one attempt of a command.
  datatype Fate = Fate(arrives: bool, resume: bool, replyArrives: bool)

  // A command is repeated until a reply arrives, or the attempts are used up.
  function Deliver(device: Device, u: ImageUpload, fates: seq<Fate>): (Device, Option<nat>)
    decreases fates
  {
    if fates == [] then (device, None)
    else
      var next := if fates[0].arrives then device.Handle(u, fates[0].resume) else device;
      if fates[0].arrives && fates[0].replyArrives then (next, Some(|next.stored|))
      else Deliver(next, u, fates[1..])
  }

  // The device after some commands.
  function DeviceAfter(device: Device, xs: seq<Exchange>, fates: seq<seq<Fate>>): Device
    requires |fates| == |xs| && forall k :: 0 <= k < |xs| ==> xs[k].command.UploadImage?
    decreases xs
  {
    if xs == [] then device
    else
      var n := |xs| - 1;
      Deliver(DeviceAfter(device, xs[..n], fates[..n]), xs[n].command.image, fates[n]).0
  }

  // The client saw the replies of this device.
  predicate Served(device: Device, xs: seq<Exchange>, fates: seq<seq<Fate>>) {
    && |fates| == |xs| && (forall k :: 0 <= k < |xs| ==> xs[k].command.UploadImage?)
    && forall k :: 0 <= k < |xs| ==>
         && var reply := Deliver(DeviceAfter(device, xs[..k], fates[..k]), xs[k].command.image, fates[k]).1;
         && (Accepted(xs[k]) <==> reply.Some?)
         && (reply.Some? ==> xs[k].outcome.value.off == reply.value)
  }

  // An earlier session with the same hash was for the same image; this is where SHA-256 must not collide.
  ghost predicate Compatible(device: Device, job: Job) {
    device.sha == Some(job.sha) ==> device.stored <= job.data
  }

  lemma HandleKeeps(job: Job, device: Device, off: nat, resume: bool)
    requires off < |job.data| && job.chunkSize > 0
    requires if off == 0 then Compatible(device, job) else device.Holds(job.data, job.sha)
    ensures device.Handle(job.RequestAt(off), resume).Holds(job.data, job.sha)
    ensures off > 0 ==> |device.Handle(job.RequestAt(off), resume).stored| >= |device.stored|
    ensures off == |device.stored| || off == 0 ==> |device.Handle(job.RequestAt(off), resume).stored| > off
  {
  }

  // A command either never arrives, or leaves a device that holds a prefix of the image and has more than
  // the offset the command was for.
  lemma {:induction false} DeliverKeeps(job: Job, device: Device, off: nat, fates: seq<Fate>)
    requires off < |job.data| && job.chunkSize > 0
    requires if off == 0 then Compatible(device, job) else device.Holds(job.data, job.sha) && off <= |device.stored|
    ensures var (after, reply) := Deliver(device, job.RequestAt(off), fates);
            && (after == device || (after.Holds(job.data, job.sha) && |after.stored| > off))
            && (reply.Some? ==>
                  after.Holds(job.data, job.sha) && off < reply.value == |after.stored|)
    decreases fates
  {
    hide Job.RequestAt, Device.Handle;
    if fates != [] {
      if fates[0].arrives {
        HandleKeeps(job, device, off, fates[0].resume);
        if off < |device.stored| {
          HandleMore(job, device, off, fates[0].resume);
        }
        DeliverKeeps(job, device.Handle(job.RequestAt(off), fates[0].resume), off, fates[1..]);
      } else {
        DeliverKeeps(job, device, off, fates[1..]);
      }
    }
  }

  lemma HandleMore(job: Job, device: Device, off: nat, resume: bool)
    requires 0 <= off < |job.data| && off < |device.stored| && job.chunkSize > 0
    ensures |device.Handle(job.RequestAt(off), resume).stored| > off
  {
  }

  lemma ServedPrefix(job: Job, device: Device, xs: seq<Exchange>, fates: seq<seq<Fate>>, n: nat)
    requires Follows(job, xs) && Served(device, xs, fates) && n <= |xs|
    ensures Follows(job, xs[..n]) && Served(device, xs[..n], fates[..n])
  {
    hide Job.RequestAt, OffsetAfter, Deliver, DeviceAfter;
    assert forall k :: 0 <= k < n ==> xs[..n][..k] == xs[..k] && fates[..n][..k] == fates[..k];
  }

  // As long as commands succeed, the client's offset is what the device has, and it grows every time.
  lemma {:induction false} OffsetsAgree(job: Job, device: Device, xs: seq<Exchange>, fates: seq<seq<Fate>>)
    requires Follows(job, xs) && Served(device, xs, fates) && Compatible(device, job) && job.chunkSize > 0
    requires AllAccepted(xs)
    ensures var d := DeviceAfter(device, xs, fates);
            && |xs| <= OffsetAfter(xs) <= |job.data|
            && if xs == [] then d == device else d.Holds(job.data, job.sha) && |d.stored| == OffsetAfter(xs)
    decreases xs
  {
    hide Job.RequestAt, Deliver;
    if xs != [] {
      var n := |xs| - 1;
      ServedPrefix(job, device, xs, fates, n);
      OffsetsAgree(job, device, xs[..n], fates[..n]);
      var before := DeviceAfter(device, xs[..n], fates[..n]);
      DeliverKeeps(job, before, OffsetAfter(xs[..n]), fates[n]);
      assert Accepted(xs[n]);
    }
  }

  lemma Untouched(device: Device)
    ensures DeviceAfter(device, [], []) == device
  {
  }

  lemma AcceptedPrefix(xs: seq<Exchange>, n: nat)
    requires 0 < n <= |xs| && AllAccepted(xs[..|xs| - 1])
    ensures AllAccepted(xs[..n][..n - 1])
  {
    var part, whole := xs[..n][..n - 1], xs[..|xs| - 1];
    assert forall k :: 0 <= k < n - 1 ==> part[k] == whole[k];
  }

  lemma LastCommand(job: Job, device: Device, xs: seq<Exchange>, fates: seq<seq<Fate>>)
    requires Follows(job, xs) && Served(device, xs, fates) && Compatible(device, job) && job.chunkSize > 0
    requires xs != [] && AllAccepted(xs[..|xs| - 1])
    ensures var d := DeviceAfter(device, xs, fates);
            d == device || d.Holds(job.data, job.sha)
  {
    hide Job.RequestAt, Deliver, OffsetAfter;
    var n := |xs| - 1;
    ServedPrefix(job, device, xs, fates, n);
    OffsetsAgree(job, device, xs[..n], fates[..n]);
    NoOffsetYet();
    DeliverKeeps(job, DeviceAfter(device, xs[..n], fates[..n]), OffsetAfter(xs[..n]), fates[n]);
  }

  // At any time during the upload the device is untouched or holds a prefix of the image.
  lemma DeviceHoldsAPrefix(job: Job, device: Device, xs: seq<Exchange>, fates: seq<seq<Fate>>, n: nat)
    requires Follows(job, xs) && Served(device, xs, fates) && Compatible(device, job) && job.chunkSize > 0
    requires n <= |xs| && (xs != [] ==> AllAccepted(xs[..|xs| - 1]))
    ensures var d := DeviceAfter(device, xs[..n], fates[..n]);
            d == device || d.Holds(job.data, job.sha)
  {
    hide Follows, Compatible, AllAccepted, DeviceAfter, Deliver, Device.Holds, OffsetAfter;
    ServedPrefix(job, device, xs, fates, n);
    if n == 0 {
      Untouched(device);
      assert xs[..0] == [] && fates[..0] == [];
    } else {
      AcceptedPrefix(xs, n);
      LastCommand(job, device, xs[..n], fates[..n]);
    }
  }

  lemma NoOffsetYet()
    ensures OffsetAfter([]) == 0
  {
  }

  // Against an honest device a successful upload delivers exactly the image; it takes at most one command
  // per byte, and never complains about an offset.
  lemma UploadDelivers(job: Job, device: Device, xs: seq<Exchange>, fates: seq<seq<Fate>>, reports: seq<Report>,
                       r: Result<(), ClientError>)
    requires Follows(job, xs) && Served(device, xs, fates) && Compatible(device, job) && job.chunkSize > 0
    requires Ended(job, xs, reports, r)
    ensures r.Ok? && job.data != [] ==> DeviceAfter(device, xs, fates).stored == job.data
    ensures |xs| <= |job.data|
    ensures r != Err(UnexpectedOffset)
    ensures (forall k :: 0 <= k < |xs| ==> Accepted(xs[k])) && AllGoOn(reports) ==>
            r.Ok? || r == Err(ChecksumMismatchOnDevice)
  {
    hide Job.RequestAt, Deliver, OffsetAfter, DeviceAfter, Verdict;
    NoOffsetYet();
    if AllAccepted(xs) {
      OffsetsAgree(job, device, xs, fates);
    } else {
      var n := |xs| - 1;
      assert AllAccepted(xs[..n]);
      ServedPrefix(job, device, xs, fates, n);
      OffsetsAgree(job, device, xs[..n], fates[..n]);
    }
  }
}
