/** The firmware update procedure: which commands it sends, in which order, and when. */
module FirmwareUpdate {
  import opened Bytes
  import opened Wrappers
  import opened Cbor
  import opened Commands
  import opened Connection
  import opened Client
  import opened Mcuboot
  import ImageTransfer

  datatype Params = Params(
    bootloaderType: Option<BootloaderType>,
    skipReboot: bool,
    forceConfirm: bool,
    upgradeOnly: bool
  )

  datatype UpdateError =
    | ProgressCallbackError
    | BootloaderDetectionFailed(client: ClientError)
    | BootloaderNotSupported(name: string)
    | InvalidMcuBootFirmwareImage(parse: ImageParseError)
    | GetStateFailed(client: ClientError)
    | ImageUploadFailed(client: ClientError)
    | SetStateFailed(client: ClientError)
    | RebootFailed(client: ClientError)
    | AlreadyInstalled

  // What the caller asked for, and the circumstances: the configured frame size, the number of commands
  // executed before, and the SHA-256 hash of the firmware.
  datatype Order = Order(
    firmware: Blob,
    checksum: Option<Hash>,
    params: Params,
    hasProgress: bool,
    frameSize: u64,
    sent: nat,
    sha: Hash
  ) {
    // What the firmware says about itself; the hash is meaningless if it does not parse.
    function Info(): ImageInfo {
      match Parse(firmware)
      case Ok(info) => info
      case Err(_) => ImageInfo(ImageVersion(0, 0, 0, 0), seq(32, i => 0))
    }

    // The upload it leads to.
    function UploadJob(): ImageTransfer.Job
      requires ImageUploadMaxDataChunkSize(frameSize).Some?
    {
      ImageTransfer.Job(firmware, None, sha, params.upgradeOnly, ImageUploadMaxDataChunkSize(frameSize).value)
    }
  }

  // The commands of one update, stage by stage; a stage that was not reached is empty.
  datatype Trace = Trace(
    detect: seq<Exchange>,
    query: seq<Exchange>,
    upload: seq<Exchange>,
    activate: seq<Exchange>,
    recheck: seq<Exchange>,
    reset: seq<Exchange>
  ) {
    function All(): (all: seq<Exchange>)
      ensures |all| == |detect| + |query| + |upload| + |activate| + |recheck| + |reset|
    {
      detect + query + upload + activate + recheck + reset
    }
  }

  const NO_COMMANDS: Trace := Trace([], [], [], [], [], [])

  predicate IsActive(i: ImageState) {
    i.image == 0 && i.active
  }

  predicate IsInSlot0(i: ImageState) {
    i.image == 0 && i.slot == 0
  }

  predicate FirstAt(images: seq<ImageState>, k: nat, p: ImageState -> bool)
    requires k < |images|
  {
    p(images[k]) && forall j :: 0 <= j < k ==> !p(images[j])
  }

  // The first active image, or else the first one in slot 0.
  function ActiveImage(images: seq<ImageState>): (found: Option<ImageState>)
    ensures found.Some? ==>
            exists k :: 0 <= k < |images| && images[k] == found.value
                        && FirstAt(images, k, if found.value.active then IsActive else IsInSlot0)
    ensures found.Some? && !found.value.active ==> forall i :: i in images ==> !IsActive(i)
    ensures found.None? ==> forall i :: i in images ==> !IsActive(i) && !IsInSlot0(i)
  {
    var active := First(images, IsActive);
    if active.Some? then active else First(images, IsInSlot0)
  }

  function First(images: seq<ImageState>, p: ImageState -> bool): (found: Option<ImageState>)
    ensures found.Some? ==> exists k :: 0 <= k < |images| && images[k] == found.value && FirstAt(images, k, p)
    ensures found.None? ==> forall i :: i in images ==> !p(i)
  {
    if images == [] then None
    else if p(images[0]) then
      assert FirstAt(images, 0, p);
      Some(images[0])
    else
      var found := First(images[1..], p);
      assert found.Some? ==> exists k :: 0 <= k < |images[1..]| && images[1..][k] == found.value && FirstAt(images, k + 1, p);
      found
  }

  // The hash is that of the image in the first slot.
  predicate InFirstSlot(images: seq<ImageState>, hash: Hash) {
    exists i :: i in images && i.image == 0 && i.slot == 0 && i.hash == Some(hash)
  }

  predicate ShowsImages(xs: seq<Exchange>) {
    |xs| == 1 && xs[0].outcome.Ok? && xs[0].outcome.value.ImageStates?
  }

  predicate RunsAlready(query: seq<Exchange>, hash: Hash) {
    && ShowsImages(query)
    && var active := ActiveImage(query[0].outcome.value.images);
       active.Some? && active.value.hash == Some(hash)
  }

  // The device runs something else.
  predicate IsOutdated(query: seq<Exchange>, hash: Hash) {
    ShowsImages(query) && !RunsAlready(query, hash)
  }

  predicate Failed(xs: seq<Exchange>, e: ClientError) {
    xs != [] && e.ExecuteFailed? && xs[|xs| - 1].outcome == Err(e.error)
  }

  // A plain error with code 8: the device does not support the command.
  predicate Unsupported(xs: seq<Exchange>) {
    && |xs| == 1 && xs[0].outcome.Err? && xs[0].outcome.error.ErrorResponse?
    && xs[0].outcome.error.device.V1? && xs[0].outcome.error.device.rc == 8
  }

  // The bootloader was given, or the device said it has MCUboot.
  predicate BootloaderKnown(o: Order, detect: seq<Exchange>) {
    || o.params.bootloaderType.Some?
    || (|detect| == 2 && detect[0].outcome == Ok(Bootloader("MCUboot")) && detect[1].outcome.Ok?)
  }

  // Which commands a stage may consist of.
  predicate Stages(o: Order, t: Trace) {
    && |t.detect| <= 2 && |t.query| <= 1 && |t.activate| <= 1 && |t.recheck| <= 1 && |t.reset| <= 1
    && (t.detect != [] ==> o.params.bootloaderType.None? && t.detect[0].command == GetBootloaderInfo)
    && (|t.detect| == 2 ==> t.detect[0].outcome == Ok(Bootloader("MCUboot")) && t.detect[1].command == GetMcubootMode)
    && (forall x :: x in t.query + t.recheck ==> x.command == GetImageState)
    && (forall x :: x in t.upload ==> x.command.UploadImage?)
    && (forall x :: x in t.activate ==> x.command == SetImageState(Some(o.Info().hash), o.params.forceConfirm))
    && (forall x :: x in t.reset ==> x.command == SystemReset(false))
  }

  // The activation counts as done: the device accepted it, or it does not support it and holds the image in
  // its first slot.
  predicate Activated(t: Trace, hash: Hash) {
    && |t.activate| == 1
    && (t.activate[0].outcome.Ok? ||
        (Unsupported(t.activate) && ShowsImages(t.recheck) && InFirstSlot(t.recheck[0].outcome.value.images, hash)))
  }

  // When a stage may be reached.
  predicate Justified(o: Order, t: Trace) {
    && (t.query != [] ==> BootloaderKnown(o, t.detect) && Parse(o.firmware).Ok?)
    && (t.upload != [] ==>
          && IsOutdated(t.query, o.Info().hash) && ImageUploadMaxDataChunkSize(o.frameSize).Some?
          && ImageTransfer.Follows(o.UploadJob(), t.upload))
    && (t.activate != [] ==> IsOutdated(t.query, o.Info().hash))
    && (t.recheck != [] ==> Unsupported(t.activate))
    && (t.reset != [] ==> !o.params.skipReboot && Activated(t, o.Info().hash))
  }

  // How the upload stage ended.
  predicate UploadResult(o: Order, sent: nat, upload: seq<Exchange>, reports: seq<Report>, r: Result<(), ClientError>) {
    var chunkSize := ImageUploadMaxDataChunkSize(o.frameSize);
    && (r == Err(FrameSizeTooSmall) <==> chunkSize.None?)
    && (r == Err(ChecksumMismatch) <==> chunkSize.Some? && o.checksum.Some? && o.checksum.value != o.sha)
    && if r == Err(FrameSizeTooSmall) || r == Err(ChecksumMismatch) then upload == [] && reports == []
       else
         && ImageTransfer.Follows(o.UploadJob(), upload)
         && ImageTransfer.Ended(o.UploadJob(), upload, reports, r)
         && (o.hasProgress ==>
               ImageTransfer.Told(reports, Stage(UploadingFirmware), upload, o.sent + sent, |o.firmware|))
  }

  predicate Uploaded(o: Order, t: Trace, uploadReports: seq<Report>) {
    UploadResult(o, |t.detect| + |t.query|, t.upload, uploadReports, Ok(()))
  }

  // How the update ended, in terms of the stage that decided it.
  predicate Explained(o: Order, t: Trace, uploadReports: seq<Report>, r: Result<(), UpdateError>) {
    match r
    case Ok(_) =>
      && Activated(t, o.Info().hash)
      && (if o.params.skipReboot then t.reset == [] else |t.reset| == 1 && t.reset[0].outcome.Ok?)
    case Err(BootloaderDetectionFailed(e)) =>
      t == NO_COMMANDS.(detect := t.detect) && Failed(t.detect, e)
    case Err(BootloaderNotSupported(name)) =>
      && t == NO_COMMANDS.(detect := t.detect)
      && name != "MCUboot" && |t.detect| == 1 && t.detect[0].outcome == Ok(Bootloader(name))
    case Err(InvalidMcuBootFirmwareImage(e)) =>
      t == NO_COMMANDS.(detect := t.detect) && BootloaderKnown(o, t.detect) && Parse(o.firmware) == Err(e)
    case Err(GetStateFailed(e)) =>
      || (t == NO_COMMANDS.(detect := t.detect, query := t.query) && Failed(t.query, e))
      || (t.reset == [] && Failed(t.recheck, e))
    case Err(AlreadyInstalled) =>
      t == NO_COMMANDS.(detect := t.detect, query := t.query) && RunsAlready(t.query, o.Info().hash)
    case Err(ImageUploadFailed(e)) =>
      && t.activate == [] && t.recheck == [] && t.reset == []
      && IsOutdated(t.query, o.Info().hash) && e != ClientError.ProgressCallbackError
      && UploadResult(o, |t.detect| + |t.query|, t.upload, uploadReports, Err(e))
    case Err(SetStateFailed(e)) =>
      && t.reset == [] && Failed(t.activate, e)
      && (Unsupported(t.activate) ==> ShowsImages(t.recheck) && !Activated(t, o.Info().hash))
    case Err(RebootFailed(e)) => Failed(t.reset, e)
    case Err(ProgressCallbackError) => Stoppable(o, t, uploadReports)
  }

  // Where the callback is asked: not after a failure that ends the update anyway.
  predicate Stoppable(o: Order, t: Trace, uploadReports: seq<Report>) {
    && (t.detect != [] ==> BootloaderKnown(o, t.detect))
    && (t.query != [] ==> ShowsImages(t.query))
    && (t.upload != [] && t.activate == [] ==>
          || UploadResult(o, |t.detect| + |t.query|, t.upload, uploadReports, Ok(()))
          || UploadResult(o, |t.detect| + |t.query|, t.upload, uploadReports, Err(ClientError.ProgressCallbackError)))
    && (t.activate != [] ==> if t.activate[0].outcome.Ok? then !o.params.skipReboot else Unsupported(t.activate))
    && (t.recheck != [] ==> Activated(t, o.Info().hash) && !o.params.skipReboot)
    && t.reset == []
  }

  // Everything about one update that does not concern the callback.
  ghost predicate Proper(o: Order, t: Trace, uploadReports: seq<Report>, r: Result<(), UpdateError>) {
    && Stages(o, t) && Justified(o, t) && Explained(o, t, uploadReports, r)
    && (t.activate != [] ==> Uploaded(o, t, uploadReports))
  }

  // The callback.

  // The callback stopped the update exactly if it failed with the callback's error; nothing came after.
  predicate Cancellation(reports: seq<Report>, sent: nat, cancelled: bool) {
    if cancelled then Stopped(reports) && reports[|reports| - 1].sent == sent else AllGoOn(reports)
  }

  // The callback has agreed to a step, when that many commands of the update had been executed.
  predicate Agreed(o: Order, step: UpdateStep, sent: nat, reports: seq<Report>) {
    o.hasProgress ==> Report(Stage(step), None, o.sent + sent, true) in reports
  }

  // What the callback is told about the image in place.
  function Current(query: seq<Exchange>): Option<(string, Option<Hash>)>
    requires ShowsImages(query)
  {
    match ActiveImage(query[0].outcome.value.images)
    case Some(active) => Some((active.version, active.hash))
    case None => None
  }

  // No stage was begun before the callback had agreed to it.
  predicate Consulted(o: Order, t: Trace, reports: seq<Report>) {
    && var queried := |t.detect| + |t.query|;
    && var uploaded := queried + |t.upload|;
    && (t.detect != [] ==> Agreed(o, DetectingBootloader, 0, reports))
    && (t.query != [] ==>
          && (t.detect != [] ==> Agreed(o, BootloaderFound(MCUboot), |t.detect|, reports))
          && Agreed(o, ParsingFirmwareImage, |t.detect|, reports)
          && Agreed(o, QueryingDeviceState, |t.detect|, reports))
    && (t.upload != [] ==>
          && ShowsImages(t.query)
          && Agreed(o, UpdateInfo(Current(t.query), o.Info()), queried, reports)
          && Agreed(o, UploadingFirmware, queried, reports))
    && (t.activate != [] ==> Agreed(o, ActivatingFirmware, uploaded, reports))
    && (t.recheck != [] ==> Agreed(o, QueryingDeviceState, uploaded + |t.activate|, reports))
    && (t.reset != [] ==> Agreed(o, TriggeringReboot, uploaded + |t.activate| + |t.recheck|, reports))
  }

  lemma StillConsulted(o: Order, t: Trace, reports: seq<Report>, more: seq<Report>)
    requires Consulted(o, t, reports) && reports <= more
    ensures Consulted(o, t, more)
  {
    assert forall x :: x in reports ==> x in more;
  }

  // Calls the callback, if there is one, about a step.
  method Progress(session: Session, o: Order, step: UpdateStep, ghost t: Trace, ghost base: seq<Report>,
                  ghost reports: seq<Report>)
      returns (goOn: bool, ghost more: seq<Report>)
    requires AllGoOn(reports) && session.reports == base + reports
    requires |session.exchanges| == o.sent + |t.All()| && Consulted(o, t, reports)
    modifies session`answers, session`reports
    ensures session.reports == base + more && reports <= more
    ensures Cancellation(more, |session.exchanges|, !goOn)
    ensures goOn ==> Agreed(o, step, |t.All()|, more)
    ensures Consulted(o, t, more)
    ensures !o.hasProgress ==> goOn && more == reports
  {
    hide Consulted;
    goOn, more := true, reports;
    if o.hasProgress {
      goOn := session.Tell(Stage(step), None);
      more := reports + [Report(Stage(step), None, |session.exchanges|, goOn)];
      assert more[..|more| - 1] == reports;
      assert more[|more| - 1] in more;
    }
    StillConsulted(o, t, reports, more);
  }

  // The stages, one by one.

  // Asks the device for its bootloader.
  method DetectBootloader(session: Session, ghost o: Order)
      returns (r: Result<BootloaderType, UpdateError>, ghost detect: seq<Exchange>)
    requires o.params.bootloaderType.None?
    modifies session`script, session`exchanges
    ensures session.exchanges == old(session.exchanges) + detect
    ensures detect != [] && Stages(o, NO_COMMANDS.(detect := detect))
    ensures r.Ok? ==> r.value == MCUboot && BootloaderKnown(o, detect)
    ensures r.Err? ==> (r.error.BootloaderDetectionFailed? || r.error.BootloaderNotSupported?)
                       && Explained(o, NO_COMMANDS.(detect := detect), [], Err(r.error))
  {
    var info := session.Execute(GetBootloaderInfo);
    detect := [Exchange(GetBootloaderInfo, info)];
    if info.Err? {
      return Err(BootloaderDetectionFailed(ExecuteFailed(info.error))), detect;
    }
    if info.value.name != "MCUboot" {
      return Err(BootloaderNotSupported(info.value.name)), detect;
    }
    var mode := session.Execute(GetMcubootMode);
    detect := detect + [Exchange(GetMcubootMode, mode)];
    if mode.Err? {
      return Err(BootloaderDetectionFailed(ExecuteFailed(mode.error))), detect;
    }
    return Ok(MCUboot), detect;
  }

  // What an update may end with, stage by stage.

  // Nothing but the bootloader was asked for.
  ghost predicate Detected(o: Order, t: Trace) {
    t == NO_COMMANDS.(detect := t.detect) && Stages(o, t)
  }

  lemma AfterDetection(o: Order, t: Trace)
    requires Detected(o, t)
    ensures BootloaderKnown(o, t.detect) ==> Proper(o, t, [], Err(UpdateError.ProgressCallbackError))
    ensures forall r :: Explained(o, t, [], r) ==> Proper(o, t, [], r)
    ensures BootloaderKnown(o, t.detect) && Parse(o.firmware).Err? ==>
            Proper(o, t, [], Err(InvalidMcuBootFirmwareImage(Parse(o.firmware).error)))
  {
    hide Parse, Order.Info, Uploaded;
  }

  // The device was queried and runs something else.
  ghost predicate Queried(o: Order, t: Trace) {
    && Stages(o, t) && t == NO_COMMANDS.(detect := t.detect, query := t.query)
    && BootloaderKnown(o, t.detect) && Parse(o.firmware).Ok? && IsOutdated(t.query, o.Info().hash)
  }

  lemma AfterQuery(o: Order, before: Trace, x: Exchange)
    requires Detected(o, before) && BootloaderKnown(o, before.detect) && Parse(o.firmware).Ok?
    requires x.command == GetImageState
    ensures var t := before.(query := [x]);
            && (ShowsImages([x]) ==> Proper(o, t, [], Err(UpdateError.ProgressCallbackError)))
            && (x.outcome.Err? ==> Proper(o, t, [], Err(GetStateFailed(ExecuteFailed(x.outcome.error)))))
            && (RunsAlready([x], o.Info().hash) ==> Proper(o, t, [], Err(AlreadyInstalled)))
            && (IsOutdated([x], o.Info().hash) ==> Queried(o, t))
  {
    hide Parse, Uploaded, RunsAlready, Order.Info;
  }

  lemma AfterUpload(o: Order, before: Trace, upload: seq<Exchange>, uploadReports: seq<Report>,
                    r: Result<(), ClientError>)
    requires Queried(o, before)
    requires UploadResult(o, |before.detect| + |before.query|, upload, uploadReports, r)
    requires forall x :: x in upload ==> x.command.UploadImage?
    ensures var t := before.(upload := upload);
            && (r.Ok? || r.error == ClientError.ProgressCallbackError ==>
                  Proper(o, t, uploadReports, Err(UpdateError.ProgressCallbackError)))
            && (r.Err? && r.error != ClientError.ProgressCallbackError ==>
                  Proper(o, t, uploadReports, Err(ImageUploadFailed(r.error))))
            && (r.Ok? ==> ReadyToActivate(o, t, uploadReports))
  {
    hide Parse, RunsAlready, Order.Info, ImageTransfer.Follows, ImageTransfer.Ended, ImageTransfer.Told,
      ImageUploadMaxDataChunkSize;
    if r.Ok? {
      OnlyUnit(r.value);
    }
  }

  lemma OnlyUnit(u: ())
    ensures u == ()
  {
    match u
    case () =>
  }

  // The upload has succeeded.
  ghost predicate ReadyToActivate(o: Order, t: Trace, uploadReports: seq<Report>) {
    && Stages(o, t) && Justified(o, t) && t.activate + t.recheck + t.reset == []
    && t.query != [] && IsOutdated(t.query, o.Info().hash) && Uploaded(o, t, uploadReports)
  }

  // Which commands may follow.
  lemma LaterStages(o: Order, before: Trace, uploadReports: seq<Report>, t: Trace)
    requires ReadyToActivate(o, before, uploadReports)
    requires t == before.(activate := t.activate, recheck := t.recheck, reset := t.reset)
    requires |t.activate| == 1 && t.activate[0].command == SetImageState(Some(o.Info().hash), o.params.forceConfirm)
    requires t.recheck == [] || (|t.recheck| == 1 && t.recheck[0].command == GetImageState && Unsupported(t.activate))
    requires t.reset == [] || (&& |t.reset| == 1 && t.reset[0].command == SystemReset(false)
                               && !o.params.skipReboot && Activated(t, o.Info().hash))
    ensures Stages(o, t) && Justified(o, t) && Uploaded(o, t, uploadReports)
    ensures BootloaderKnown(o, t.detect) && ShowsImages(t.query)
  {
    hide Stages, Activated, Order.Info, RunsAlready, UploadResult, BootloaderKnown, Parse, ImageTransfer.Follows,
      ImageUploadMaxDataChunkSize;
    StagesBefore(o, before, t);
    JustifiedBefore(o, before, t);
  }

  lemma StagesBefore(o: Order, before: Trace, t: Trace)
    requires Stages(o, before)
    requires t == before.(activate := t.activate, recheck := t.recheck, reset := t.reset)
    requires |t.activate| == 1 && t.activate[0].command == SetImageState(Some(o.Info().hash), o.params.forceConfirm)
    requires |t.recheck| <= 1 && (t.recheck != [] ==> t.recheck[0].command == GetImageState)
    requires |t.reset| <= 1 && (t.reset != [] ==> t.reset[0].command == SystemReset(false))
    ensures Stages(o, t)
  {
    hide Order.Info;
    assert forall x :: x in before.query ==> x in before.query + before.recheck;
  }

  lemma JustifiedBefore(o: Order, before: Trace, t: Trace)
    requires Justified(o, before) && before.query != [] && IsOutdated(before.query, o.Info().hash)
    requires t == before.(activate := t.activate, recheck := t.recheck, reset := t.reset)
    requires t.recheck != [] ==> Unsupported(t.activate)
    requires t.reset != [] ==> !o.params.skipReboot && Activated(t, o.Info().hash)
    ensures Justified(o, t)
  {
    hide Order.Info, Parse, IsOutdated, Activated, Unsupported, BootloaderKnown, ImageTransfer.Follows,
      ImageUploadMaxDataChunkSize;
  }

  lemma AfterActivation(o: Order, before: Trace, uploadReports: seq<Report>, x: Exchange)
    requires ReadyToActivate(o, before, uploadReports)
    requires x.command == SetImageState(Some(o.Info().hash), o.params.forceConfirm)
    ensures var t := before.(activate := [x]);
            && (Unsupported([x]) || (x.outcome.Ok? && !o.params.skipReboot) ==>
                  Proper(o, t, uploadReports, Err(UpdateError.ProgressCallbackError)))
            && (x.outcome.Err? && !Unsupported([x]) ==>
                  Proper(o, t, uploadReports, Err(SetStateFailed(ExecuteFailed(x.outcome.error)))))
            && (x.outcome.Ok? && o.params.skipReboot ==> Proper(o, t, uploadReports, Ok(())))
  {
    hide Order.Info, Stages, Justified, ReadyToActivate, Uploaded, InFirstSlot;
    NothingAfter(o, before, uploadReports);
    LaterStages(o, before, uploadReports, before.(activate := [x]));
  }

  lemma AfterRecheck(o: Order, before: Trace, uploadReports: seq<Report>, x: Exchange, y: Exchange)
    requires ReadyToActivate(o, before, uploadReports)
    requires x.command == SetImageState(Some(o.Info().hash), o.params.forceConfirm) && Unsupported([x])
    requires y.command == GetImageState
    ensures var t := before.(activate := [x], recheck := [y]);
            && (ShowsImages([y]) && InFirstSlot(y.outcome.value.images, o.Info().hash) && !o.params.skipReboot ==>
                  Proper(o, t, uploadReports, Err(UpdateError.ProgressCallbackError)))
            && (y.outcome.Err? ==> Proper(o, t, uploadReports, Err(GetStateFailed(ExecuteFailed(y.outcome.error)))))
            && (ShowsImages([y]) && !InFirstSlot(y.outcome.value.images, o.Info().hash) ==>
                  Proper(o, t, uploadReports, Err(SetStateFailed(ExecuteFailed(x.outcome.error)))))
            && (ShowsImages([y]) && InFirstSlot(y.outcome.value.images, o.Info().hash) && o.params.skipReboot ==>
                  Proper(o, t, uploadReports, Ok(())))
  {
    hide Order.Info, Stages, Justified, ReadyToActivate, Uploaded, InFirstSlot;
    NothingAfter(o, before, uploadReports);
    LaterStages(o, before, uploadReports, before.(activate := [x], recheck := [y]));
  }

  lemma AfterReset(o: Order, before: Trace, uploadReports: seq<Report>, x: Exchange, recheck: seq<Exchange>,
                   z: Exchange)
    requires ReadyToActivate(o, before, uploadReports)
    requires x.command == SetImageState(Some(o.Info().hash), o.params.forceConfirm)
    requires z.command == SystemReset(false) && !o.params.skipReboot
    requires recheck == [] || (|recheck| == 1 && recheck[0].command == GetImageState && Unsupported([x]))
    requires Activated(before.(activate := [x], recheck := recheck), o.Info().hash)
    ensures var t := before.(activate := [x], recheck := recheck, reset := [z]);
            && (z.outcome.Err? ==> Proper(o, t, uploadReports, Err(RebootFailed(ExecuteFailed(z.outcome.error)))))
            && (z.outcome.Ok? ==> Proper(o, t, uploadReports, Ok(())))
  {
    hide Order.Info, Stages, Justified, ReadyToActivate, Uploaded, InFirstSlot;
    LaterStages(o, before, uploadReports, before.(activate := [x], recheck := recheck, reset := [z]));
  }

  predicate AnyInFirstSlot(images: seq<ImageState>, hash: Hash)
    ensures AnyInFirstSlot(images, hash) <==> InFirstSlot(images, hash)
  {
    if images == [] then false
    else
      var i := images[0];
      assert forall j :: j in images <==> j == i || j in images[1..];
      (i.image == 0 && i.slot == 0 && i.hash == Some(hash)) || AnyInFirstSlot(images[1..], hash)
  }

  lemma NothingSent(xs: seq<Exchange>)
    ensures xs == xs + NO_COMMANDS.All()
  {
  }

  // The commands before one more stage, and with it.
  lemma OneMoreStage(start: seq<Exchange>, before: Trace, t: Trace, stage: seq<Exchange>)
    requires t.All() == before.All() + stage
    ensures start + before.All() + stage == start + t.All()
  {
  }

  // The first stage: the bootloader is given, or the device is asked.
  method ChooseBootloader(session: Session, o: Order, ghost base: seq<Report>)
      returns (r: Result<BootloaderType, UpdateError>, ghost t: Trace, ghost reports: seq<Report>)
    requires session.reports == base && |session.exchanges| == o.sent
    modifies session`script, session`exchanges, session`answers, session`reports
    ensures Detected(o, t) && session.exchanges == old(session.exchanges) + t.All()
    ensures session.reports == base + reports && Consulted(o, t, reports)
    ensures r.Ok? ==> AllGoOn(reports) && BootloaderKnown(o, t.detect)
    ensures r.Ok? && t.detect != [] ==> Agreed(o, BootloaderFound(MCUboot), |t.detect|, reports)
    ensures r.Err? ==> Cancellation(reports, |session.exchanges|, r.error == UpdateError.ProgressCallbackError)
    ensures r.Err? ==> Explained(o, t, [], Err(r.error))
    ensures !o.hasProgress ==> reports == []
  {
    t, reports := NO_COMMANDS, [];
    NothingSent(session.exchanges);
    if o.params.bootloaderType.Some? {
      return Ok(o.params.bootloaderType.value), t, reports;
    }
    var goOn;
    goOn, reports := Progress(session, o, DetectingBootloader, t, base, reports);
    if !goOn {
      return Err(UpdateError.ProgressCallbackError), t, reports;
    }
    ghost var detect;
    r, detect := DetectBootloader(session, o);
    t := t.(detect := detect);
    assert t.All() == detect;
    if r.Err? {
      return r, t, reports;
    }
    goOn, reports := Progress(session, o, BootloaderFound(r.value), t, base, reports);
    if !goOn {
      return Err(UpdateError.ProgressCallbackError), t, reports;
    }
  }

  // The second stage: what the device runs now.
  method CompareState(session: Session, o: Order, info: ImageInfo, ghost start: seq<Exchange>, ghost base: seq<Report>,
                      ghost before: Trace, ghost told: seq<Report>)
      returns (r: Result<(), UpdateError>, ghost t: Trace, ghost reports: seq<Report>)
    requires Detected(o, before) && BootloaderKnown(o, before.detect) && Parse(o.firmware).Ok? && info == o.Info()
    requires session.exchanges == start + before.All() && session.reports == base + told && |start| == o.sent
    requires AllGoOn(told) && Consulted(o, before, told) && Agreed(o, ParsingFirmwareImage, |before.detect|, told)
    requires before.detect != [] ==> Agreed(o, BootloaderFound(MCUboot), |before.detect|, told)
    modifies session`script, session`exchanges, session`answers, session`reports
    ensures session.exchanges == start + t.All() && session.reports == base + reports && Consulted(o, t, reports)
    ensures t.upload == []
    ensures r.Ok? ==> Queried(o, t) && AllGoOn(reports)
    ensures r.Ok? ==> Agreed(o, UpdateInfo(Current(t.query), info), |t.detect| + |t.query|, reports)
    ensures r.Ok? ==> Proper(o, t, [], Err(UpdateError.ProgressCallbackError))
    ensures r.Err? ==> Proper(o, t, [], r)
    ensures r.Err? ==> Cancellation(reports, |session.exchanges|, r == Err(UpdateError.ProgressCallbackError))
    ensures !o.hasProgress ==> reports == told
  {
    hide Proper, Parse, Order.Info, ActiveImage, Stages, BootloaderKnown;
    t, reports := before, told;
    AfterDetection(o, before);
    var goOn;
    goOn, reports := Progress(session, o, QueryingDeviceState, before, base, reports);
    if !goOn {
      return Err(UpdateError.ProgressCallbackError), t, reports;
    }
    var state := session.Execute(GetImageState);
    ghost var x := Exchange(GetImageState, state);
    AfterQuery(o, before, x);
    t := before.(query := [x]);
    assert t.All() == before.All() + [x];
    OneMoreStage(start, before, t, [x]);
    assert forall y :: y in told ==> y in reports;
    assert Consulted(o, t, reports);
    if state.Err? {
      return Err(GetStateFailed(ExecuteFailed(state.error))), t, reports;
    }
    var active := ActiveImage(state.value.images);
    var current := if active.Some? then Some((active.value.version, active.value.hash)) else None;
    goOn, reports := Progress(session, o, UpdateInfo(current, info), t, base, reports);
    if !goOn {
      return Err(UpdateError.ProgressCallbackError), t, reports;
    }
    if active.Some? && active.value.hash == Some(info.hash) {
      return Err(AlreadyInstalled), t, reports;
    }
    return Ok(()), t, reports;
  }

  // A request with some bytes of the firmware for the default image; the first bytes come with its length and
  // its hash, and with the caller's wish to refuse downgrades.
  predicate IsPartOf(c: Command, firmware: Blob, upgradeOnly: bool, sha: Hash) {
    && c.UploadImage? && c.image.off < |firmware| && c.image.data <= firmware[c.image.off..]
    && c.image.image == None
    && if c.image.off == 0 then
         c.image.len == Some(|firmware|) && c.image.sha == Some(sha) && c.image.upgrade == Some(upgradeOnly)
       else c.image.len == None && c.image.sha == None && c.image.upgrade == None
  }

  lemma PartsOf(xs: seq<Exchange>, firmware: Blob, sha: Hash, upgradeOnly: bool, chunkSize: u64)
    requires forall k :: 0 <= k < |xs| ==> ImageTransfer.Carries(xs, k, firmware, None, sha, upgradeOnly, chunkSize)
    ensures forall x :: x in xs ==> IsPartOf(x.command, firmware, upgradeOnly, sha)
  {
    forall k | 0 <= k < |xs|
      ensures IsPartOf(xs[k].command, firmware, upgradeOnly, sha)
    {
      assert ImageTransfer.Carries(xs, k, firmware, None, sha, upgradeOnly, chunkSize);
      var u := xs[k].command.image;
      assert u.data == firmware[u.off..][..|u.data|];
    }
  }

  // The upload stage, with the callback's answers passed on.
  method UploadImage(session: Session, o: Order, sha256: Blob -> Hash, ghost start: seq<Exchange>,
                     ghost base: seq<Report>, ghost before: Trace, ghost told: seq<Report>)
      returns (r: Result<(), ClientError>, ghost t: Trace, ghost reports: seq<Report>, ghost uploadReports: seq<Report>)
    requires o.frameSize == session.frameSize && o.sha == sha256(o.firmware) && |start| == o.sent
    requires Queried(o, before) && AllGoOn(told) && Consulted(o, before, told)
    requires Agreed(o, UpdateInfo(Current(before.query), o.Info()), |before.detect| + |before.query|, told)
    requires Agreed(o, UploadingFirmware, |before.detect| + |before.query|, told)
    requires session.exchanges == start + before.All() && session.reports == base + told
    modifies session`script, session`exchanges, session`answers, session`reports
    ensures t == before.(upload := t.upload) && session.exchanges == start + t.All()
    ensures reports == told + uploadReports && session.reports == base + reports && Consulted(o, t, reports)
    ensures forall x :: x in t.upload ==> x.command.UploadImage?
    ensures forall x :: x in t.upload ==> IsPartOf(x.command, o.firmware, o.params.upgradeOnly, sha256(o.firmware))
    ensures UploadResult(o, |t.detect| + |t.query|, t.upload, uploadReports, r)
    ensures Cancellation(reports, |session.exchanges|, r == Err(ClientError.ProgressCallbackError))
    ensures !o.hasProgress ==> reports == told
  {
    hide UploadResult, Order.Info, Parse, Stages, BootloaderKnown, RunsAlready, ActiveImage, IsPartOf, AllGoOn, Agreed;
    ghost var xs;
    r, xs, uploadReports := Transfer(session, o, sha256, |before.All()|);
    t, reports := before.(upload := xs), told + uploadReports;
    assert t.All() == before.All() + xs;
    OneMoreStage(start, before, t, xs);
    ConsultedUpload(o, before, t, told, reports);
    ReportsAppend(told, uploadReports);
  }

  lemma ReportsAppend(told: seq<Report>, more: seq<Report>)
    requires AllGoOn(told)
    ensures AllGoOn(more) ==> AllGoOn(told + more)
    ensures Stopped(more) ==> Stopped(told + more) && (told + more)[|told + more| - 1] == more[|more| - 1]
  {
    if Stopped(more) {
      assert (told + more)[..|told + more| - 1] == told + more[..|more| - 1];
    }
  }

  lemma ConsultedUpload(o: Order, before: Trace, t: Trace, told: seq<Report>, reports: seq<Report>)
    requires Consulted(o, before, told) && Queried(o, before) && told <= reports
    requires Agreed(o, UpdateInfo(Current(before.query), o.Info()), |before.detect| + |before.query|, told)
    requires Agreed(o, UploadingFirmware, |before.detect| + |before.query|, told)
    requires t == before.(upload := t.upload)
    ensures Consulted(o, t, reports)
  {
    hide Order.Info, Current, Parse, Stages, BootloaderKnown, RunsAlready;
    assert forall x :: x in told ==> x in reports;
  }

  // The upload itself, after that many commands of the update.
  method Transfer(session: Session, o: Order, sha256: Blob -> Hash, ghost sent: nat)
      returns (r: Result<(), ClientError>, ghost xs: seq<Exchange>, ghost reports: seq<Report>)
    requires o.frameSize == session.frameSize && o.sha == sha256(o.firmware) && |session.exchanges| == o.sent + sent
    modifies session`script, session`exchanges, session`answers, session`reports
    ensures session.exchanges == old(session.exchanges) + xs && session.reports == old(session.reports) + reports
    ensures forall x :: x in xs ==> x.command.UploadImage?
    ensures forall x :: x in xs ==> IsPartOf(x.command, o.firmware, o.params.upgradeOnly, sha256(o.firmware))
    ensures UploadResult(o, sent, xs, reports, r)
    ensures Cancellation(reports, |session.exchanges|, r == Err(ClientError.ProgressCallbackError))
    ensures !o.hasProgress ==> reports == []
  {
    hide ImageUploadMaxDataChunkSize, ImageTransfer.Verdict, ImageTransfer.OffsetAfter, ImageTransfer.Carries,
      ImageTransfer.Follows, Stopped;
    r, xs, reports := ImageTransfer.Upload(
      session, o.firmware, None, o.checksum, o.params.upgradeOnly, sha256,
      if o.hasProgress then Some(Stage(UploadingFirmware)) else None);
    if xs != [] {
      PartsOf(xs, o.firmware, o.sha, o.params.upgradeOnly, ImageUploadMaxDataChunkSize(o.frameSize).value);
    }
    if r == Err(ClientError.ProgressCallbackError) {
      SomeReport(reports);
    }
  }

  lemma SomeReport(reports: seq<Report>)
    requires Stopped(reports)
    ensures reports != []
  {
  }

  // The last stages: activate and reboot.
  method Activate(session: Session, o: Order, hash: Hash, ghost start: seq<Exchange>, ghost base: seq<Report>,
                  ghost before: Trace, ghost told: seq<Report>, ghost uploadReports: seq<Report>)
      returns (r: Result<(), UpdateError>, ghost t: Trace, ghost reports: seq<Report>)
    requires hash == o.Info().hash && AllGoOn(told) && Consulted(o, before, told)
    requires Agreed(o, ActivatingFirmware, |before.All()|, told)
    requires session.exchanges == start + before.All() && session.reports == base + told && |start| == o.sent
    requires ReadyToActivate(o, before, uploadReports)
    modifies session`script, session`exchanges, session`answers, session`reports
    ensures session.exchanges == start + t.All() && session.reports == base + reports && Consulted(o, t, reports)
    ensures t.upload == before.upload
    ensures Proper(o, t, uploadReports, r)
    ensures Cancellation(reports, |session.exchanges|, r == Err(UpdateError.ProgressCallbackError))
    ensures !o.hasProgress ==> reports == told
  {
    hide Proper, ReadyToActivate, Order.Info, InFirstSlot, Consulted;
    var goOn;
    var setState := session.Execute(SetImageState(Some(hash), o.params.forceConfirm));
    ghost var x := Exchange(SetImageState(Some(hash), o.params.forceConfirm), setState);
    t, reports := before.(activate := [x]), told;
    NothingAfter(o, before, uploadReports);
    assert t.All() == before.All() + [x];
    OneMoreStage(start, before, t, [x]);
    AfterActivation(o, before, uploadReports, x);
    ConsultedActivation(o, before, t, told);
    if setState.Err? {
      var imageAlreadyActive := false;
      // An unsupported command means a recovery shell that writes to the active slot directly.
      NotSupportedIsCode8(setState.error);
      if setState.error.CommandNotSupported() {
        goOn, reports := Progress(session, o, QueryingDeviceState, t, base, reports);
        if !goOn {
          return Err(UpdateError.ProgressCallbackError), t, reports;
        }
        var state := session.Execute(GetImageState);
        ghost var y := Exchange(GetImageState, state);
        ghost var activated := t;
        t := t.(recheck := [y]);
        assert t.All() == activated.All() + [y];
        OneMoreStage(start, activated, t, [y]);
        AfterRecheck(o, before, uploadReports, x, y);
        ConsultedRecheck(o, activated, t, reports);
        if state.Err? {
          return Err(GetStateFailed(ExecuteFailed(state.error))), t, reports;
        }
        imageAlreadyActive := AnyInFirstSlot(state.value.images, hash);
      }
      if !imageAlreadyActive {
        return Err(SetStateFailed(ExecuteFailed(setState.error))), t, reports;
      }
    }
    if !o.params.skipReboot {
      goOn, reports := Progress(session, o, TriggeringReboot, t, base, reports);
      if !goOn {
        return Err(UpdateError.ProgressCallbackError), t, reports;
      }
      var reset := session.Execute(SystemReset(false));
      ghost var z := Exchange(SystemReset(false), reset);
      ghost var activated := t;
      t := t.(reset := [z]);
      assert t.All() == activated.All() + [z];
      OneMoreStage(start, activated, t, [z]);
      AfterReset(o, before, uploadReports, x, t.recheck, z);
      ConsultedReset(o, activated, t, reports);
      if reset.Err? {
        return Err(RebootFailed(ExecuteFailed(reset.error))), t, reports;
      }
    }
    return Ok(()), t, reports;
  }

  lemma NothingAfter(o: Order, t: Trace, uploadReports: seq<Report>)
    requires ReadyToActivate(o, t, uploadReports)
    ensures t.activate == [] && t.recheck == [] && t.reset == []
  {
    hide Stages, Justified, IsOutdated, Uploaded, Order.Info;
  }

  lemma ConsultedActivation(o: Order, before: Trace, t: Trace, reports: seq<Report>)
    requires Consulted(o, before, reports) && before.activate + before.recheck + before.reset == []
    requires t == before.(activate := t.activate) && Agreed(o, ActivatingFirmware, |before.All()|, reports)
    ensures Consulted(o, t, reports)
  {
    hide Agreed, Order.Info, Current;
  }

  lemma ConsultedRecheck(o: Order, before: Trace, t: Trace, reports: seq<Report>)
    requires Consulted(o, before, reports) && before.recheck + before.reset == []
    requires t == before.(recheck := t.recheck) && Agreed(o, QueryingDeviceState, |before.All()|, reports)
    ensures Consulted(o, t, reports)
  {
    hide Agreed, Order.Info, Current;
  }

  lemma ConsultedReset(o: Order, before: Trace, t: Trace, reports: seq<Report>)
    requires Consulted(o, before, reports) && before.reset == []
    requires t == before.(reset := t.reset) && Agreed(o, TriggeringReboot, |before.All()|, reports)
    ensures Consulted(o, t, reports)
  {
    hide Agreed, Order.Info, Current;
  }

  method Update(session: Session, firmware: Blob, checksum: Option<Hash>, params: Params, sha256: Blob -> Hash,
                hasProgress: bool)
      returns (r: Result<(), UpdateError>, ghost t: Trace, ghost reports: seq<Report>, ghost uploadReports: seq<Report>)
    modifies session`script, session`exchanges, session`answers, session`reports
    ensures session.exchanges == old(session.exchanges) + t.All()
    ensures session.reports == old(session.reports) + reports
    ensures var o := Order(firmware, checksum, params, hasProgress, session.frameSize, |old(session.exchanges)|,
                           sha256(firmware));
            Proper(o, t, uploadReports, r) && Consulted(o, t, reports)
    ensures Cancellation(reports, |session.exchanges|, r == Err(UpdateError.ProgressCallbackError))
    ensures !hasProgress ==> reports == []
    ensures forall x :: x in t.upload ==> IsPartOf(x.command, firmware, params.upgradeOnly, sha256(firmware))
  {
    hide Proper, Parse, Order.Info, ReadyToActivate, UploadResult, Trace.All, Consulted, Explained, BootloaderKnown,
      Stages, IsOutdated, AllGoOn, Current, IsPartOf;
    var o := Order(firmware, checksum, params, hasProgress, session.frameSize, |session.exchanges|, sha256(firmware));
    ghost var start, base := session.exchanges, session.reports;
    t, reports, uploadReports := NO_COMMANDS, [], [];
    var goOn;
    var bootloader;
    bootloader, t, reports := ChooseBootloader(session, o, base);
    AfterDetection(o, t);
    if bootloader.Err? {
      return Err(bootloader.error), t, reports, uploadReports;
    }

    goOn, reports := Progress(session, o, ParsingFirmwareImage, t, base, reports);
    if !goOn {
      return Err(UpdateError.ProgressCallbackError), t, reports, uploadReports;
    }
    var cursor := new Cursor(firmware);
    var info := GetImageInfo(cursor);
    if info.Err? {
      return Err(InvalidMcuBootFirmwareImage(info.error)), t, reports, uploadReports;
    }
    InfoOfParsed(o);

    var compared;
    compared, t, reports := CompareState(session, o, info.value, start, base, t, reports);
    if compared.Err? {
      return compared, t, reports, uploadReports;
    }

    ghost var queried := t;
    goOn, reports := Progress(session, o, UploadingFirmware, t, base, reports);
    if !goOn {
      return Err(UpdateError.ProgressCallbackError), t, reports, uploadReports;
    }
    var uploaded;
    uploaded, t, reports, uploadReports := UploadImage(session, o, sha256, start, base, queried, reports);
    AfterUpload(o, queried, t.upload, uploadReports, uploaded);
    if uploaded.Err? {
      r := if uploaded.error == ClientError.ProgressCallbackError then Err(UpdateError.ProgressCallbackError)
           else Err(ImageUploadFailed(uploaded.error));
      return r, t, reports, uploadReports;
    }

    goOn, reports := Progress(session, o, ActivatingFirmware, t, base, reports);
    if !goOn {
      return Err(UpdateError.ProgressCallbackError), t, reports, uploadReports;
    }
    r, t, reports := Activate(session, o, info.value.hash, start, base, t, reports, uploadReports);
  }

  lemma InfoOfParsed(o: Order)
    ensures Parse(o.firmware).Ok? ==> o.Info() == Parse(o.firmware).value
  {
  }

  // What this means for every run.

  // The device has shown an image with that hash in its first slot.
  lemma ShownInFirstSlot(xs: seq<Exchange>, hash: Hash)
    ensures ShowsImages(xs) && InFirstSlot(xs[0].outcome.value.images, hash) <==>
            |xs| == 1 && exists images: seq<ImageState>, i: ImageState ::
              xs[0].outcome == Ok(ImageStates(images)) && i in images && i.image == 0 && i.slot == 0 && i.hash == Some(hash)
  {
  }

  // A reset is sent at most once, as the last command, and only after the parsed hash was activated: the device
  // has accepted it, or has said with code 8 that it cannot do that and then shown the hash in the first slot.
  lemma ResetComesLast(o: Order, t: Trace, uploadReports: seq<Report>, r: Result<(), UpdateError>, i: nat)
    requires Proper(o, t, uploadReports, r)
    requires i < |t.All()| && t.All()[i].command.SystemReset?
    ensures i == |t.All()| - 1 && !o.params.skipReboot && t.All()[i].command == SystemReset(false)
    ensures Parse(o.firmware).Ok? && |t.activate| == 1
    ensures t.activate[0].command == SetImageState(Some(Parse(o.firmware).value.hash), o.params.forceConfirm)
    ensures t.activate[0].outcome.Ok? ||
            (&& (exists reason :: t.activate[0].outcome == Err(ErrorResponse(V1(8, reason))))
             && |t.recheck| == 1 && t.recheck[0].command == GetImageState
             && exists images: seq<ImageState>, img: ImageState ::
                  && t.recheck[0].outcome == Ok(ImageStates(images)) && img in images
                  && img.image == 0 && img.slot == 0 && img.hash == Some(Parse(o.firmware).value.hash))
  {
    hide Order.Info, Parse, Uploaded, Explained, InFirstSlot, RunsAlready, BootloaderKnown, ImageTransfer.Follows,
      ImageUploadMaxDataChunkSize;
    InfoOfParsed(o);
    var earlier := t.detect + t.query + t.upload + t.activate + t.recheck;
    assert t.All() == earlier + t.reset;
    if i < |earlier| {
      assert t.All()[i] == earlier[i];
      NoResetBefore(o, t, earlier[i]);
    }
    assert t.activate[0] in t.activate && t.reset[0] in t.reset;
    if t.activate[0].outcome.Err? {
      var e := t.activate[0].outcome.error;
      assert e == ErrorResponse(V1(8, e.device.reason));
      assert t.recheck[0] in t.query + t.recheck;
      ShownInFirstSlot(t.recheck, o.Info().hash);
    }
  }

  // The activation fails exactly if the device answers with an error other than code 8, or with code 8 and then
  // shows its images without that hash in the first slot; with an error other than code 8, nothing more is sent.
  lemma SetStateFailsExactly(o: Order, t: Trace, uploadReports: seq<Report>, r: Result<(), UpdateError>,
                             e: ExecuteError, images: seq<ImageState>)
    requires Proper(o, t, uploadReports, r) && |t.activate| == 1 && t.activate[0].outcome == Err(e)
    ensures (forall reason :: e != ErrorResponse(V1(8, reason))) ==>
            t.recheck == [] && t.reset == [] && r == Err(SetStateFailed(ExecuteFailed(e)))
    ensures (exists reason :: e == ErrorResponse(V1(8, reason))) && t.recheck != []
            && t.recheck[0].outcome == Ok(ImageStates(images)) ==>
            (r == Err(SetStateFailed(ExecuteFailed(e))) <==>
             !exists i :: i in images && i.image == 0 && i.slot == 0 && i.hash == Some(o.Info().hash))
    ensures (exists reason :: e == ErrorResponse(V1(8, reason))) && t.recheck == [] ==>
            r == Err(UpdateError.ProgressCallbackError)
  {
    hide Order.Info, Parse, Uploaded, UploadResult, RunsAlready, BootloaderKnown, ImageTransfer.Follows,
      ImageUploadMaxDataChunkSize;
    if e.ErrorResponse? && e.device.V1? && e.device.rc == 8 {
      assert e == ErrorResponse(V1(8, e.device.reason));
    }
  }

  lemma DetectCommands(o: Order, t: Trace)
    requires Stages(o, t)
    ensures forall x :: x in t.detect ==> x.command == GetBootloaderInfo || x.command == GetMcubootMode
  {
  }

  // Only a device whose bootloader the caller named, or that has said it has MCUboot, is asked or told anything
  // but its bootloader; and only if the firmware parses.
  lemma OnlyMcubootIsUpdated(o: Order, t: Trace, uploadReports: seq<Report>, r: Result<(), UpdateError>, x: Exchange)
    requires Proper(o, t, uploadReports, r) && x in t.All()
    requires x.command != GetBootloaderInfo && x.command != GetMcubootMode
    ensures o.params.bootloaderType.Some? ||
            (&& |t.detect| == 2
             && t.detect[0].command == GetBootloaderInfo && t.detect[0].outcome == Ok(Bootloader("MCUboot"))
             && t.detect[1].command == GetMcubootMode && t.detect[1].outcome.Ok?)
    ensures Parse(o.firmware).Ok?
  {
    hide Order.Info, Parse, Uploaded, Explained, UploadResult, RunsAlready, ImageTransfer.Follows, InFirstSlot,
      ImageUploadMaxDataChunkSize;
    var rest := t.query + t.upload + t.activate + t.recheck + t.reset;
    assert t.All() == t.detect + rest;
    DetectCommands(o, t);
    assert rest != [];
    assert t.query != [];
  }

  lemma NoResetBefore(o: Order, t: Trace, x: Exchange)
    requires Stages(o, t)
    requires x in t.detect + t.query + t.upload + t.activate + t.recheck
    ensures !x.command.SystemReset?
  {
    hide Order.Info;
    assert x in t.detect || x in t.query + t.recheck || x in t.upload || x in t.activate;
  }

  // The image state is set at most once, to the parsed hash, after a successful upload of this firmware; no
  // part of the image is sent afterwards.
  lemma ActivationFollowsUpload(o: Order, t: Trace, uploadReports: seq<Report>, r: Result<(), UpdateError>, i: nat)
    requires Proper(o, t, uploadReports, r)
    requires i < |t.All()| && t.All()[i].command.SetImageState?
    ensures Parse(o.firmware).Ok?
    ensures t.All()[i].command == SetImageState(Some(Parse(o.firmware).value.hash), o.params.forceConfirm)
    ensures t.All()[..i] == t.detect + t.query + t.upload
    ensures Uploaded(o, t, uploadReports)
    ensures forall j :: i < j < |t.All()| ==> !t.All()[j].command.SetImageState? && !t.All()[j].command.UploadImage?
  {
    hide Parse, Order.Info, Uploaded, Explained, Activated, RunsAlready, BootloaderKnown, ActiveImage, InFirstSlot,
      Unsupported, ImageTransfer.Follows, ImageUploadMaxDataChunkSize;
    InfoOfParsed(o);
    var earlier, later := t.detect + t.query + t.upload, t.recheck + t.reset;
    assert t.All() == earlier + t.activate + later;
    OnlyOneActivation(o, t);
    var all, n := t.All(), |earlier| + |t.activate|;
    assert forall k :: 0 <= k < |earlier| ==> all[k] == earlier[k];
    assert forall k :: n <= k < |all| ==> all[k] == later[k - n];
    assert i == |earlier| && t.activate[0] in t.activate;
    assert forall j :: i < j < |t.All()| ==> t.All()[j] == later[j - |earlier| - 1];
  }

  lemma OnlyOneActivation(o: Order, t: Trace)
    requires Stages(o, t)
    ensures forall x :: x in t.detect + t.query + t.upload ==> !x.command.SetImageState?
    ensures forall x :: x in t.recheck + t.reset ==> !x.command.SetImageState? && !x.command.UploadImage?
  {
    hide Order.Info;
    assert forall x :: x in t.query ==> x in t.query + t.recheck;
    assert forall x :: x in t.recheck ==> x in t.query + t.recheck;
  }

  // If the firmware is installed already, does not parse, or the bootloader is not known, the device is only asked.
  lemma NothingIsChanged(o: Order, t: Trace, uploadReports: seq<Report>, r: Result<(), UpdateError>, x: Exchange)
    requires Proper(o, t, uploadReports, r)
    requires || r == Err(AlreadyInstalled) || Parse(o.firmware).Err? || !BootloaderKnown(o, t.detect)
             || RunsAlready(t.query, o.Info().hash)
    requires x in t.All()
    ensures x.command == GetBootloaderInfo || x.command == GetMcubootMode || x.command == GetImageState
  {
    hide Parse, Order.Info, Uploaded, RunsAlready, BootloaderKnown, ImageTransfer.Follows, ImageUploadMaxDataChunkSize,
      InFirstSlot, ActiveImage, UploadResult, Failed;
    assert t.upload == [] && t.activate == [];
    var rest := t.upload + t.activate + t.recheck + t.reset;
    assert rest == [] && t.All() == t.detect + t.query + rest;
    DetectCommands(o, t);
    assert x in t.detect || x in t.query + t.recheck;
  }

  predicate FirstActive(images: seq<ImageState>, k: nat)
    requires k < |images|
  {
    && images[k].image == 0 && images[k].active
    && forall j :: 0 <= j < k ==> !(images[j].image == 0 && images[j].active)
  }

  predicate FirstInSlot0(images: seq<ImageState>, k: nat)
    requires k < |images|
  {
    && images[k].image == 0 && images[k].slot == 0
    && forall j :: 0 <= j < k ==> !(images[j].image == 0 && images[j].slot == 0)
  }

  // The firmware runs already exactly if the first active image 0, or without any the first in slot 0, has its hash.
  lemma RunsAlreadyMeans(images: seq<ImageState>, x: Exchange, hash: Hash)
    requires x.outcome == Ok(ImageStates(images))
    ensures RunsAlready([x], hash) <==>
            || (exists k :: 0 <= k < |images| && FirstActive(images, k) && images[k].hash == Some(hash))
            || (&& (forall k :: 0 <= k < |images| ==> !FirstActive(images, k))
                && exists k :: 0 <= k < |images| && FirstInSlot0(images, k) && images[k].hash == Some(hash))
  {
    hide First, FirstActive, FirstInSlot0;
    forall k | 0 <= k < |images|
      ensures FirstActive(images, k) ==> First(images, IsActive) == Some(images[k])
      ensures FirstInSlot0(images, k) ==> First(images, IsInSlot0) == Some(images[k])
    {
      SameFirst(images, k);
      FirstIs(images, k, IsActive);
      FirstIs(images, k, IsInSlot0);
    }
    var active, slot0 := First(images, IsActive), First(images, IsInSlot0);
    if active.Some? {
      var k :| 0 <= k < |images| && images[k] == active.value && FirstAt(images, k, IsActive);
      SameFirst(images, k);
      assert FirstActive(images, k);
    } else {
      assert forall k :: 0 <= k < |images| ==> !FirstActive(images, k);
      if slot0.Some? {
        var k :| 0 <= k < |images| && images[k] == slot0.value && FirstAt(images, k, IsInSlot0);
        SameFirst(images, k);
        assert FirstInSlot0(images, k);
      }
    }
  }

  lemma SameFirst(images: seq<ImageState>, k: nat)
    requires k < |images|
    ensures FirstActive(images, k) <==> FirstAt(images, k, IsActive)
    ensures FirstInSlot0(images, k) <==> FirstAt(images, k, IsInSlot0)
  {
  }

  lemma FirstIs(images: seq<ImageState>, k: nat, p: ImageState -> bool)
    requires k < |images|
    ensures FirstAt(images, k, p) ==> First(images, p) == Some(images[k])
  {
    if FirstAt(images, k, p) {
      assert images[k] in images;
      var i :| 0 <= i < |images| && images[i] == First(images, p).value && FirstAt(images, i, p);
    }
  }

  // Against an honest device, an update that gets as far as activating has delivered exactly the firmware.
  lemma ActivatedFirmwareIsDelivered(o: Order, t: Trace, uploadReports: seq<Report>, r: Result<(), UpdateError>,
                                     device: ImageTransfer.Device, fates: seq<seq<ImageTransfer.Fate>>)
    requires Proper(o, t, uploadReports, r)
    requires t.activate != [] && ImageTransfer.Served(device, t.upload, fates)
    requires device.sha == Some(o.sha) ==> device.stored <= o.firmware
    ensures ImageTransfer.DeviceAfter(device, t.upload, fates).stored == o.firmware
  {
    hide Order.Info, Stages, Explained, ImageTransfer.Follows, ImageTransfer.Ended, ImageTransfer.Served,
      ImageUploadMaxDataChunkSize, ImageTransfer.DeviceAfter, ImageTransfer.Told;
    assert o.firmware != [];
    ImageChunkSizePositive(o.frameSize);
    ImageTransfer.UploadDelivers(o.UploadJob(), device, t.upload, fates, uploadReports, Ok(()));
  }

  lemma ImageChunkSizePositive(frameSize: u64)
    ensures ImageUploadMaxDataChunkSize(frameSize).Some? ==> ImageUploadMaxDataChunkSize(frameSize).value > 0
  {
    ChunkSizesAreCapacities(frameSize, []);
    CapacityIsGood(frameSize, IMAGE_FIXED);
  }
}
