/** The device as the client sees it: commands, how they ended, and what the progress callback was told. */
module Client {
  import opened Bytes
  import opened Wrappers
  import opened Cbor
  import opened Commands
  import opened Framing
  import opened Connection
  import opened Mcuboot

  datatype ImageState = ImageState(image: u32, slot: u32, version: string, hash: Option<Hash>, active: bool)

  datatype Command =
    | UploadImage(image: ImageUpload)
    | DownloadFile(name: Blob, off: u64)
    | UploadFile(file: FileUpload)
    | GetBootloaderInfo
    | GetMcubootMode
    | GetImageState
    | SetImageState(hash: Option<Hash>, confirm: bool)
    | SystemReset(force: bool)

  datatype Response =
    | ImageUploaded(off: u64, isMatch: Option<bool>)
    | FileChunk(off: u64, data: seq<byte>, len: Option<u64>)
    | FileUploaded(off: u64)
    | Bootloader(name: string)
    | McubootMode(mode: int, noDowngrade: bool)
    | ImageStates(images: seq<ImageState>)
    | Empty
  {
    predicate Answers(c: Command) {
      match c
      case UploadImage(_) => ImageUploaded?
      case DownloadFile(_, _) => FileChunk?
      case UploadFile(_) => FileUploaded?
      case GetBootloaderInfo => Bootloader?
      case GetMcubootMode => McubootMode?
      case GetImageState => ImageStates?
      case SetImageState(_, _) => ImageStates?
      case SystemReset(_) => Empty?
    }
  }

  datatype ClientError =
    | ExecuteFailed(error: ExecuteError)
    | UnexpectedOffset
    | WriterError
    | ReaderError
    | SizeMismatch
    | MissingSize
    | ProgressCallbackError
    | FrameSizeTooSmall
    | ChecksumMismatchOnDevice
    | ChecksumMismatch

  type Outcome = Result<Response, ExecuteError>

  datatype Exchange = Exchange(command: Command, outcome: Outcome)

  datatype BootloaderType = MCUboot

  datatype UpdateStep =
    | DetectingBootloader
    | BootloaderFound(bootloader: BootloaderType)
    | ParsingFirmwareImage
    | QueryingDeviceState
    | UpdateInfo(current: Option<(string, Option<Hash>)>, newImage: ImageInfo)
    | UploadingFirmware
    | ActivatingFirmware
    | TriggeringReboot

  // What a callback is called for.
  datatype Topic = Transfer | Stage(step: UpdateStep)

  // One call of the callback: how many commands had been executed by then, and whether it said to go on.
  datatype Report = Report(topic: Topic, progress: Option<(nat, nat)>, sent: nat, goOn: bool)

  predicate AllGoOn(reports: seq<Report>) {
    forall k :: 0 <= k < |reports| ==> reports[k].goOn
  }

  // The last report, and only it, asked to stop.
  predicate Stopped(reports: seq<Report>) {
    reports != [] && !reports[|reports| - 1].goOn && AllGoOn(reports[..|reports| - 1])
  }

  lemma GoOnAppend(reports: seq<Report>, last: Report)
    requires AllGoOn(reports)
    ensures last.goOn ==> AllGoOn(reports + [last])
    ensures !last.goOn ==> Stopped(reports + [last])
  {
    assert (reports + [last])[..|reports|] == reports;
  }

  /**
   A client and its surroundings. `script` is how the coming commands will end, after their retries;
   when it is used up the device has gone silent. `answers` is what the callback will say; it agrees
   to everything after that.
   */
  class Session {
    var frameSize: u64
    var script: seq<Outcome>
    var answers: seq<bool>
    var exchanges: seq<Exchange>
    var reports: seq<Report>

    constructor (frameSize: u64, script: seq<Outcome>, answers: seq<bool>)
      ensures this.frameSize == frameSize && this.script == script && this.answers == answers
      ensures exchanges == [] && reports == []
    {
      this.frameSize, this.script, this.answers, exchanges, reports := frameSize, script, answers, [], [];
    }

    // A successful outcome is a response of the command's own kind; any other does not decode.
    method Execute(command: Command) returns (r: Outcome)
      modifies this`script, this`exchanges
      ensures exchanges == old(exchanges) + [Exchange(command, r)]
      ensures r.Ok? ==> r.value.Answers(command)
      ensures r.Ok? ==> |script| < |old(script)|
      ensures |script| <= |old(script)|
    {
      if script == [] {
        r := Err(ReceiveFailed(TransportError));
      } else {
        r := if script[0].Ok? && !script[0].value.Answers(command) then Err(DecodeFailed) else script[0];
        script := script[1..];
      }
      exchanges := exchanges + [Exchange(command, r)];
    }

    method Tell(topic: Topic, progress: Option<(nat, nat)>) returns (goOn: bool)
      modifies this`answers, this`reports
      ensures reports == old(reports) + [Report(topic, progress, |exchanges|, goOn)]
    {
      goOn := answers == [] || answers[0];
      answers := if answers == [] then [] else answers[1..];
      reports := reports + [Report(topic, progress, |exchanges|, goOn)];
    }
  }
}
