/**
 * The frames a recognition session sends (`send` and its closure variable
 * `status`). The encoder is a three-state machine: the state in force when
 * a frame is built is the `status` the frame carries, and only the first
 * frame moves the state on (to CONTINUE). The reader's end-of-stream
 * handler sets the state to LAST itself before sending an empty frame.
 */
module Frames {
  import opened Common
  import Base64

  /** The encoder state; `Code` is the number the frame carries (`FRAME`). */
  datatype FrameStatus = FirstFrame | ContinueFrame | LastFrame {
    function Code(): (n: int)
      ensures 0 <= n <= 2
      ensures (n == 0 <==> this == FirstFrame) && (n == 1 <==> this == ContinueFrame) && (n == 2 <==> this == LastFrame)
    {
      match this
      case FirstFrame => 0
      case ContinueFrame => 1
      case LastFrame => 2
    }
  }

  const AudioFormat: string := "audio/L16;rate=16000"
  const AudioEncoding: string := "raw"

  /** The `data` section every frame carries. */
  datatype DataSection = DataSection(status: FrameStatus, format: string, audio: string, encoding: string)

  /** The `common` section: the application id. */
  datatype CommonParams = CommonParams(appId: string)

  /** The `business` section: recognition parameters. */
  datatype Business = Business(language: string, domain: string, accent: string, dwa: string)

  /** The recognition parameters the program sends: English, dictation, dynamic correction on. */
  const SessionBusiness := Business("en_us", "iat", "mandarin", "wpgs")

  /** A frame as handed to `JSON.stringify`: with `common` and `business`, or data only. */
  datatype Frame =
    | First(common: CommonParams, business: Business, data: DataSection)
    | DataOnly(data: DataSection)

  /** The data section built for `audio` in state `status`: the state is read
      before the switch changes it. */
  function Section(status: FrameStatus, audio: seq<byte>): DataSection {
    DataSection(status, AudioFormat, Base64.Encode(audio), AudioEncoding)
  }

  /** The frame `send(audio)` builds in state `status` (the switch's frame). */
  function BuildFrame(appId: string, status: FrameStatus, audio: seq<byte>): (f: Frame)
    ensures f.data.status == status && f.data.format == AudioFormat && f.data.encoding == AudioEncoding
    ensures Base64.Decode(f.data.audio) == Some(audio)
    ensures f.First? <==> status == FirstFrame
  {
    Base64.DecodeEncode(audio);
    match status
    case FirstFrame => First(CommonParams(appId), SessionBusiness, Section(status, audio))
    case ContinueFrame => DataOnly(Section(status, audio))
    case LastFrame => DataOnly(Section(status, audio))
  }

  /** The state after `send`: FIRST moves on to CONTINUE, the others stay. */
  function NextStatus(status: FrameStatus): (next: FrameStatus)
    ensures next != FirstFrame && (status != FirstFrame ==> next == status)
    ensures status == FirstFrame ==> next == ContinueFrame
  {
    if status == FirstFrame then ContinueFrame else status
  }

  /** The frames sent for the reader's data events `chunks`, starting in `status`. */
  function SendChunks(appId: string, status: FrameStatus, chunks: seq<seq<byte>>): (frames: seq<Frame>)
    ensures |frames| == |chunks|
    decreases |chunks|
  {
    if chunks == [] then []
    else [BuildFrame(appId, status, chunks[0])] + SendChunks(appId, NextStatus(status), chunks[1..])
  }

  /** The state after the data events `chunks`, starting in `status`. */
  function StatusAfter(status: FrameStatus, chunks: nat): FrameStatus {
    if chunks == 0 then status else NextStatus(status)
  }

  /** The frames of a whole audio stream: every chunk, then the end-of-stream frame. */
  function StreamFrames(appId: string, chunks: seq<seq<byte>>): (frames: seq<Frame>)
    ensures |frames| == |chunks| + 1 && frames[|chunks|] == BuildFrame(appId, LastFrame, [])
  {
    SendChunks(appId, FirstFrame, chunks) + [BuildFrame(appId, LastFrame, [])]
  }

  /** Frame `i` of a run of data events is built in the state the run has reached by then. */
  lemma {:induction false} SendChunksAt(appId: string, status: FrameStatus, chunks: seq<seq<byte>>, i: nat)
    requires i < |chunks|
    ensures |SendChunks(appId, status, chunks)| == |chunks|
    ensures SendChunks(appId, status, chunks)[i] == BuildFrame(appId, StatusAfter(status, i), chunks[i])
    decreases |chunks|
  {
    if i > 0 {
      SendChunksAt(appId, NextStatus(status), chunks[1..], i - 1);
      assert StatusAfter(NextStatus(status), i - 1) == StatusAfter(status, i);
    } else if |chunks| > 1 {
      SendChunksAt(appId, NextStatus(status), chunks[1..], 0);
    }
  }

  /**
   * The frame-count law. For N chunks exactly N + 1 frames are sent: with
   * N >= 1, frame 0 carries `common` and `business` and status FIRST,
   * frames 1 .. N-1 are data-only with status CONTINUE, and frame N is
   * data-only with status LAST and empty audio; every frame has the fixed
   * format and encoding, and the audio of frame i is chunk i.
   */
  lemma StreamShape(appId: string, chunks: seq<seq<byte>>)
    ensures var frames := StreamFrames(appId, chunks);
      && |frames| == |chunks| + 1
      && (forall i :: 0 <= i < |frames| ==>
            frames[i].data.format == AudioFormat && frames[i].data.encoding == AudioEncoding)
      && (|chunks| >= 1 ==>
            frames[0] == First(CommonParams(appId), SessionBusiness, Section(FirstFrame, chunks[0])))
      && (forall i :: 1 <= i < |chunks| ==> frames[i] == DataOnly(Section(ContinueFrame, chunks[i])))
      && frames[|chunks|] == DataOnly(DataSection(LastFrame, AudioFormat, "", AudioEncoding))
      && (forall i :: 0 <= i < |chunks| ==> Base64.Decode(frames[i].data.audio) == Some(chunks[i]))
  {
    var frames := StreamFrames(appId, chunks);
    var sent := SendChunks(appId, FirstFrame, chunks);
    if |chunks| > 0 {
      SendChunksAt(appId, FirstFrame, chunks, 0);
    } else {
      assert sent == [];
    }
    assert |frames| == |chunks| + 1;
    forall i | 0 <= i < |chunks|
      ensures frames[i] == BuildFrame(appId, StatusAfter(FirstFrame, i), chunks[i])
    {
      SendChunksAt(appId, FirstFrame, chunks, i);
    }
  }

  /** `common` and `business` are sent exactly once, in the first frame, and
      only when there is audio: with no chunks the only frame is LAST. */
  lemma FirstFrameOnce(appId: string, chunks: seq<seq<byte>>)
    ensures var frames := StreamFrames(appId, chunks);
      forall i :: 0 <= i < |frames| ==> (frames[i].First? <==> i == 0 && |chunks| >= 1)
    ensures chunks == [] ==>
      StreamFrames(appId, chunks) == [DataOnly(DataSection(LastFrame, AudioFormat, "", AudioEncoding))]
  {
    var frames := StreamFrames(appId, chunks);
    StreamShape(appId, chunks);
    forall i | 0 <= i < |chunks| ensures frames[i].First? <==> i == 0 {
      SendChunksAt(appId, FirstFrame, chunks, i);
    }
  }

  /** The `status` number each frame of a stream carries on the wire: 0 for
      the first frame of a non-empty stream, 2 for the end-of-stream frame,
      1 for every frame in between. */
  lemma WireStatus(appId: string, chunks: seq<seq<byte>>)
    ensures var frames := StreamFrames(appId, chunks);
      forall i :: 0 <= i < |frames| ==>
        frames[i].data.status.Code() == if i == |chunks| then 2 else if i == 0 then 0 else 1
  {
    var frames := StreamFrames(appId, chunks);
    forall i | 0 <= i < |chunks|
      ensures frames[i].data.status == StatusAfter(FirstFrame, i)
    {
      SendChunksAt(appId, FirstFrame, chunks, i);
    }
  }
}
