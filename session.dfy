/**
 * One recognition session (`recognizeSpeech`): the WebSocket, the PCM
 * reader and the promise are replaced by an ordered sequence of events,
 * each handled by the listener the program registers for it. The pure
 * `Step` function is the specification of one listener run; the class
 * `RecognitionSession` holds the closure variables and implements each
 * listener as a method proved to follow `Step`.
 */
module Session {
  import opened Common
  import Base64
  import Auth
  import opened Frames
  import opened Assembler

  /** `res.data`: the final-result flag (`status == 2`) and the result. */
  datatype MessageData = MessageData(status: int, result: Result)

  /** An inbound message as `JSON.parse` returns it. */
  datatype Message = Message(code: int, message: string, sid: string, data: MessageData)

  /** The error a session is rejected with. */
  datatype Failure =
    | FileMissing                     // the PCM file is gone when the socket opens
    | ReadFailed(reason: string)      // the reader reported an error
    | ServiceFailed(message: string)  // an inbound message with a non-zero code
    | SocketFailed(reason: string)    // the socket reported an error
  {
    /** The message of the `Error` passed to `reject`. */
    function Text(): string {
      match this
      case FileMissing => "PCM文件不存在"
      case ReadFailed(reason) => "读取PCM文件时出错: " + reason
      case ServiceFailed(message) => "识别服务错误: " + message
      case SocketFailed(reason) => "WebSocket连接失败: " + reason
    }
  }

  /** How the session's promise settles. */
  datatype Outcome = Resolved(text: string) | Rejected(error: Failure)

  /** What the program's listeners are called for, in the order they run. */
  datatype Event =
    | Open(fileExists: bool)             // socket `open`; whether the PCM file exists
    | Chunk(bytes: seq<byte>)            // reader `data`
    | End                                // reader `end`
    | ReadError(reason: string)          // reader `error`
    | Inbound(flagged: bool, msg: Message)  // socket `message`; `flagged` is a truthy second argument
    | Closed                             // socket `close`
    | SocketError(reason: string)        // socket `error`

  /** The closure variables of `recognizeSpeech` and what it has done to the outside. */
  datatype State = State(
    status: FrameStatus,    // `status`
    sent: seq<Frame>,       // every frame handed to `ws.send`, in order
    table: Table,           // `iatResult`
    finalResult: string,    // `finalResult`
    currentSid: string,     // `currentSid`
    closeRequested: bool,   // `ws.close()` has been called
    outcome: Option<Outcome>)  // how the promise has settled, if it has

  predicate ValidState(s: State) {
    Valid(s.table)
  }

  /** The state right after the socket is created. */
  const Init := State(FirstFrame, [], EmptyTable, "", "", false, None)

  /** A promise settles once: later calls to `resolve`/`reject` change nothing. */
  function Settle(outcome: Option<Outcome>, o: Outcome): Option<Outcome> {
    if outcome.None? then Some(o) else outcome
  }

  /** A message the program processes (not ignored, code 0). */
  predicate IsResultMessage(e: Event) {
    e.Inbound? && !e.flagged && e.msg.code == 0
  }

  /** A message that carries the final result (`data.status == 2`). */
  predicate IsFinalMessage(e: Event) {
    IsResultMessage(e) && e.msg.data.status == 2
  }

  /** A message that reports a service error (`code != 0`). */
  predicate IsErrorMessage(e: Event) {
    e.Inbound? && !e.flagged && e.msg.code != 0
  }

  /** `send(audio)`: hand the frame of the current state to the socket, then move the state on. */
  function SendStep(appId: string, s: State, audio: seq<byte>): (s': State)
    ensures |s'.sent| == |s.sent| + 1 && s'.sent[..|s.sent|] == s.sent
    ensures s'.sent[|s.sent|].data.status == s.status && s'.status != FirstFrame
    ensures s'.sent[|s.sent|] == BuildFrame(appId, s.status, audio) && s'.status == NextStatus(s.status)
    ensures s'.table == s.table && s'.outcome == s.outcome && s'.finalResult == s.finalResult
    ensures s'.currentSid == s.currentSid && s'.closeRequested == s.closeRequested
  {
    s.(sent := s.sent + [BuildFrame(appId, s.status, audio)], status := NextStatus(s.status))
  }

  /**
   * One listener run. The outcome settles at most once; only `close`
   * resolves, with `finalResult`; a missing file, a reader error, an error
   * code and a socket error reject, the first three also closing the
   * socket; a result message, final or not, leaves the outcome alone; only
   * a final message changes `finalResult` and `currentSid`; an error
   * message leaves the results alone; only the reader's events send frames,
   * and they leave the outcome and the close request alone.
   */
  function Step(appId: string, s: State, e: Event): (s': State)
    requires ValidState(s)
    ensures ValidState(s')
    ensures s.outcome.Some? ==> s'.outcome == s.outcome
    ensures s.outcome.None? && s'.outcome.Some? ==> (s'.outcome.value.Resolved? <==> e.Closed?)
    ensures e.Closed? ==> s'.outcome == Settle(s.outcome, Resolved(s.finalResult))
    ensures IsResultMessage(e) ==> s'.outcome == s.outcome
    ensures IsResultMessage(e) && e.msg.data.status != 2 ==> s'.closeRequested == s.closeRequested
    ensures e.Open? && !e.fileExists ==>
      s'.closeRequested && s'.outcome == Settle(s.outcome, Rejected(FileMissing))
    ensures e.Open? && e.fileExists ==> s' == s
    ensures e.ReadError? ==>
      s'.closeRequested && s'.outcome == Settle(s.outcome, Rejected(ReadFailed(e.reason)))
    ensures e.SocketError? ==> s'.outcome == Settle(s.outcome, Rejected(SocketFailed(e.reason)))
    ensures e.Inbound? && e.flagged ==> s' == s
    ensures e.Chunk? || e.End? ==> s'.outcome == s.outcome && s'.closeRequested == s.closeRequested
    ensures !IsFinalMessage(e) ==> s'.finalResult == s.finalResult && s'.currentSid == s.currentSid
    ensures IsFinalMessage(e) ==>
      s'.finalResult == Transcript(s'.table) && s'.currentSid == e.msg.sid && s'.closeRequested
    ensures IsResultMessage(e) ==> s'.table == Apply(s.table, e.msg.data.result)
    ensures !IsResultMessage(e) ==> s'.table == s.table
    ensures IsErrorMessage(e) ==>
      s'.closeRequested && s'.outcome == Settle(s.outcome, Rejected(ServiceFailed(e.msg.message)))
    ensures !(e.Chunk? || e.End?) ==> s'.sent == s.sent && s'.status == s.status
  {
    match e
    case Open(fileExists) =>
      if fileExists then s
      else s.(closeRequested := true, outcome := Settle(s.outcome, Rejected(FileMissing)))
    case Chunk(bytes) => SendStep(appId, s, bytes)
    case End => SendStep(appId, s.(status := LastFrame), [])
    case ReadError(reason) =>
      s.(closeRequested := true, outcome := Settle(s.outcome, Rejected(ReadFailed(reason))))
    case Inbound(flagged, m) =>
      if flagged then s
      else if m.code != 0 then
        s.(closeRequested := true, outcome := Settle(s.outcome, Rejected(ServiceFailed(m.message))))
      else
        var table := Apply(s.table, m.data.result);
        if m.data.status == 2 then
          s.(table := table, finalResult := Transcript(table), currentSid := m.sid, closeRequested := true)
        else
          s.(table := table)
    case Closed => s.(outcome := Settle(s.outcome, Resolved(s.finalResult)))
    case SocketError(reason) => s.(outcome := Settle(s.outcome, Rejected(SocketFailed(reason))))
  }

  /** The state after the listeners have run for `events`, in order. */
  function Run(appId: string, s: State, events: seq<Event>): (s': State)
    requires ValidState(s)
    ensures ValidState(s')
    decreases |events|
  {
    if events == [] then s else Run(appId, Step(appId, s, events[0]), events[1..])
  }

  lemma {:induction false} RunAppend(appId: string, s: State, a: seq<Event>, b: seq<Event>)
    requires ValidState(s)
    ensures Run(appId, s, a + b) == Run(appId, Run(appId, s, a), b)
    decreases |a|
  {
    if a != [] {
      assert (a + b)[0] == a[0] && (a + b)[1..] == a[1..] + b;
      RunAppend(appId, Step(appId, s, a[0]), a[1..], b);
    } else {
      assert a + b == b;
    }
  }

  /** Once settled, a session's outcome never changes, whatever happens next. */
  lemma {:induction false} SettleOnce(appId: string, s: State, events: seq<Event>)
    requires ValidState(s) && s.outcome.Some?
    ensures Run(appId, s, events).outcome == s.outcome
    decreases |events|
  {
    if events != [] {
      SettleOnce(appId, Step(appId, s, events[0]), events[1..]);
    }
  }

  /** Without a final message, `finalResult` and `currentSid` keep their values. */
  lemma {:induction false} NoFinalKeepsResult(appId: string, s: State, events: seq<Event>)
    requires ValidState(s)
    requires forall i :: 0 <= i < |events| ==> !IsFinalMessage(events[i])
    ensures Run(appId, s, events).finalResult == s.finalResult
    ensures Run(appId, s, events).currentSid == s.currentSid
    decreases |events|
  {
    if events != [] {
      NoFinalKeepsResult(appId, Step(appId, s, events[0]), events[1..]);
    }
  }

  /**
   * A session still pending whose socket closes without a final message
   * having arrived resolves with the empty string, whatever partial
   * transcript the table holds.
   */
  lemma CloseWithoutFinal(appId: string, events: seq<Event>)
    requires forall i :: 0 <= i < |events| ==> !IsFinalMessage(events[i])
    requires Run(appId, Init, events).outcome.None?
    ensures Run(appId, Init, events + [Closed]).outcome == Some(Resolved(""))
  {
    NoFinalKeepsResult(appId, Init, events);
    RunAppend(appId, Init, events, [Closed]);
  }

  /** The reader's events, in order, with everything else taken out. */
  function Outbound(events: seq<Event>): (out: seq<Event>)
    ensures forall i :: 0 <= i < |out| ==> out[i].Chunk? || out[i].End?
    decreases |events|
  {
    if events == [] then []
    else if events[0].Chunk? || events[0].End? then [events[0]] + Outbound(events[1..])
    else Outbound(events[1..])
  }

  /** The frames sent depend only on the reader's events: inbound messages,
      socket events and settlement never add, drop or reorder a frame. */
  lemma {:induction false} FramesFromReaderOnly(appId: string, s: State, events: seq<Event>)
    requires ValidState(s)
    ensures Run(appId, s, events).sent == Run(appId, s, Outbound(events)).sent
    ensures Run(appId, s, events).status == Run(appId, s, Outbound(events)).status
    decreases |events|
  {
    if events != [] {
      var s1 := Step(appId, s, events[0]);
      FramesFromReaderOnly(appId, s1, events[1..]);
      if events[0].Chunk? || events[0].End? {
        assert Outbound(events)[0] == events[0] && Outbound(events)[1..] == Outbound(events[1..]);
      } else {
        SameFrames(appId, s, s1, Outbound(events[1..]));
      }
    }
  }

  /** Two states with the same encoder state and frames send the same frames on reader events. */
  lemma {:induction false} SameFrames(appId: string, s: State, t: State, events: seq<Event>)
    requires ValidState(s) && ValidState(t)
    requires s.sent == t.sent && s.status == t.status
    requires forall i :: 0 <= i < |events| ==> events[i].Chunk? || events[i].End?
    ensures Run(appId, s, events).sent == Run(appId, t, events).sent
    ensures Run(appId, s, events).status == Run(appId, t, events).status
    decreases |events|
  {
    if events != [] {
      SameFrames(appId, Step(appId, s, events[0]), Step(appId, t, events[0]), events[1..]);
    }
  }

  /** The reader's data events for `chunks`. */
  function ChunkEvents(chunks: seq<seq<byte>>): (events: seq<Event>)
    ensures |events| == |chunks|
    ensures forall i :: 0 <= i < |chunks| ==> events[i] == Chunk(chunks[i])
  {
    seq(|chunks|, i requires 0 <= i < |chunks| => Chunk(chunks[i]))
  }

  /** Data events send one frame each, built in the state reached by then. */
  lemma {:induction false} ChunksSend(appId: string, s: State, chunks: seq<seq<byte>>)
    requires ValidState(s)
    ensures Run(appId, s, ChunkEvents(chunks)).sent == s.sent + SendChunks(appId, s.status, chunks)
    ensures Run(appId, s, ChunkEvents(chunks)).status == StatusAfter(s.status, |chunks|)
    decreases |chunks|
  {
    if chunks != [] {
      var rest := chunks[1..];
      var s1 := SendStep(appId, s, chunks[0]);
      assert ChunkEvents(chunks) == [Chunk(chunks[0])] + ChunkEvents(rest);
      RunChunk(appId, s, chunks[0], ChunkEvents(rest));
      ChunksSend(appId, s1, rest);
      assert s1.sent + SendChunks(appId, s1.status, rest) == s.sent + SendChunks(appId, s.status, chunks);
    }
  }

  /** A data event runs `send` on its chunk. */
  lemma RunChunk(appId: string, s: State, bytes: seq<byte>, rest: seq<Event>)
    requires ValidState(s)
    ensures Run(appId, s, [Chunk(bytes)] + rest) == Run(appId, SendStep(appId, s, bytes), rest)
  {
    assert ([Chunk(bytes)] + rest)[1..] == rest;
  }

  /**
   * The reader's whole stream, from a fresh encoder: the frames sent are
   * exactly `StreamFrames` (see `Frames.StreamShape` for their shape).
   * `StreamInterleaved` adds the socket's events in between.
   */
  lemma StreamSent(appId: string, s: State, chunks: seq<seq<byte>>)
    requires ValidState(s) && s.status == FirstFrame
    ensures Run(appId, s, ChunkEvents(chunks) + [End]).sent == s.sent + StreamFrames(appId, chunks)
  {
    ChunksSend(appId, s, chunks);
    RunAppend(appId, s, ChunkEvents(chunks), [End]);
  }

  /** The reader's stream with any other events in between: whatever the
      socket does meanwhile, the frames sent are exactly `StreamFrames`. */
  lemma StreamInterleaved(appId: string, s: State, chunks: seq<seq<byte>>, events: seq<Event>)
    requires ValidState(s) && s.status == FirstFrame
    requires Outbound(events) == ChunkEvents(chunks) + [End]
    ensures Run(appId, s, events).sent == s.sent + StreamFrames(appId, chunks)
  {
    FramesFromReaderOnly(appId, s, events);
    StreamSent(appId, s, chunks);
  }

  /** A result message with code 0 for `r`, final or not. */
  function ResultMessage(status: int, sid: string, r: Result): Message {
    Message(0, "success", sid, MessageData(status, r))
  }

  /**
   * A session end to end: the socket opens, three chunks and the end of
   * stream are sent, the service answers with results for `sn` 0, 1 and 2,
   * the last one final with session id `sid`, and the socket closes. The
   * session resolves with the three results' text in order, records `sid`,
   * and has sent exactly the stream's four frames.
   */
  lemma EndToEnd(appId: string, c1: seq<byte>, c2: seq<byte>, c3: seq<byte>,
                 r0: Result, r1: Result, r2: Result, sid: string)
    requires r0.sn == 0 && r1.sn == 1 && r2.sn == 2
    requires !IsRevision(r0) && !IsRevision(r1) && !IsRevision(r2)
    ensures var events := [Open(true)] + ChunkEvents([c1, c2, c3]) + [End]
        + [Inbound(false, ResultMessage(0, "", r0)), Inbound(false, ResultMessage(1, "", r1)),
           Inbound(false, ResultMessage(2, sid, r2)), Closed];
      var s := Run(appId, Init, events);
      && s.outcome == Some(Resolved(SegmentsText(r0.ws) + SegmentsText(r1.ws) + SegmentsText(r2.ws)))
      && s.currentSid == sid
      && s.sent == StreamFrames(appId, [c1, c2, c3])
  {
    var reader := ChunkEvents([c1, c2, c3]) + [End];
    var m0, m1, m2 := Inbound(false, ResultMessage(0, "", r0)), Inbound(false, ResultMessage(1, "", r1)),
      Inbound(false, ResultMessage(2, sid, r2));
    var inbound := [m0, m1, m2, Closed];
    var events := [Open(true)] + ChunkEvents([c1, c2, c3]) + [End] + inbound;
    assert events[0] == Open(true) && events[1..] == reader + inbound;
    assert Step(appId, Init, Open(true)) == Init;
    assert Run(appId, Init, events) == Run(appId, Init, reader + inbound);
    RunAppend(appId, Init, reader, inbound);
    ReaderPhase(appId, [c1, c2, c3]);
    ResultsThenClose(appId, Run(appId, Init, reader), r0, r1, r2, sid);
  }

  /** The reader half of `EndToEnd`: the stream is sent and nothing else changes. */
  lemma ReaderPhase(appId: string, chunks: seq<seq<byte>>)
    ensures var s := Run(appId, Init, ChunkEvents(chunks) + [End]);
      && s.outcome == None && s.table == EmptyTable && s.finalResult == ""
      && s.sent == StreamFrames(appId, chunks)
  {
    var reader := ChunkEvents(chunks) + [End];
    StreamSent(appId, Init, chunks);
    ReaderLeavesResults(appId, Init, reader);
    NoFinalKeepsResult(appId, Init, reader);
  }

  /** The inbound half of `EndToEnd`: three results in order, the last one
      final, then `close`, on a pending session with an empty table. */
  lemma ResultsThenClose(appId: string, s: State, r0: Result, r1: Result, r2: Result, sid: string)
    requires ValidState(s) && s.table == EmptyTable && s.outcome == None
    requires r0.sn == 0 && r1.sn == 1 && r2.sn == 2
    requires !IsRevision(r0) && !IsRevision(r1) && !IsRevision(r2)
    ensures var s' := Run(appId, s, [Inbound(false, ResultMessage(0, "", r0)), Inbound(false, ResultMessage(1, "", r1)),
                                     Inbound(false, ResultMessage(2, sid, r2)), Closed]);
      && s'.outcome == Some(Resolved(SegmentsText(r0.ws) + SegmentsText(r1.ws) + SegmentsText(r2.ws)))
      && s'.currentSid == sid
      && s'.sent == s.sent
  {
    var m0, m1, m2 := Inbound(false, ResultMessage(0, "", r0)), Inbound(false, ResultMessage(1, "", r1)),
      Inbound(false, ResultMessage(2, sid, r2));
    var s2 := Step(appId, s, m0);
    var s3 := Step(appId, s2, m1);
    var s4 := Step(appId, s3, m2);
    var s5 := Step(appId, s4, Closed);
    assert Run(appId, s, [m0, m1, m2, Closed]) == Run(appId, s2, [m1, m2, Closed]) by {
      assert [m0, m1, m2, Closed][1..] == [m1, m2, Closed];
    }
    assert Run(appId, s2, [m1, m2, Closed]) == Run(appId, s3, [m2, Closed]) by {
      assert [m1, m2, Closed][1..] == [m2, Closed];
    }
    assert Run(appId, s3, [m2, Closed]) == Run(appId, s4, [Closed]) by {
      assert [m2, Closed][1..] == [Closed];
    }
    assert Run(appId, s4, [Closed]) == s5;
    InOrder(r0, r1, r2);
  }

  /** The reader's events leave the results and the outcome alone. */
  lemma {:induction false} ReaderLeavesResults(appId: string, s: State, events: seq<Event>)
    requires ValidState(s)
    requires forall i :: 0 <= i < |events| ==> events[i].Chunk? || events[i].End?
    ensures Run(appId, s, events).table == s.table
    ensures Run(appId, s, events).outcome == s.outcome
    decreases |events|
  {
    if events != [] {
      ReaderLeavesResults(appId, Step(appId, s, events[0]), events[1..]);
    }
  }

  /**
   * A service error settles a pending session as rejected with the
   * service's message and asks the socket to close; the `close` that
   * follows does not turn the rejection into a resolution, and the results
   * are left as they were.
   */
  lemma ServiceErrorThenClose(appId: string, s: State, m: Message)
    requires ValidState(s) && s.outcome.None? && m.code != 0
    ensures var s' := Run(appId, s, [Inbound(false, m), Closed]);
      && s'.outcome == Some(Rejected(ServiceFailed(m.message)))
      && s'.closeRequested
      && s'.table == s.table && s'.finalResult == s.finalResult && s'.currentSid == s.currentSid
  {
    var s1 := Step(appId, s, Inbound(false, m));
    assert Run(appId, s, [Inbound(false, m), Closed]) == Run(appId, s1, [Closed]);
    assert Run(appId, s1, [Closed]) == Step(appId, s1, Closed);
  }

  /** `cw.forEach(k => str += k.w)`. */
  method JoinCandidates(cw: seq<Candidate>) returns (str: string)
    ensures str == CandidatesText(cw)
  {
    str := "";
    var k := 0;
    while k < |cw|
      invariant 0 <= k <= |cw|
      invariant str == CandidatesText(cw[..k])
    {
      str := str + cw[k].w;
      assert cw[..k + 1][..k] == cw[..k];
      k := k + 1;
    }
    assert cw[..|cw|] == cw;
  }

  /** `ws.forEach(j => j.cw.forEach(...))`. */
  method JoinSegments(ws: seq<Segment>) returns (str: string)
    ensures str == SegmentsText(ws)
  {
    str := "";
    var j := 0;
    while j < |ws|
      invariant 0 <= j <= |ws|
      invariant str == SegmentsText(ws[..j])
    {
      var text := JoinCandidates(ws[j].cw);
      str := str + text;
      assert ws[..j + 1][..j] == ws[..j];
      j := j + 1;
    }
    assert ws[..|ws|] == ws;
  }

  /** The closure of one `recognizeSpeech` call: its variables and listeners. */
  class RecognitionSession {
    const appId: string
    const url: string
    var status: FrameStatus
    var sent: seq<Frame>
    var slots: map<nat, Option<Result>>
    var length: nat
    var finalResult: string
    var currentSid: string
    var closeRequested: bool
    var outcome: Option<Outcome>

    /** The variables as a value of the specification. */
    function Snapshot(): State
      reads this
    {
      State(status, sent, Table(slots, length), finalResult, currentSid, closeRequested, outcome)
    }

    predicate Valid()
      reads this
    {
      ValidState(Snapshot())
    }

    /** The start of `recognizeSpeech` at instant `now`: the URL is built,
        the variables are initialised. */
    constructor (p: Auth.Primitives, cfg: Auth.Config, now: Auth.Instant)
      requires Auth.ValidInstant(now)
      ensures appId == cfg.appId && url == Auth.SessionUrl(p, cfg, now)
      ensures Valid() && Snapshot() == Init
    {
      var date := Auth.ImfFixdate(now);
      appId := cfg.appId;
      url := Auth.ConnectionUrl(cfg, Auth.AuthStr(p, cfg, date), date);
      status := FirstFrame;
      sent := [];
      slots := map[];
      length := 0;
      finalResult := "";
      currentSid := "";
      closeRequested := false;
      outcome := None;
    }

    /** `resolve(...)` or `reject(...)`: only the first call settles the promise. */
    method Complete(o: Outcome)
      modifies this`outcome
      ensures outcome == Settle(old(outcome), o)
    {
      if outcome.None? {
        outcome := Some(o);
      }
    }

    /** `send(data)`: build the frame for the current state, move the state on, hand it over. */
    method Send(audio: seq<byte>)
      requires Valid()
      modifies this`sent, this`status
      ensures Valid() && Snapshot() == SendStep(appId, old(Snapshot()), audio)
    {
      var section := DataSection(status, AudioFormat, Base64.Encode(audio), AudioEncoding);
      var frame: Frame;
      match status {
        case FirstFrame =>
          frame := First(CommonParams(appId), SessionBusiness, section);
          status := ContinueFrame;
        case ContinueFrame =>
          frame := DataOnly(section);
        case LastFrame =>
          frame := DataOnly(section);
      }
      sent := sent + [frame];
    }

    /** `iatResult[i] = v`. */
    method Assign(i: int, v: Option<Result>)
      requires Valid()
      modifies this`slots, this`length
      ensures Valid() && Table(slots, length) == Put(old(Table(slots, length)), i, v)
    {
      if IsIndex(i) {
        slots := slots[i := v];
        if i >= length {
          length := i + 1;
        }
      }
    }

    /** The transcript loop: the text of every slot that is neither a hole
        nor null, in ascending index order. */
    method BuildTranscript() returns (str: string)
      ensures str == Transcript(Table(slots, length))
    {
      str := "";
      var i := 0;
      while i < length
        invariant 0 <= i <= length
        invariant str == TextRange(slots, 0, i)
      {
        if i in slots && slots[i].Some? {
          var text := JoinSegments(slots[i].value.ws);
          str := str + text;
        }
        i := i + 1;
      }
    }

    /** Write the message's result into its slot and, for a revision, null
        every index it lists. */
    method Record(r: Result)
      requires Valid()
      modifies this`slots, this`length
      ensures Valid() && Table(slots, length) == Apply(old(Table(slots, length)), r)
    {
      Assign(r.sn, Some(r));
      if IsRevision(r) {
        ghost var written := Table(slots, length);
        var i := 0;
        while i < |r.rg|
          invariant 0 <= i <= |r.rg|
          invariant Valid()
          invariant Table(slots, length) == Tombstone(written, r.rg[..i])
        {
          Assign(r.rg[i], None);
          assert r.rg[..i + 1][..i] == r.rg[..i];
          i := i + 1;
        }
        assert r.rg[..|r.rg|] == r.rg;
      }
    }

    /** Socket `open`: a missing PCM file closes the socket and rejects. */
    method OnOpen(fileExists: bool)
      requires Valid()
      modifies this
      ensures Valid() && Snapshot() == Step(appId, old(Snapshot()), Open(fileExists))
    {
      if !fileExists {
        closeRequested := true;
        Complete(Rejected(FileMissing));
      }
    }

    /** Reader `data`: send the chunk. */
    method OnChunk(bytes: seq<byte>)
      requires Valid()
      modifies this
      ensures Valid() && Snapshot() == Step(appId, old(Snapshot()), Chunk(bytes))
    {
      Send(bytes);
    }

    /** Reader `end`: switch to LAST, then send an empty frame. */
    method OnEnd()
      requires Valid()
      modifies this
      ensures Valid() && Snapshot() == Step(appId, old(Snapshot()), End)
    {
      status := LastFrame;
      Send([]);
    }

    /** Reader `error`: close the socket and reject. */
    method OnReadError(reason: string)
      requires Valid()
      modifies this
      ensures Valid() && Snapshot() == Step(appId, old(Snapshot()), ReadError(reason))
    {
      closeRequested := true;
      Complete(Rejected(ReadFailed(reason)));
    }

    /** Socket `message`: check the code, update the table, rebuild the
        transcript, and on the final result record it and close. */
    method OnMessage(flagged: bool, m: Message)
      requires Valid()
      modifies this
      ensures Valid() && Snapshot() == Step(appId, old(Snapshot()), Inbound(flagged, m))
    {
      if flagged {
        return;
      }
      if m.code != 0 {
        closeRequested := true;
        Complete(Rejected(ServiceFailed(m.message)));
        return;
      }
      Record(m.data.result);
      var str := BuildTranscript();
      if m.data.status == 2 {
        finalResult := str;
        currentSid := m.sid;
        closeRequested := true;
      }
    }

    /** Socket `close`: resolve with `finalResult`. */
    method OnClose()
      requires Valid()
      modifies this
      ensures Valid() && Snapshot() == Step(appId, old(Snapshot()), Closed)
    {
      Complete(Resolved(finalResult));
    }

    /** Socket `error`: reject. */
    method OnSocketError(reason: string)
      requires Valid()
      modifies this
      ensures Valid() && Snapshot() == Step(appId, old(Snapshot()), SocketError(reason))
    {
      Complete(Rejected(SocketFailed(reason)));
    }
  }
}
