# Speech recognition session of `sever.js`

This project models `recognizeSpeech` in `sever.js`. The function opens one
session with the iFlytek streaming dictation service over a WebSocket, streams
a 16 kHz PCM file to it, and assembles the transcript from the results the
service sends back. The model has four parts, one module each:

- **Auth** (`auth.dfy`) is the connection URL. It covers the IMF-fixdate
  timestamp that `toUTCString` prints (section 7.1.1.1 of RFC 7231), the
  three-line text that is signed, the HMAC-SHA256 signature, the base64
  authorization token and the URL that carries `authorization`, `date` and
  `host` unescaped. Lemmas read the URL's query and the signed text back.
  They show that the URL's `date` parameter and the signed `date` line are
  the same text.
- **Base64** (`base64.dfy`) is the encoder of section 4 of RFC 4648, which
  both the token and the audio use. It is proved against a decoder:
  decoding undoes encoding.
- **Frames** (`frames.dfy`) is the frame encoder `send` and its
  FIRST → CONTINUE → LAST state. One stream of N chunks is N + 1 frames.
  Only the first frame carries `common` and `business`, and the last one
  is data-only with empty audio.
- **Assembler** (`assembler.dfy`) is the result table `iatResult`. It is a
  JavaScript array written at `sn` and nulled at every index of `rg` for a
  replace-group (`pgs == "rpl"`) message. The transcript is the in-order
  concatenation of every candidate word, skipping holes and nulls.
- **Session** (`session.dfy`) covers the listeners of one session:
  - socket `open`, `message`, `close` and `error`;
  - reader `data`, `end` and `error`;
  - a promise that settles once.

  `Step` is a function that specifies one listener run, and `Run` runs a
  sequence of events. The class `RecognitionSession` holds the closure
  variables (`status`, `iatResult`, `finalResult`, `currentSid`) and
  implements every listener as a method proved to follow `Step`. The
  transcript's three nested loops are three methods (`BuildTranscript`,
  `JoinSegments`, `JoinCandidates`), each proved against its function. `Failure.Text` gives the exact message of each `Error` the
  promise is rejected with.

The network, the reader, the clock and the crypto library are not run.
They are replaced as follows:

- the events the listeners receive are an ordered sequence;
- the clock is an `Instant` parameter;
- HMAC-SHA256 and UTF-8 encoding are function-valued parameters
  (`Auth.Primitives`).

Where the code's behaviour is easy to misread, the model follows the code:

- a file with no audio data sends only a data-only LAST frame, with no
  FIRST frame and so no `common`/`business`;
- a socket that closes before any final message resolves the promise with
  the empty string, whatever partial transcript the table holds;
- a revision nulls exactly the indices listed in `rg`, not a range between
  them;
- a key that is not an array index (negative, or at least 2^32 − 1) is
  stored as a property that `forEach` never visits, so the table drops it;
- after `ws.close()` the reader is not stopped, so any later `data`/`end`
  events still hand frames to `ws.send`. The model records every call to
  `ws.send`.

## Model

| member | source | states |
|---|---|---|
| Base64.Encode | sever.js:148 | the encoding has 4 characters per started group of 3 bytes, uses only the alphabet and `=`, and is empty exactly for empty input |
| Base64.DecodeEncode | sever.js:150 | decoding the base64 of any byte string gives that byte string back |
| Base64.EncodeInjective | sever.js:204 | distinct audio chunks get distinct `audio` texts |
| Base64.EncodedSeparators | sever.js:154 | a base64 text holds no `&` or `?`, so the token can stand unescaped in the query |
| Auth.ImfFixdate | sever.js:142 | the timestamp is 29 characters, all from the date alphabet (letters, digits, `,`, ` `, `:`) |
| Auth.ImfFixdateFields | sever.js:142 | weekday, day, month, year, hour, minute and second read back from their fixed positions; `", "` follows the weekday, spaces sit at 7, 11 and 16, colons at 19 and 22, and the text ends in `" GMT"` |
| Auth.DateNumbers | sever.js:142 | the day and the year read back as numbers |
| Auth.ClockNumbers | sever.js:142 | the hour, the minute and the second read back as numbers |
| Auth.ImfFixdateLayout | sever.js:142 | the day part, the 4-digit year and the clock part sit at positions 0, 12 and 17, separated by spaces and followed by `" GMT"` |
| Auth.SignatureOrigin | sever.js:146 | the signed text; `SignedLines` reads it back as its three lines |
| Auth.AuthorizationOrigin | sever.js:149 | the authorization header text; `AuthStr` states that the token decodes to its UTF-8 bytes |
| Auth.ConnectionUrl | sever.js:154 | the URL; `UrlQuery` and `UrlParams` read its three parameters back |
| Auth.SessionUrl | sever.js:142-154 | the URL at one instant; `SameDate` ties its `date` parameter to the signed `date` line |
| Auth.Signature | sever.js:146-148 | the signature is the base64 of the HMAC-SHA256 of the signed text, keyed with `apiSecret` |
| Auth.AuthStr | sever.js:149-151 | the token is pure base64 and decodes to the UTF-8 bytes of the authorization header text with `api_key`, `algorithm`, `headers` and `signature` |
| Auth.SignedLines | sever.js:146 | the signed text is exactly three lines: `host: …`, `date: …`, `GET <uri> HTTP/1.1` |
| Auth.UrlQuery | sever.js:154 | the URL's query is exactly the three parameters `authorization`, `date`, `host`, in that order |
| Auth.LookupParams | sever.js:154 | each of the three parameters is found under its own name with the value put in |
| Auth.UrlParams | sever.js:154 | `authorization`, `date` and `host` read back from the URL as the token, the date and the host |
| Auth.ServiceConfigSafe | sever.js:13-24 | the shipped host URL has no `?`, and the host and URI have no `&` or line break |
| Auth.SameDate | sever.js:142-154 | at any instant, the URL's `date` parameter equals the signed text's `date` line (raw `, ` included), `authorization` is the token and `host` the host |
| Frames.FrameStatus.Code | sever.js:27-31 | FIRST, CONTINUE and LAST are the numbers 0, 1 and 2, and no other |
| Frames.NextStatus | sever.js:225 | after `send` the state is never FIRST: FIRST moves to CONTINUE, and CONTINUE and LAST stay as they are |
| Frames.SendChunks | sever.js:182-184 | one frame per data event; `SendChunksAt` gives frame i |
| Frames.StreamFrames | sever.js:182-190 | N + 1 frames ending in the LAST frame with empty audio; `StreamShape` gives every frame |
| Frames.WireStatus | sever.js:202 | the `status` number on the wire is 0 for the first frame of a non-empty stream, 2 for the end-of-stream frame and 1 for every frame in between |
| Frames.BuildFrame | sever.js:199-234 | the frame carries the current status, the fixed format and encoding, audio that decodes to the chunk, and `common`/`business` exactly in state FIRST |
| Frames.SendChunksAt | sever.js:182-184 | the frame for chunk i is built in the state reached after i chunks |
| Frames.StreamShape | sever.js:182-236 | N chunks give N + 1 frames: FIRST with the chunk, then CONTINUE data-only frames, then a data-only LAST frame with empty audio; frame i's audio is chunk i |
| Frames.FirstFrameOnce | sever.js:208-226 | a frame carries `common`/`business` iff it is frame 0 of a stream with at least one chunk; no chunks give the single LAST frame |
| Assembler.Put | sever.js:256 | an array index is written, and the length grows to cover it; any other key changes nothing the transcript sees |
| Assembler.Tombstone | sever.js:258-262 | every listed index holds null afterwards, every other slot keeps its value, and only listed indices are added |
| Assembler.Apply | sever.js:256-262 | the result sits at `sn` unless a revision nulls it; a revision nulls every listed index; all other slots are unchanged |
| Assembler.CandidatesText | sever.js:269-271 | the words of the candidates in order; `CandidatesTextAppend` splits it over concatenation |
| Assembler.CandidatesTextAppend | sever.js:269-271 | the text of two candidate lists joined is the two texts joined |
| Assembler.SegmentsText | sever.js:268-272 | every segment's candidates in order; `SegmentsTextAppend` and `SegmentOfCandidates` are its laws |
| Assembler.SegmentsTextAppend | sever.js:268-272 | the text of two segment lists joined is the two texts joined |
| Assembler.SlotText | sever.js:266-267 | a hole or a null contributes nothing, a result its segments' text |
| Assembler.TextRange | sever.js:266-274 | the slots of a range in ascending order; `TextRangeSplit`, `TextRangeFrame` and `TextRangeEmpty` are its laws |
| Assembler.TextRangeSplit | sever.js:266 | a range's text is the text of its two halves, in order |
| Assembler.TextRangeFrame | sever.js:266-267 | a range's text depends only on what its slots contribute |
| Assembler.TextRangeEmpty | sever.js:267 | a range of holes and nulls contributes nothing |
| Assembler.ApplySlotText | sever.js:256-262 | after any message, slot `k` reads as nothing if it is not an array index or a revision lists it, as the message's text at `sn`, and as before everywhere else |
| Assembler.ListedNotRange | sever.js:258-262 | a revision with `rg = [2, 5]` empties slots 2 and 5 only; 3 and 4 keep their text |
| Assembler.Transcript | sever.js:265-274 | the transcript of the table; a table of holes and nulls reads as `""`; `ApplySlotText` gives every slot's text after any message, `Overwrite`/`Append` the transcript after a non-revision, and `Revise` the transcript after a revision that replaces the table's tail |
| Assembler.Revision | sever.js:256-262 | a replace-group message: the result sits at `sn` unless listed, every listed index holds null, all other slots are unchanged |
| Assembler.SegmentOfCandidates | sever.js:268-272 | a segment's text is its candidates' words followed by the rest |
| Assembler.Overwrite | sever.js:256-274 | a non-revision replaces the text at `sn` and leaves the text before and after it in place |
| Assembler.Append | sever.js:256-274 | a non-revision at or past the end appends its text to the transcript |
| Assembler.Revise | sever.js:256-274 | a revision at the end listing every index from `from` on replaces all their text with its own |
| Assembler.RevisedSlots | sever.js:256-262 | after such a revision, the slots before `from` read as before, those from `from` on are empty, and `sn` holds the revision |
| Assembler.InOrder | sever.js:256-274 | results 0, 1, 2 in order give their texts concatenated in order |
| Assembler.ReplaceGroup | sever.js:256-274 | results 1 and 2 followed by a revision at 3 listing `[1, 2]` leave only the revision's text |
| Session.Step | sever.js:167-297 | a listener run settles the promise at most once, and only `close` resolves (with `finalResult`); a missing file and a reader error close the socket and reject with `FileMissing`/`ReadFailed`; a socket error rejects with `SocketFailed`; an error code closes and rejects with `ServiceFailed` without touching the table; a result message, final or not, leaves the outcome unsettled and applies to the table; only a final message sets `finalResult` to the transcript, `currentSid` to the message's sid and closes the socket; reader `data`/`end` events leave the outcome and the close request alone; a flagged message and an `open` with the file present change nothing; only reader events send frames |
| Session.SendStep | sever.js:199-236 | `send` appends exactly one frame, `BuildFrame` in the current state, moves the state to `NextStatus` and changes nothing else |
| Session.Run | sever.js:167-297 | the listeners run in event order; its laws are `RunAppend`, `SettleOnce`, `NoFinalKeepsResult`, `FramesFromReaderOnly` |
| Session.RunAppend | sever.js:167-297 | running two event sequences one after the other is running their concatenation |
| Session.SettleOnce | sever.js:138-297 | the promise settles once: after the first `resolve`/`reject` (lines 174, 195, 252, 290, 296) the outcome never changes whatever events follow |
| Session.NoFinalKeepsResult | sever.js:279-284 | events without a final message leave `finalResult` and `currentSid` unchanged |
| Session.CloseWithoutFinal | sever.js:288-291 | a pending session that closes before a final message resolves with `""` |
| Session.FramesFromReaderOnly | sever.js:182-196 | the frames sent and the encoder state depend only on the reader's `data`/`end` events, in order |
| Session.ChunksSend | sever.js:182-184 | data events send one frame each, the frames of `SendChunks` |
| Session.StreamSent | sever.js:182-190 | a whole stream of reader events from a fresh encoder sends exactly `StreamFrames` |
| Session.StreamInterleaved | sever.js:182-297 | with any socket events interleaved, the reader's stream still sends exactly `StreamFrames` |
| Session.ReaderLeavesResults | sever.js:182-190 | reader events leave the table and the outcome alone |
| Session.EndToEnd | sever.js:137-297 | open, three chunks, end, results 0–2 (the last final, with sid), close: resolves with the three texts in order, records the sid, sends the stream's four frames |
| Session.ReaderPhase | sever.js:182-190 | the reader's stream from the start sends exactly `StreamFrames` and leaves the table, the outcome and `finalResult` as they started |
| Session.ResultsThenClose | sever.js:240-291 | three in-order results, the last final, then close resolve with their concatenated text and record the sid |
| Session.ServiceErrorThenClose | sever.js:249-254 | a service error rejects with its message and closes the socket; the following `close` does not resolve; results are unchanged |
| Session.JoinCandidates | sever.js:269-271 | the loop over `cw` builds `CandidatesText` |
| Session.JoinSegments | sever.js:268-272 | the loop over `ws` builds `SegmentsText` |
| Session.RecognitionSession.constructor | sever.js:142-164 | the URL is `SessionUrl` for the instant, and the variables start as `Init` |
| Session.RecognitionSession.Complete | sever.js:290 | only the first `resolve`/`reject` settles the promise |
| Session.RecognitionSession.Send | sever.js:199-236 | `send` appends `BuildFrame` for the current state and moves FIRST on to CONTINUE |
| Session.RecognitionSession.Assign | sever.js:256 | the array assignment updates the table as `Put` |
| Session.RecognitionSession.Record | sever.js:256-262 | the write at `sn` and the loop over `rg` update the table as `Apply` |
| Session.RecognitionSession.BuildTranscript | sever.js:265-274 | the loop over the slots, with `JoinSegments` for each result, builds `Transcript` of the table |
| Session.RecognitionSession.OnOpen | sever.js:167-176 | the `open` listener follows `Step`: a missing file closes and rejects |
| Session.RecognitionSession.OnChunk | sever.js:182-184 | the `data` listener follows `Step` |
| Session.RecognitionSession.OnEnd | sever.js:186-190 | the `end` listener follows `Step`: switch to LAST, send empty audio |
| Session.RecognitionSession.OnReadError | sever.js:192-196 | the reader `error` listener follows `Step`: close and reject |
| Session.RecognitionSession.OnMessage | sever.js:240-285 | the `message` listener follows `Step` |
| Session.RecognitionSession.OnClose | sever.js:288-291 | the `close` listener follows `Step`: resolve with `finalResult` |
| Session.RecognitionSession.OnSocketError | sever.js:294-297 | the socket `error` listener follows `Step`: reject |

## Left out

- The Express server, the upload route, `convertWavToPcm` and the temporary files are outside this model. They are HTTP plumbing and a call to an external `ffmpeg` process.
- Logging (`console.log`/`console.error`) is left out because it has no effect on the outcome.
- The WebSocket library, the file system and the read stream are left out. They become the `Event` sequence, so listener runs are atomic and in one order. Concurrency, back-pressure and the 1280-byte chunking are not modelled.
- The `ws` library drops frames sent after `close()`. The model records every call to `ws.send` instead.
- `JSON.stringify` of frames and `JSON.parse` of messages are left out. Frames and messages are datatypes.
- Malformed messages are not modelled. In the source, a message missing `data` or `result` (sever.js:256), a revision missing `rg` (sever.js:259), or a stored result missing `ws` or `cw` (sever.js:268-269) throws inside the listener. The model assumes all of these are present.
- `sn` and the entries of `rg` are integers in the model. In the source, any other key is still written and never throws: a non-numeric key becomes a plain property that `forEach` skips, and a numeric string such as `"3"` is index 3. The model has no such keys.
- JavaScript loose comparisons (`res.code != 0`, `status == 2`) are modelled on integers only.
- Auth.Primitives: HMAC-SHA256 and UTF-8 encoding are uninterpreted function parameters, because their internals belong to the crypto library.
- Auth.ImfFixdate: years above 9999 are excluded by `ValidInstant`, where `toUTCString` would print more digits. The clock is a parameter.
- Session.Failure.Text: the message texts of rejected errors are given but not proved about; the promise's `Error` objects are modelled by these texts.
