# Models of the front server and its workers

A Node front server passes requests to worker processes. This project models the state machines that the passing rests on,
and proves what they keep over every run. Each module stands for one component of the program:

| module | component |
|---|---|
| `FileSinkLane`, `FileSink`, `WriteBehindSink` | the log files that are written behind the requests |
| `WsFrames`, `WsFrameParser`, `WsReader`, `WsConnection` | the receiving side of a websocket (RFC 6455), from bytes to messages within a window |
| `ResponseStream`, `ResponseOrder`, `ResponseSettling`, `ResponseProcesses` | a streamed response, from the source in the worker to the client of the server |
| `RequestBody`, `BodyProcesses` | a streamed request body, from the server to the reader in the worker |
| `Cache`, `LruCaches` | the cache bounded by entries, bytes and time |
| `RouteMatcher`, `RulesHandler`, `VirtualHosts` | compiled routes, rules and hosts against the simple form they stand for |
| `WaitingLines` | the requests that wait for a worker |
| `WatchedListings`, `WatchedAnswers`, `WatchedProbes` | the listings of watched directories |
| `WorkerRegistries`, `WorkerHistories` | the maps the pool keeps of its workers, and the leases that hold them |
| `PackageFamily` | the transitive dependencies of a package, and the reason to publish it |
| `Der` | the DER of a certificate request and a reader of it |

`Collections` and `Bytes` hold what several of them need.

The modules follow one plan. A datatype is the state, functions are the single steps, and `Run` folds a sequence of events, in
any order; an event that cannot happen changes nothing. The theorems are about every run. Where the program changes an object in
place, a class has its fields, and each method is proved to change them as the function of the step says. Where a protocol has two
sides, the methods of a side are proved to take the step in any system the side is a part of, and a class with both sides and the
channels (`StreamedResponse`, `BodyTransfer`) is proved to be in a state of a run after any callbacks, so that the theorems are
about its fields. The table lists the methods that search, loop or put sides together; the others set fields one after the other. A `Map` whose order matters is a sequence of entries with distinct keys. Every callback of the event loop is
one event, and what the system does meanwhile (storing a part of a write, delivering a message, a clock that moves on) are events
of their own. Regular expressions, UTF-8 decoding, lower case, the answers of git and the signature are functions that the
theorems hold for whatever they are.

Some of the properties one would expect are false, and are stated with what is true instead:

- The close code of a websocket can depend on how its bytes were cut (`WsReader.CodeDependsOnTheChunks`), exactly for the streams
  with a refused frame and, behind it, bytes that cannot be parsed, with different codes (`WsReader.EveryCutThrowsTheFirstError`).
  Whether there is an error does not depend on it.
- A part of a streamed response can proceed before it is written (`ResponseStream.EndOvertakes`), exactly when the end has reached
  the server, no acknowledgement is on its way and a part is being written (`ResponseOrder.ProceedsAfterItsWriteExactly`). `true`
  still means that all was written (`ResponseStream.TrueMeansWritten`).
- A promise of a streamed response can stay pending for good: a stream that starts after its function returned does not hear of an
  abort that came before (`ResponseSettling.LateStreamIsStuck`, `ResponseSettling.StuckForGood`). With nothing on its way all have
  settled exactly when the worker heard of the end of the request or no part came after it
  (`ResponseSettling.EveryPromiseSettlesExactly`).
- A sweep of the cache can leave expired entries (`Cache.OwnTtlHoldsBackTheSweep`), exactly when one is behind a valid entry in
  `expiring` (`Cache.SweepIsExact`), which a shared ttl and a clock that does not go back rule out.
- Releasing a lease twice can move the moment the worker was last used (`WorkerRegistries.ReleasedAgainIsLater`), exactly when time
  has passed and the worker is known and without other requests (`WorkerRegistries.ReleasedTwiceIsOnce`).
- The length of a DER element from 65536 bytes on is not read back (`Der.ElementRoundTrip`), and neither are the arcs of an object
  identifier whose first octet is 128 or more, although it fits a byte (`Der.OidRoundTrip`); the program has neither
  (`Der.RequestRoundTripBySize`, `Der.ProgramOidsComeBack`).

## Model

| member | source | states |
|---|---|---|
| `FileSink.EveryRunKeepsTheOrder` | packages/node-webserver/src/utils/create-file-sink.ts:39-163 | For every interleaving of lines, timers, blocking flushes, partial asynchronous writes and failures: counting the chunk on its way as written, the first `offset` bytes of an opened file are its old content and the lines of the chunks that did not fail, each once, in log order; every accepted line was taken once or is still buffered; `bufferSize` is the summed length of the buffered lines, and the timer is set exactly while a line is buffered |
| `FileSink.FlushedFilesAreTheLog` | packages/node-webserver/src/utils/create-file-sink.ts:113-163 | When no write fails and no line was dropped, after a flush every file is its old content followed by every line logged to it, once and in order, and the writes still in flight change nothing any more however late they land |
| `FileSink.LateRun` | packages/node-webserver/src/utils/create-file-sink.ts:61-80 | After a flush, any sequence of late landings and callbacks leaves the disk and the file entries of all levels as they are |
| `FileSink.RunValid` | packages/node-webserver/src/utils/create-file-sink.ts:16-165 | Every event sequence from a valid sink ends in a valid one: the invariant behind the run theorems is inductive |
| `FileSink.RunFaithful` | packages/node-webserver/src/utils/create-file-sink.ts:148-163 | In runs without disk failures the accepted lines are the logged ones, unless some were counted as dropped (`LineIsDroppedExactlyWhenFull` says when) |
| `FileSink.LineIsDroppedExactlyWhenFull` | packages/node-webserver/src/utils/create-file-sink.ts:148-158 | In every run a line is accepted, by its own level only and with nothing dropped, if and only if at most 16 MiB wait before it; otherwise it is counted as dropped and nothing else changes |
| `FileSink.FilesAreTheLogUnlessFull` | packages/node-webserver/src/utils/create-file-sink.ts:113-163 | When no write fails and at most 16 MiB wait before each line, every file is after a flush its old content followed by every line logged to it, with nothing said of what was dropped |
| `FileSink.EveryLineIsAccountedFor` | packages/node-webserver/src/utils/create-file-sink.ts:49-54 | In every run the lines logged are those accepted, those reported as dropped and those still to be reported, together |
| `FileSink.LineWaitsOrIsWritten` | packages/node-webserver/src/utils/create-file-sink.ts:154-163 | What becomes of an accepted line in every run: without an interval its file is flushed at once; when more than 64 KiB wait, every level without a chunk on its way has its lines taken; otherwise nothing is written and the timer is set |
| `FileSink.TimerWrites` | packages/node-webserver/src/utils/create-file-sink.ts:104-111 | The timer takes the lines of every level that has no chunk on its way, and is set again exactly when something still waits |
| `FileSink.OnlyFailedWritesLose` | packages/node-webserver/src/utils/create-file-sink.ts:71-101 | In every run a file that is open or can be opened loses lines only when the write of its chunk fails, and then exactly the lines of that chunk |
| `FileSink.DropsAreReported` | packages/node-webserver/src/utils/create-file-sink.ts:62-80 | In every run drops are reported by a flush and by the end of a chunk, and by no other callback; a flush leaves nothing to wait for and no timer |
| `FileSink.FilesAreOpenedForLines` | packages/node-webserver/src/utils/create-file-sink.ts:28-37 | In every run a file is opened only for a level that has accepted a line |
| `FileSinkLane.StaleLand` | packages/node-webserver/src/utils/create-file-sink.ts:62-64 | A write still in flight for a chunk that is not pending any more only stores bytes that are there already |
| `FileSinkLane.SettlePending` | packages/node-webserver/src/utils/create-file-sink.ts:113-122 | Writing the pending chunk again in its place makes the file right up to the offset, whatever part of it had landed, and leaves every write in flight harmless |
| `FileSinkLane.LandValid` | packages/node-webserver/src/utils/create-file-sink.ts:61-68 | Storing any part of any write in flight, current or overtaken, keeps the file invariant |
| `FileSinkLane.CompleteValid` | packages/node-webserver/src/utils/create-file-sink.ts:62-71 | A callback without an error keeps the invariant: the rest of a partial write is started behind what landed, a stale callback is ignored |
| `FileSinkLane.FailValid` | packages/node-webserver/src/utils/create-file-sink.ts:71-76 | A failed chunk is taken out of the promise and the next one goes where it was meant to, with the earlier content untouched |
| `FileSinkLane.BeginValid` | packages/node-webserver/src/utils/create-file-sink.ts:82-101 | Starting a write takes the buffered lines once, at the current offset, and never while another chunk is pending; a file that cannot be opened gives them up |
| `FileSinkLane.FlushValid` | packages/node-webserver/src/utils/create-file-sink.ts:114-137 | A blocking flush keeps the invariant, also when it overtakes a write in flight |
| `FileSinkLane.FlushCalm` | packages/node-webserver/src/utils/create-file-sink.ts:113-128 | When nothing has failed, a flush makes the file exactly its old content and all accepted lines |
| `FileSinkLane.CallbacksEndTheirWrites` | packages/node-webserver/src/utils/create-file-sink.ts:61-71 | A callback ends its write, and exactly one that wrote a part of the pending chunk starts another, behind what was written |
| `FileSinkLane.LandedIsThere` | packages/node-webserver/src/utils/create-file-sink.ts:62 | Whenever the system has stored a part of a write, those bytes of the chunk are on the disk at the position the write was given |
| `FileSinkLane.StoredIsThere` | packages/node-webserver/src/utils/write-all.ts:4-9 | A positional write puts its bytes in their place, leaves everything around them, and fills a gap with zeros |
| `WriteBehindSink.WriteAll` | packages/node-webserver/src/utils/write-all.ts:4-9 | The loop over partial blocking writes ends and leaves what one write of the whole chunk at the position would |
| `WriteBehindSink.LevelFile.StartWrite` | packages/node-webserver/src/utils/create-file-sink.ts:82-101 | The fields of a level change as the specified start of a write says |
| `WriteBehindSink.LevelFile.FlushFile` | packages/node-webserver/src/utils/create-file-sink.ts:114-137 | The fields of a level change as the specified blocking flush says: the pending chunk first, then the buffer |
| `WriteBehindSink.LevelFile.OnWritten` | packages/node-webserver/src/utils/create-file-sink.ts:62-80 | The callback of a write changes the level as specified and tells whether the chunk has ended |
| `WriteBehindSink.LogSink.FlushAsync` | packages/node-webserver/src/utils/create-file-sink.ts:104-111 | The loop over the levels starts every write and arms the timer exactly when something is still buffered |
| `WriteBehindSink.LogSink.FlushFiles` | packages/node-webserver/src/utils/create-file-sink.ts:144 | Every level with a file or with lines is flushed, and no other changes |
| `WriteBehindSink.LogSink.Flush` | packages/node-webserver/src/utils/create-file-sink.ts:140-146 | The loop over the levels flushes each of them, reports the dropped lines and clears the timer |
| `WriteBehindSink.LogSink.Log` | packages/node-webserver/src/utils/create-file-sink.ts:148-163 | The fields change as the specified step says; in particular, while `bufferSize` is at most 16 MiB the level accepts the line and nothing is dropped, and above it no level changes and `dropped` grows by one |
| `WriteBehindSink.LogSink.OnWritten` | packages/node-webserver/src/utils/create-file-sink.ts:62-80 | The callback of a write in flight is the specified step of the sink, with the report of dropped lines and the rescheduled flush |
| `WsFrames.FrameRoundTrip` | packages/node-worker-express/src/utils/create-ws-frame-parser.ts:43-71 | For every valid frame, mask and following bytes, in the 7-bit, 16-bit and 64-bit forms of the length: reading the encoding gives the frame back and takes exactly its bytes, except that one above a positive limit or above 2^53 - 1 bytes is refused with 1009 (RFC 6455 sections 5.2 and 5.3) |
| `WsFrames.FrameStillComing` | packages/node-worker-express/src/utils/create-ws-frame-parser.ts:43-60 | No proper prefix of a valid frame is taken for a frame or for an error, unless the frame is too big |
| `WsFrames.ReadFrameMore` | packages/node-worker-express/src/utils/create-ws-frame-parser.ts:43-71 | A frame or an error is told from the bytes it takes, whatever follows, and the bytes needed stay the same until they are there |
| `WsFrames.HeaderIsRefusedExactly` | packages/node-worker-express/src/utils/create-ws-frame-parser.ts:23-33 | Two bytes are refused, as a protocol error, if and only if no frame that a client may send begins with them: reserved bits, an unknown opcode, no mask, or a control frame in parts or above 125 bytes |
| `WsFrames.MaskedTwice` | packages/node-worker-express/src/utils/create-ws-frame-parser.ts:13-17 | Unmasking undoes masking |
| `WsFrames.MaskTurnsBitsRound` | packages/node-worker-express/src/utils/create-ws-frame-parser.ts:13-17 | Bit by bit, masking turns round exactly the bits of the mask, repeated every 4 bytes (RFC 6455 section 5.3) |
| `WsFrames.Unmask` | packages/node-worker-express/src/utils/create-ws-frame-parser.ts:13-17 | The loop over the allocated buffer computes the exclusive or with the mask repeated |
| `WsFrames.ConstructWsHeader` | packages/node-worker-express/src/utils/construct-ws-header.ts:2-12 | The header written in place is the flags, the mask bit with the short length, and the length in 0, 2 or 8 bytes, big endian |
| `WsFrames.ReadLength` | packages/node-worker-express/src/utils/construct-ws-header.ts:2-12 | The length read back from a header is the length it was made for, in all three forms |
| `WsFrameParser.ChunkingDoesNotMatter` | packages/node-worker-express/src/utils/create-ws-frame-parser.ts:77-107 | For every stream and every split of it into chunks, empty ones included: the pushes together give the frames of one greedy parse of the whole stream and keep exactly its unparsed rest, and some push throws exactly when the whole parse meets an error, with its code |
| `WsFrameParser.PushParses` | packages/node-worker-express/src/utils/create-ws-frame-parser.ts:84-107 | The `needed` shortcut never withholds a frame or an error: a push does what a parse of everything held does |
| `WsFrameParser.ParseMore` | packages/node-worker-express/src/utils/create-ws-frame-parser.ts:93-103 | More bytes do not change what was parsed before them |
| `WsFrameParser.SentFramesComeOut` | packages/node-worker-express/src/utils/ws-client-frame.test-helper.ts:4-9 | Whatever frames a client encodes, with a mask each, and however they are cut, exactly those frames come out and nothing is left |
| `WsFrameParser.ReadFrames` | packages/node-worker-express/src/utils/create-ws-frame-parser.ts:93-100 | The loop over a buffer finds the frames of the greedy parse and stops at the first incomplete or broken one |
| `WsFrameParser.FrameParser.Read` | packages/node-worker-express/src/utils/create-ws-frame-parser.ts:84-107 | The parser object changes its chunks, size and needed bytes as the specified push says, and throws where that does |
| `WsReader.FragmentsComeOutWhole` | packages/node-worker-express/src/utils/create-ws-reader.ts:37-73 | Messages cut into any fragments, with any control frames between them, come out as exactly those messages, in order, with the control events in their places: a text as its decoded bytes, a binary message as its bytes, a ping with its data, a close with its two-byte code and decoded reason (RFC 6455 sections 5.4 to 5.6) |
| `WsReader.AcceptsWhatFits` | packages/node-worker-express/src/utils/create-ws-reader.ts:44-73 | The reader throws exactly when a frame does not fit the ones before it; until then its events are those of the frames, told without its functions, and it holds the bytes of the open message within the limit; what it throws is 1002, 1009 or 1007 for the first frame that does not fit |
| `WsReader.FrameFits` | packages/node-worker-express/src/utils/create-ws-reader.ts:44-60 | One frame is refused exactly when it does not fit the history, with the code of the rule it breaks; otherwise it gives the event of what it ends, and the held fragments stay those of the open message |
| `WsReader.ControlIsRead` | packages/node-worker-express/src/utils/create-ws-reader.ts:10-31 | A control frame is read as what it means, and refused exactly when it breaks a rule: a close has no payload, or a code of RFC 6455 section 7.4 that may be sent and behind it valid UTF-8 |
| `WsReader.ErrorLosesItsChunk` | packages/node-worker-express/src/utils/create-ws-reader.ts:72 | When some chunk throws, the events given are exactly those of the chunks before it |
| `WsReader.EventsDoNotDependOnChunks` | packages/node-worker-express/src/utils/create-ws-reader.ts:72 | The events of the chunks are those of the whole stream, and an error is thrown for some chunk exactly when the whole stream has one |
| `WsReader.ClientIsUnderstood` | packages/node-worker-express/src/utils/ws-client-frame.test-helper.ts:4-9 | End to end: messages, fragmented, masked and cut by the network in any way, come out as what the client meant, texts as texts and binary messages as bytes |
| `WsReader.EveryCutThrowsTheFirstError` | packages/node-worker-express/src/utils/create-ws-reader.ts:72 | For every stream: whatever the cut, the code thrown is the one of the first error in the order of the bytes, if and only if the stream does not have both a refused frame and, behind it, bytes that cannot be parsed, with different codes |
| `WsReader.ThrowsOneOfTheTwo` | packages/node-worker-express/src/utils/create-ws-reader.ts:72 | From any state and for any cut, what is thrown is the error of the frames or the one of the bytes behind them, and nothing is thrown exactly when there is neither |
| `WsReader.CodeDependsOnTheChunks` | packages/node-worker-express/src/utils/create-ws-reader.ts:72 | Concrete bytes whose close code differs between one chunk and two: the whole chunk is parsed before any frame of it is read |
| `WsReader.Reader.ReadAll` | packages/node-worker-express/src/utils/create-ws-reader.ts:65-72 | The loop over the frames gives the events up to the first that throws |
| `WsReader.Reader.ReadChunk` | packages/node-worker-express/src/utils/create-ws-reader.ts:72 | A chunk is parsed and read as specified, with the state kept between the chunks |
| `WsConnection.EveryRunIsSafe` | packages/node-worker-express/src/utils/create-ws-connection.ts:29-120 | In every run the unacknowledged bytes are the sum of the queued sizes, an open client is paused exactly while 16 messages or 1 MiB wait, a paused client has a message whose acknowledgement is to come, and at most one close frame is written with no frame after it (RFC 6455 section 5.5.1) |
| `WsConnection.AcknowledgedResumes` | packages/node-worker-express/src/utils/create-ws-connection.ts:95-99 | Acknowledging what is queued always resumes the client |
| `WsConnection.WorkerGetsTheMessages` | packages/node-worker-express/src/utils/create-ws-connection.ts:65-93 | In every run the worker gets the messages of the byte stream in order, each once, however it was cut; all of those in the chunks taken while the connection is not closing |
| `WsConnection.ClosingTakesNothing` | packages/node-worker-express/src/utils/create-ws-connection.ts:55-63 | Once the connection is closing, however the run goes on, no message is passed on and no frame is written |
| `WsConnection.EveryEventDoesAsMeant` | packages/node-worker-express/src/utils/create-ws-connection.ts:55-131 | In every run of a connection that is not closing: a ping is answered with its data, a close with its code or 1000, an error with its code, a client with more than 8 MiB to read with 1008, one silent for the idle time with 1001; the messages up to a close are passed on and queued; nothing is read before the connection was opened |
| `WsConnection.OldestAreAcknowledged` | packages/node-worker-express/src/utils/create-ws-connection.ts:65-99 | In every run the queue is the sizes of the messages passed on last, a text by its bytes, so an acknowledgement is always about the oldest |
| `WsConnection.WsSocket.OnChunk` | packages/node-worker-express/src/utils/create-ws-connection.ts:83-93 | Receiving a chunk changes the window, the pause and the frames written as specified |
| `WsConnection.WsSocket.HandleAll` | packages/node-worker-express/src/utils/create-ws-connection.ts:65-76 | The loop over the events takes each of them in order, and nothing more once one closes the connection |
| `ResponseStream.PartsAreConserved` | packages/node-worker-express/src/utils/stream-response.ts:48-80 | In every run of worker, server and both channels, until an abort: the worker waits for exactly as many parts as are in the channel, being written or acknowledged on the way back; the parts in flight stay within the window, and `inFlight` is the sum of their sizes |
| `ResponseStream.TrueMeansWritten` | packages/node-worker-express/src/utils/stream-response.ts:95-102 | In every run, `true` means that the source did not fail at any event, the write callback of every part has run and the end was sent, although the end is acknowledged at once and acknowledgements are matched by count |
| `ResponseStream.AnswerIsWhetherAllWentWell` | packages/node-worker-express/src/utils/stream-response.ts:82-102 | In every run that has an answer, it is `true` if and only if the source did not fail and every part, the end included, proceeded |
| `ResponseStream.AnswersAtOnce` | packages/node-worker-express/src/utils/stream-response.ts:62-102 | At every moment of every run: once all promises have settled at the end it answers just that, it answers `false` as soon as the part it awaits did not proceed, goes on when it did, and otherwise waits |
| `ResponseOrder.WaitsExactlyWhenFull` | packages/node-worker-express/src/utils/stream-response.ts:62-80 | In every run the source goes on exactly while the parts that were not awaited, by their number and bytes, leave room in the window, and otherwise waits for a part that with those behind it fills it |
| `ResponseStream.NothingIsAborted` | packages/node-worker-express/src/utils/create-worker-message-listener.ts:81-97 | In every run whose clean-ups come after the response no abort is sent and no part is dropped |
| `ResponseStream.LetsGoWhenTheLastSettled` | packages/node-worker/src/pool/utils/create-response-sender.ts:41-61 | In every run the worker lets go of the stream when the last part has a result, and before that only when its function has returned |
| `ResponseStream.MessagesKeepTheirOrder` | packages/node-worker/src/pool/utils/create-response-sender.ts:41-61 | What is sent in either direction goes behind what is on its way, an abort too |
| `ResponseStream.SettledPromisesStay` | packages/node-worker/src/pool/utils/create-response-sender.ts:41-61 | However a run goes on, a promise that has settled stays as it is, so that each settles at most once, and no part is forgotten |
| `ResponseSettling.EveryPromiseSettlesExactly` | packages/node-worker/src/pool/utils/create-worker-session.ts:62-71 | In every run, once nothing is on its way, every promise has settled if and only if the worker heard that the request is over or no part came to the server after it was |
| `ResponseSettling.LateStreamIsStuck` | packages/node-worker/src/pool/utils/create-response-sender.ts:42-45 | A concrete run in which a stream that starts after its function returned misses the abort, and its part is not acknowledged |
| `ResponseSettling.StuckForGood` | packages/node-worker-express/src/utils/stream-response.ts:62-103 | A response in such a state stays in it, whatever happens, unless the server says once more that the request is over |
| `ResponseStream.EndOvertakes` | packages/node-worker-express/src/utils/create-worker-message-listener.ts:86-90 | A concrete run in which the acknowledgement of the end lets a part proceed that is still being written |
| `ResponseOrder.ProceedsAfterItsWriteExactly` | packages/node-worker-express/src/utils/create-worker-message-listener.ts:81-97 | In every run that is not aborted, every part that may go on was written, if and only if the end has not reached the server, an acknowledgement is still on its way, or nothing is being written |
| `ResponseOrder.RunOrder` | packages/node-worker/src/pool/utils/create-response-sender.ts:52-60 | In every run the parts are written in the order of their numbers, and after the end the parts that wait are the last ones the server was given |
| `ResponseOrder.BytesStayWithinTheWindow` | packages/node-worker-express/src/utils/stream-response.ts:62-80 | In every run, aborted or not, the bytes in the channel and being written are at most the window and one part more |
| `ResponseStream.RunValid` | packages/node-worker/src/pool/utils/create-worker-session.ts:63-71 | The invariant of the whole system is kept by every run, aborts and late returns included |
| `ResponseProcesses.WorkerSide.OnAbort` | packages/node-worker/src/pool/utils/create-worker-session.ts:62-71 | The loop over the waiting parts settles each with false |
| `ResponseProcesses.WorkerSide.OnSettled` | packages/node-worker-express/src/utils/stream-response.ts:62-68 | In any system with this side in it, what is awaited has settled: the sender goes on, drains further, stops, or answers the conjunction a loop over the results computes |
| `ResponseProcesses.StreamedResponse.Resume` | packages/node-worker-express/src/utils/stream-response.ts:95-102 | For the two objects and the channels together, after any run of their callbacks: the answer is `true` if and only if the source did not fail and every part proceeded, and then the end was sent and every part was written |
| `ResponseProcesses.StreamedResponse.DeliverToWorker` | packages/node-worker/src/pool/utils/create-worker-session.ts:142-158 | Handing the oldest message of the channel to the worker is the step of the whole system, whether it acknowledges or aborts |
| `ResponseProcesses.StreamedResponse.DeliverToServer` | packages/node-worker-express/src/utils/create-worker-message-listener.ts:81-97 | Handing the oldest part of the channel to the server is the step of the whole system |
| `ResponseProcesses.StreamedResponse.ModelIsValid` | packages/node-worker-express/src/utils/stream-response.ts:43-103 | The objects are in a state of a run after any callbacks, so the invariant of the whole system holds of them |
| `RequestBody.EveryRunIsValid` | packages/node-worker/src/pool/utils/create-body-forwarder.ts:17-44 | In every run of server, worker and channel, until the upload is destroyed: `unacknowledged` is the parts in the channel, plus those owed, plus acknowledgements on the way; a paused request has one of them to resume it; the worker's stream gets an in-order prefix of the body, and no more than the limit is sent |
| `RequestBody.OverExactlyWhenTooBig` | packages/node-worker/src/pool/utils/create-body-forwarder.ts:26-32 | In every run a request that was not cleaned up is over if and only if there is a limit and its body is above it; all parts that came while it was read are forwarded, but the one that was too much |
| `RequestBody.PausedAtFour` | packages/node-worker/src/pool/utils/create-body-forwarder.ts:33-42 | In every run of a request that is not over at most 4 parts are not acknowledged, and it is paused exactly when there are 4 |
| `RequestBody.AcknowledgedWithRoomOrWhenRead` | packages/node-worker/src/pool/utils/create-upload.ts:23-47 | In every run a part is acknowledged at once when its stream has room, and otherwise with all that are owed as soon as it is read |
| `RequestBody.OverStaysOver` | packages/node-worker/src/pool/utils/create-body-forwarder.ts:29-42 | In every run a request that is over forwards nothing and hears of no acknowledgement, and an upload that ended or was destroyed acknowledges nothing |
| `RequestBody.ClosedExactlyWhenTheEndCame` | packages/node-worker/src/pool/utils/create-body-forwarder.ts:37-38 | In every run the end is passed on exactly when the body ended while the request was read |
| `RequestBody.NothingGetsStuck` | packages/node-worker/src/pool/utils/create-upload.ts:23-47 | From every valid state, delivering what is on its way and reading resumes the request, even when the stream never has room at once; all parts are acknowledged then, except the ones owed when the end of the body came, after which the stream is not read for more |
| `BodyProcesses.UploadStream.Read` | packages/node-worker/src/pool/utils/create-upload.ts:23-25 | In any system with this side in it, the loop pays everything owed |
| `BodyProcesses.BodyTransfer.ModelIsValid` | packages/node-worker/src/pool/utils/create-body-forwarder.ts:17-44 | For the two objects and the channels together, after any run of their callbacks: the conservation law, the pause at 4, what resumes a paused request, when the request is over, what was forwarded of the body, and the in-order prefix hold of their fields |
| `BodyProcesses.BodyTransfer.DeliverToWorker` | packages/node-worker/src/pool/utils/create-upload.ts:36-47 | Handing the oldest message to the worker is the step of the whole system, with room in its stream or without |
| `BodyProcesses.BodyTransfer.DeliverToServer` | packages/node-worker/src/pool/utils/create-body-forwarder.ts:39-42 | Handing an acknowledgement to the server is the step of the whole system, and does nothing to a request that is over |
| `Cache.SetKeepsLongestSuffix` | packages/node-worker-express/src/utils/create-cache.ts:54-56 | A `set` that keeps its value leaves the longest suffix of the order of use (`EntriesAreByUse`) that fits both limits, with the new entry last and never pushed out by its own `set` |
| `Cache.EntriesAreByUse` | packages/node-worker-express/src/utils/create-cache.ts:58-71 | In every run the entries are in the order of their last use, told from the calls alone: a hit counts as a use just as a `set` does |
| `Cache.GetAnswersExactly` | packages/node-worker-express/src/utils/create-cache.ts:58-71 | In every run a `get` answers with a value if and only if an entry of the key has it whose time to expire has not come; it drops an entry that has expired and no other |
| `Cache.SetStaysExactly` | packages/node-worker-express/src/utils/create-cache.ts:72-89 | In every run a `set` leaves an entry of its key if and only if its size is a number, one entry of it fits both limits, and it has a positive ttl or none; that entry has what was set and expires by its own ttl before that of the cache |
| `Cache.SetLeavesTheLatestLiveEntries` | packages/node-worker-express/src/utils/create-cache.ts:72-89 | In every run with a shared ttl and a clock that does not go back, that suffix is taken of the entries still valid at the sweep and the new one |
| `Cache.EveryRunIsValid` | packages/node-worker-express/src/utils/create-cache.ts:34-103 | After every operation of every run both limits hold, `bytes` is the exact sum of the entry sizes, and `expiring` holds exactly the entries that expire |
| `Cache.GetAnswersTheLatestSet` | packages/node-worker-express/src/utils/create-cache.ts:58-71 | In every run, with any clock, a `get` only answers with the value of the latest `set` of the key, never after its expiry, a `delete` or a `clear` (`GetAnswersExactly` says when it answers) |
| `Cache.SweepsLeaveNothingExpired` | packages/node-worker-express/src/utils/create-cache.ts:43-52 | With a clock that does not go back and no ttl of their own, a sweep leaves exactly the entries that have not expired, in their order |
| `Cache.SweepDropsAllExpired` | packages/node-worker-express/src/utils/create-cache.ts:43-52 | While `expiring` is in the order of expiry, the condition holds at every moment |
| `Cache.EveryRunIsOrdered` | packages/node-worker-express/src/utils/create-cache.ts:30-31 | With a shared ttl, `expiring` is in nondecreasing order of expiry in every run |
| `Cache.SweepIsExact` | packages/node-worker-express/src/utils/create-cache.ts:43-52 | For every consistent cache and moment, the sweep that stops at the first valid entry leaves exactly the valid entries if and only if no expired entry is behind a valid one in `expiring` |
| `Cache.OwnTtlHoldsBackTheSweep` | packages/node-worker-express/src/utils/create-cache.ts:48 | A concrete run in which an entry with a ttl of its own makes that condition fail |
| `Cache.EvictKeepsLongestSuffix` | packages/node-worker-express/src/utils/create-cache.ts:54-56 | The eviction loop ends with the longest suffix that fits |
| `LruCaches.LruCache.Set` | packages/node-worker-express/src/utils/create-cache.ts:72-89 | The two maps and the total change as specified; a size that is not a number throws before anything changed |
| `LruCaches.LruCache.Sweep` | packages/node-worker-express/src/utils/create-cache.ts:49-52 | The loop drops entries while the first one to expire has expired, and ends |
| `LruCaches.LruCache.PushOut` | packages/node-worker-express/src/utils/create-cache.ts:54-56 | The loop drops the least recently used entries while a limit is exceeded, and ends |
| `RouteMatcher.TableIsTheScan` | packages/node-worker-express/src/utils/create-route-matcher.ts:34-79 | For every list of routes and every path, the map and the cut list of patterns find what a scan for the first matching route finds, whichever kind it is |
| `RouteMatcher.ScanFindsTheFirst` | packages/node-worker-express/src/utils/create-route-matcher.ts:29-33 | The scan is the first route that matches, and nothing when none does |
| `RouteMatcher.SlotsMeaning` | packages/node-worker-express/src/utils/create-route-matcher.ts:46-59 | A matcher is made exactly when every route is valid; otherwise the error is the one of the first that is not |
| `RouteMatcher.CreateRouteMatcher` | packages/node-worker-express/src/utils/create-route-matcher.ts:34-59 | The loop over the routes throws that error or fills a map and a list that answer every path as the scan does |
| `RouteMatcher.CompilePattern` | packages/node-worker-express/src/utils/create-route-matcher.ts:11-24 | An unknown flag is refused by name before the pattern is compiled, a pattern that cannot be compiled after it |
| `RouteMatcher.FindTarget` | packages/node-worker-express/src/utils/create-route-matcher.ts:61-78 | The lookup loop finds the specified target and stops at the first match or behind the path |
| `RouteMatcher.TheFirstRouteDecides` | packages/node-worker-express/src/utils/create-route-matcher.ts:34-79 | For every list of routes and every path, told without the checks and the table: the matcher exists if and only if every route has a target and either a path that starts with a slash and has at most 2048 characters or a valid pattern with known flags, the error is the first reason of the first route that has not; a path gets the target of the first route that matches it, with the groups that took part, and nothing when none does or it is longer than that |
| `RulesHandler.RulesAreTheScan` | packages/node-webserver/src/utils/create-rules-handler.ts:12-27 | For every list of rules, method and path, `findRule` over the grouped tables is a scan for the first rule whose method and path match |
| `RulesHandler.GroupingKeepsTheRules` | packages/node-webserver/src/utils/create-rules-handler.ts:12-16 | Flattening the groups gives the rules back in order |
| `RulesHandler.GroupsAreTables` | packages/node-webserver/src/utils/create-rules-handler.ts:11-16 | A group is one rule or only rules without methods, and rules without methods that follow each other are always one table |
| `RulesHandler.GroupIsTheScan` | packages/node-webserver/src/utils/create-rules-handler.ts:18-27 | One group answers as a scan of its rules does, for methods written in any case |
| `RulesHandler.HandlerIsMade` | packages/node-webserver/src/utils/create-rules-handler.ts:33-34 | The handler is made exactly when every rule on its own is a valid route |
| `VirtualHosts.RouterIsTheChain` | packages/node-webserver/src/utils/virtual-host-router.ts:72-94 | For every configuration, `Host` header and behaviour of the handlers, the router does what one middleware per host and the fallback behind them do; `misdirected` runs exactly when nothing matches and there is no fallback |
| `VirtualHosts.SelectedAreTheMatching` | packages/node-webserver/src/utils/virtual-host-router.ts:39-47 | Map lookup, pattern filter and sort give exactly the matching hosts in configuration order |
| `VirtualHosts.CalledUpToTheEnd` | packages/node-webserver/src/utils/virtual-host-router.ts:49-70 | The handlers are called in order up to the first that answers or errors, which decides the end; `next('route')` goes on like `next()` |
| `VirtualHosts.BuildRouteGroups` | packages/node-webserver/src/utils/virtual-host-router.ts:22-37 | The loop fills the map and the list of patterns as specified, each route with its place in the configuration |
| `VirtualHosts.PortIsLeftOut` | packages/node-webserver/src/utils/get-hostname.ts:2-11 | The port is left out of a host name, and the colons between the brackets of an IPv6 address are not taken for one |
| `VirtualHosts.HostnameEndsAtThePort` | packages/node-webserver/src/utils/get-hostname.ts:2-11 | For every `Host` header: its name is what is before the first colon that is not between brackets, or all of it, in lower case, and without a header there is none |
| `PackageFamily.FamilyIsTheClosure` | tools/src/utils/get-package-family.ts:5-12 | On every dependency graph, cycles included, the family is exactly the packages reachable from the item |
| `PackageFamily.ItselfIsFirst` | tools/src/utils/get-package-family.ts:5-12 | The item is the first of its family and no package is in it twice |
| `PackageFamily.CollectFamily` | tools/src/utils/get-package-family.ts:5-12 | The recursion that adds to one shared set ends and adds what the specified depth-first visit adds, in its order |
| `PackageFamily.GetWorkspaceDependencies` | tools/src/utils/get-workspace-dependencies.ts:3-6 | The dependencies are exactly the first workspace packages with a name among the three kinds of dependencies |
| `PackageFamily.DependenciesAreInOrder` | tools/src/utils/get-workspace-dependencies.ts:3-6 | They come in the order in which the three kinds name them first, so each once |
| `PackageFamily.PublishedWhenAnythingReachableChanged` | tools/src/utils/get-publish-reason.ts:5-26 | There is a reason if and only if all are asked for, the release cannot be compared with, or some reachable package has changed |
| `PackageFamily.TheReasonNamesTheChange` | tools/src/utils/get-publish-reason.ts:21-25 | The item's own change is reported first; otherwise the reason names a reachable package that changed |
| `PackageFamily.TheReasonNamesTheRelease` | tools/src/utils/get-publish-reason.ts:12-19 | A release that cannot be compared with is reported as never published, without a commit, or with a commit that the history does not have |
| `WaitingLines.EveryRunIsValid` | packages/node-worker/src/waiting-line.ts:29-99 | In every run of arrivals, timeouts, aborts and wake-ups: each request is settled at most once and is either waiting, with its timer set, or settled for one reason; the counters are the numbers settled for theirs; the line is within a positive `maxQueue` and in order of arrival |
| `WaitingLines.WakeServesInOrder` | packages/node-worker/src/waiting-line.ts:67-87 | A wake-up settles what `serve` takes in the order of the line, and the others keep their places among each other |
| `WaitingLines.PlacesGoToTheOldest` | packages/node-worker/src/waiting-line.ts:67-70 | When `serve` takes as many as there are places, the requests that waited longest get them |
| `WaitingLines.StepValid` | packages/node-worker/src/waiting-line.ts:29-99 | Every single event keeps that invariant |
| `WaitingLines.EveryEventSettlesAsMeant` | packages/node-worker/src/waiting-line.ts:29-99 | In every run: a request is refused if and only if a positive `maxQueue` is reached, and otherwise abandoned at once when its signal has aborted; a timer settles the request it belongs to as timed out, a signal as abandoned, if it waits, and takes it out of its place; a wake-up settles those that `serve` takes |
| `WaitingLines.WaitingLine.WakeUp` | packages/node-worker/src/waiting-line.ts:68-70 | The loop offers every request that waited once and settles or keeps it as specified |
| `WaitingLines.WaitingLine.Remove` | packages/node-worker/src/waiting-line.ts:95-98 | The search for the request and the splice at its place leave the line without it, the others in their order |
| `WatchedListings.EveryRunIsValid` | packages/node-worker-express/src/utils/create-watched-probe.ts:64-142 | In every run of reads, changes, reports, expiry and closing: `totalEntries` is the sum of the listings and within its limit, no more directories are watched than allowed, listings are in order of expiry, every listing belongs to the current watcher of its directory, and says what is on the disk unless a change is still to be reported |
| `WatchedListings.MissingIsMissing` | packages/node-worker-express/src/utils/create-watched-probe.ts:131-142 | When a listing answers "missing", no name that the directory holds after the changes so far has the same normalized form, except while a change of the directory is still to be reported |
| `WatchedAnswers.EveryEventDoesAsMeant` | packages/node-worker-express/src/utils/create-watched-probe.ts:49-142 | In every run the probe answers "missing" if and only if a listing of the directory that has not expired lacks the normalized name; and every event changes the watchers and the listings as told without the probe's sweeps and searches |
| `WatchedAnswers.ListingAnswersUntilItsTime` | packages/node-worker-express/src/utils/create-watched-probe.ts:49-142 | However a run goes on, a listing stays until its time has come, its watcher reports a change or the probe is closed, and meanwhile exactly the names it lacks are missing |
| `WatchedAnswers.ReadIsKeptExactly` | packages/node-worker-express/src/utils/create-watched-probe.ts:86-103 | A read is kept if and only if its directory is still watched by its watcher, it has at most `maxEntries` names, and with those of the listings that have not expired at most `maxTotalEntries`; otherwise the directory is watched no longer |
| `WatchedAnswers.MissStartsExactly` | packages/node-worker-express/src/utils/create-watched-probe.ts:105-129 | A directory gets a watcher if and only if the listings are on, it has none, does not rest, was missed before, the system gives one and there is room; only for lack of room are the outdated ones given up |
| `WatchedAnswers.SweepLeavesTheTrusted` | packages/node-worker-express/src/utils/create-watched-probe.ts:78-84 | The sweep that stops at the first valid listing is a filter of the listings, their watchers and the total |
| `WatchedListings.ReportedReadIsNotKept` | packages/node-worker-express/src/utils/create-watched-probe.ts:71-75 | A read whose watcher reported a change is never kept, however much later it is done |
| `WatchedListings.SweepLeavesNoneExpired` | packages/node-worker-express/src/utils/create-watched-probe.ts:78-84 | The sweep that stops at the first valid listing drops exactly the expired ones |
| `WatchedListings.StepValid` | packages/node-worker-express/src/utils/create-watched-probe.ts:64-142 | Every single event keeps the invariant, also after closing |
| `WatchedListings.EveryRunOwns` | packages/node-worker-express/src/utils/create-watched-probe.ts:117-124 | No watcher is ever the one of two directories |
| `WatchedProbes.WatchedProbe.DropExpired` | packages/node-worker-express/src/utils/create-watched-probe.ts:78-84 | The recursion drops the first listing while it has expired, and ends |
| `WorkerRegistries.EveryRunIsValid` | packages/node-worker/src/pool/utils/create-worker-registry.ts:34-125 | In every run the pool allows itself: entries, channels and leases have the same workers, each listed worker is under the path and id of its entry, no path keeps an empty map or a turn without one, loads are the leases held, and only held leases are subscribed |
| `WorkerHistories.EveryWorkerHasItsPlace` | packages/node-worker/src/pool/utils/create-worker-registry.ts:52-85 | In every run the pool allows itself a worker is known if and only if it was started and not removed, and listed if and only if it was not unlisted either, under the path, id and channel it was started with |
| `WorkerHistories.TheLastSubscriptionHolds` | packages/node-worker/src/pool/utils/create-worker-registry.ts:61-98 | In every such run a request is subscribed if and only if the lease that took its id last is held, and to that one |
| `WorkerHistories.LastUsedIsWhenItGotFree` | packages/node-worker/src/pool/utils/create-worker-lease.ts:60-68 | In every such run `lastUsed` is when the worker was started or was last left without a request by one that was released |
| `WorkerHistories.TurnsAreCounted` | packages/node-worker/src/pool/utils/create-worker-registry.ts:118-123 | In every such run the turns of a path are counted from the start of its first worker to the end of its last |
| `WorkerHistories.LoadIsWhatIsHeld` | packages/node-worker/src/pool/utils/create-worker-registry.ts:42 | In every such run the load of any worker is the number of leases made for it while it was known and not given back since |
| `WorkerRegistries.RemoveLeavesNoTrace` | packages/node-worker/src/pool/utils/create-worker-registry.ts:75-85 | A removed worker is in none of the maps and none of its leases is subscribed |
| `WorkerRegistries.RemoveKeepsTheOthers` | packages/node-worker/src/pool/utils/create-worker-registry.ts:75-85 | What the maps hold of every other worker is as it was |
| `WorkerRegistries.UnlistedIsNowhere` | packages/node-worker/src/pool/utils/create-worker-registry.ts:52-59 | Unlisting takes exactly that worker out of the paths |
| `WorkerRegistries.ReleasedTwice` | packages/node-worker/src/pool/utils/create-worker-lease.ts:60-68 | Releasing a lease twice is releasing it once, at the later moment |
| `WorkerRegistries.ReleasedTwiceIsOnce` | packages/node-worker/src/pool/utils/create-worker-lease.ts:60-68 | It is releasing it once, at the first moment, if and only if no time passed, the worker is not known, or other requests hold it |
| `WorkerRegistries.ReleasedAgainIsLater` | packages/node-worker/src/pool/utils/create-worker-lease.ts:60-68 | A concrete worker whose last use moves when its lease is released again |
| `WorkerRegistries.AllLeasesAreTheHeld` | packages/node-worker/src/pool/utils/create-worker-registry.ts:108-109 | In every run the leases of all workers together are those not given back, each counted for one worker |
| `WorkerRegistries.WorkerRegistry.RemoveWorker` | packages/node-worker/src/pool/utils/create-worker-registry.ts:76-85 | The loop over its leases unsubscribes each; they are returned |
| `WorkerRegistries.WorkerRegistry.GetActive` | packages/node-worker/src/pool/utils/create-worker-registry.ts:109 | The sum of the loads over the workers in any order is the number of leases held |
| `Der.RequestRoundTrip` | packages/node-webserver/src/utils/create-certificate-request.ts:48-70 | A reader of ITU-T X.690 finds in a certificate request exactly what was put into it, if and only if the content fits a length of two octets |
| `Der.RequestRoundTripBySize` | packages/node-webserver/src/utils/create-certificate-request.ts:48-70 | The same condition in the sizes of the host name, the key and the signature; it holds when they have at most 65300 bytes together |
| `Der.ProgramOidsComeBack` | packages/node-webserver/src/utils/create-certificate-request.ts:43-46 | The four object identifiers of the program are below the limit and come back |
| `Der.NodesRoundTrip` | packages/node-webserver/src/utils/create-certificate-request.ts:24-28 | Nested encodings concatenate unambiguously: every structure with fitting tags and contents is read back as it was |
| `Der.ElementRoundTrip` | packages/node-webserver/src/utils/create-certificate-request.ts:24-28 | Tag and content are read back, whatever follows, if and only if the content has at most 65535 bytes (section 8.1.3) |
| `Der.LengthRoundTrip` | packages/node-webserver/src/utils/create-certificate-request.ts:17-22 | A length is read back if and only if it is at most 65535 |
| `Der.LengthIsUnique` | packages/node-webserver/src/utils/create-certificate-request.ts:17-22 | The octets written for a length are the only ones that are read as it, so none are fewer (section 10.1) |
| `Der.ArcRoundTrip` | packages/node-webserver/src/utils/create-certificate-request.ts:30-35 | Base 128 is undone by a reader that stops at the first byte without the high bit, for arcs of any size |
| `Der.ArcIsShortest` | packages/node-webserver/src/utils/create-certificate-request.ts:30-35 | An arc does not start with an empty digit, and only its last byte has no high bit (section 8.19.2) |
| `Der.OidRoundTrip` | packages/node-webserver/src/utils/create-certificate-request.ts:37-41 | The arcs come back if and only if they are arcs of the standard and the first octet stays below 128 (section 8.19.4) |
| `Der.RequestIsItsNode` | packages/node-webserver/src/utils/create-certificate-request.ts:59-70 | The concatenated parts are the encoding of one structure |

## Left out

- The hand-off of client connections between the processes, in responses and in requests: kernel buffers and internals of Node.
- Sockets, TLS, HTTP/2, the file system, processes and timers themselves: they are only there as events and functions.
- Corking of socket writes, the texts of close reasons and errors, and what is written to the console.
- `create-request-contexts`: opening and dropping a context is part of the steps of the protocols, its map is not modelled on its own.
- The request handler around `findRule` (filling the target, the query, redirects and rewrites): string handling of one call.
- `getHostPattern` and the compiled patterns: a pattern is a function from a path or a name to what it matched.
- The statistics of the registry (`getPathStats`, `getStarting`, `getGroups`) and the order of its maps, which decides ties only.
- The ACME client, access logs, compression, configuration, command line and reports: no state that outlives a call.
- FileSink.EveryRunKeepsTheOrder: blocking writes are whole and do not fail, as the code promises no exact content after a failed flush; the levels are a fixed list, each with its file. In the specification `bufferSize` is the sum over the levels after each flush; that the subtractions of the code arrive at it is proved in `WriteBehindSink`.
- FileSinkLane.BeginValid: opening a file can fail, but reading its size after opening cannot.
- WsConnection.EveryRunIsSafe: a socket that is destroyed and one that takes no writes are one flag, and a frame that the socket could not take is not written; the timer that destroys a closed socket is left out.
- WsReader.EventsDoNotDependOnChunks: the events of a chunk that also holds an error are lost, so the events are a prefix then.
- ResponseStream.PartsAreConserved: the channel delivers in order and loses nothing, and the write callbacks of one response run in order.
- ResponseOrder.ProceedsAfterItsWriteExactly: nothing is said after an abort, which fails the parts that wait.
- RequestBody.EveryRunIsValid: a request that is paused gives no data, as the documentation of Node promises of streams.
- Cache.EveryRunIsValid: sizes, times and the total are exact numbers of any fraction, where the program rounds its sums to floating point.
- LruCaches.LruCache.Sweep: in a state where the two maps disagree the loop of the program would not end; no run leads to one.
- RouteMatcher.CreateRouteMatcher: a resolver that throws is a missing target, so it cannot change anything else.
- VirtualHosts.RouterIsTheChain: a handler calls `next` at most once, and what it does depends on the request and the handlers before it.
- PackageFamily.GetWorkspaceDependencies: keys that look like whole numbers, which JavaScript would list first, keep their place; this decides the order only.
- WaitingLines.WaitingLine.WakeUp: `serve` does not call the line again, and what it does with a request depends on the request.
- WatchedListings.EveryRunIsValid: the three caches with a cooldown are answers from outside, and a change is noticed by the watcher that was there when it happened.
- WatchedListings.MissingIsMissing: nothing is said between a change and its report, which is when the listing can be wrong.
- WorkerRegistries.EveryRunIsValid: two workers known at the same time have no path and id in common, a lease that is held subscribes once, and only a path with workers takes turns, which the pool asks for with a worker of the path at hand.
- Der.RequestRoundTrip: the host name is ASCII, so that its length in characters is the one in bytes.
