# R3AKT: a verified model of the protocol cores

This project models the parts of the R3AKT hub where a mistake would be silent: hand-written
decoders, the framing code, the queues between threads, the throttle and the routing list. Each
module follows one source file or one component, keeps its branches, constants and error cases,
and proves what the code is for about every input or every run.

| module | models |
|---|---|
| `MsgPack` | the LXMF MessagePack decoder, against a grammar of the format |
| `Utf8`, `Text`, `Bytes`, `HttpHeaders` | UTF-8 and the lossy decoder; the string, integer and header helpers the others need |
| `SarHttp`, `SarMessages`, `SarHttpExamples` | chunked HTTP bodies and the incremental read loop; what it reads, byte by byte |
| `RpcFraming` | length-prefixed frames inside HTTP messages |
| `SeenWindow` | duplicate suppression of the RPC adapter |
| `Scheduler` | the two-lane receiver of the ZeroMQ data plane |
| `QueueMetrics` | its lock-free queue accounting under every interleaving |
| `ActorSession` | its actor: expiry, sessions, the service identity |
| `TakService`, `TakStream`, `CotEvents` | the TAK queue, drain, worker and backoff; stream frames; the CoT event machine |
| `AuthThrottle` | the authentication throttle with overlapping attempts and stale clock readings |
| `RemRouting`, `RemRules` | the REM team routing list, whatever the hash-map order, and its rules without the code's functions |

Code that updates state is modelled by classes, methods and loops. Each of these is proved equal to
a specification function; the results are lemmas about that function. Concurrency is modelled by
steps: one atomic operation of one thread at a time, in any order.

Four properties that one would expect turn out to hold only under a condition. Each comes with the
exact condition, or the best bound, for all inputs, and with a concrete failing input:

* The result of an HTTP read depends on how the bytes were divided into reads exactly when the body
  is not chunked, the status is readable, the test for completeness does not panic, and bytes follow
  the point where the loop may stop (`SarHttp.SplitIndependentExactlyWhen`). A response without a
  length shows it (`SarHttpExamples.OneByteTooMany`), and so does one whose length is so large that
  the sum with the header's wraps (`SarHttpExamples.HugeLengthMatters`). Both builds are modelled:
  `usize` sums that wrap and sums that are checked.
* The routing list depends on the iteration order of a hash map exactly when announces that tie for
  an identity lead to different places (`RemRouting.OrderMattersOnlyOnDisagreement`,
  `RemRouting.TieChangesTheList`).
* Polling an unchanging list ever comes to rest exactly when at most 256 ids in it can be delivered
  (`SeenWindow.QuietExactlyWhenListFits`, `SeenWindow.OneTooManyNeverRests`).
* The throttle's limit of 5 failures bounds only attempts one after another. A call reads the clock
  before it takes the lock, so a failure can be recorded with a stale reading and shorten a lockout.
  With `width` attempts in flight and readings at most `lag` old, 5 + `width` failures span at least
  a window or a lockout, less the lag (`AuthThrottle.FailureRateIsBounded`); neither the `width` nor
  the lag can be dropped (`AuthThrottle.RateBoundIsTight`, `AuthThrottle.StaleFailureShortensLockout`,
  `AuthThrottle.LagBoundIsReached`).

## Model

| member | source | states |
|---|---|---|
| `MsgPack.ParseValue` | crates/r3akt-transport-rns/src/lib.rs:2752-2853 | the recursion ends on every input; a success moves the offset forward and never past the input |
| `MsgPack.ParseArray` | crates/r3akt-transport-rns/src/lib.rs:2855-2867 | the array loop yields what parsing `len` values one after another yields |
| `MsgPack.ParseMap` | crates/r3akt-transport-rns/src/lib.rs:2869-2882 | the map loop yields the pairs of `2 * len` values parsed one after another |
| `MsgPack.Complete` | crates/r3akt-transport-rns/src/lib.rs:2752-2906 | every legal encoding, in any width and at any offset, decodes to its meaning and its end |
| `MsgPack.Sound` | crates/r3akt-transport-rns/src/lib.rs:2752-2906 | whatever decodes is a legal encoding, which the lemma constructs |
| `MsgPack.DecoderIsGrammar` | crates/r3akt-transport-rns/src/lib.rs:2752-2906 | the decoder returns `(v, end)` if and only if some legal encoding of `v` stands there and ends at `end` |
| `MsgPack.DecodeAfterEncode` | crates/r3akt-transport-rns/src/lib.rs:2752-2906 | encoding and then decoding is the identity, with any bytes before and after |
| `MsgPack.Unambiguous` | crates/r3akt-transport-rns/src/lib.rs:2752-2906 | no encoding has two meanings and none is a proper prefix of another |
| `MsgPack.DecoderIsLocal` | crates/r3akt-transport-rns/src/lib.rs:2752-2906 | bytes after the returned offset never change a successful result |
| `MsgPack.OverlongContainerFails` | crates/r3akt-transport-rns/src/lib.rs:2855-2882 | a container that announces more values than bytes remain never decodes; the source reserves room for the announced count first, which can abort instead of refusing |
| `MsgPack.WholeInputDecodes` | crates/r3akt-transport-rns/src/lib.rs:2747-2750 | the whole input is accepted with value `v` if and only if it is exactly a legal encoding of `v` |
| `MsgPack.SpellableExactlyWhenRepresentable` | crates/r3akt-transport-rns/src/lib.rs:2732-2745 | a value has a legal encoding if and only if its numbers, texts and lengths fit the format |
| `Bytes.BigEndianRoundTrip` | crates/r3akt-transport-rns/src/lib.rs:2943-2959 | reading a big-endian number gives back what was written |
| `Bytes.BigEndianUnique` | crates/r3akt-transport-rns/src/lib.rs:2943-2959 | different bytes of one length spell different numbers |
| `Bytes.MostSignificantFirst` | crates/r3akt-transport-rns/src/lib.rs:2943-2959 | the first byte of a number counts most |
| `Utf8.DecodeIgnoringErrors` | crates/r3akt-rch-core/src/text.rs:1-21 | the loop ends and yields the input without its maximal ill-formed subparts |
| `Utf8.SubpartIsMaximal` | crates/r3akt-rch-core/src/text.rs:1-21 | what is dropped at an error is the longest proper beginning of a character there, or one byte |
| `Utf8.BeginsExactly` | crates/r3akt-rch-core/src/text.rs:1-21 | which byte strings are a proper beginning of some character, by ranges (section 4 of RFC 3629) |
| `Utf8.ErrorLenIsSubpart` | crates/r3akt-rch-core/src/text.rs:8-17 | a reported error length is that subpart; no length is reported only when it is all that is left |
| `Utf8.SkipDropsSubpart` | crates/r3akt-rch-core/src/text.rs:8-17 | skipping the reported length, or a truncated tail byte by byte, drops exactly the subpart |
| `Utf8.ValidUpToIsLongest` | crates/r3akt-rch-core/src/text.rs:5-12 | the part copied in a round is well formed and nothing well formed follows it |
| `Utf8.WellFormedPassesThrough` | crates/r3akt-rch-core/src/text.rs:1-21 | decode(a ++ b) = a ++ decode(b) for well-formed a |
| `Utf8.DecodedIsWellFormed` | crates/r3akt-rch-core/src/text.rs:1-21 | the output is always well formed |
| `Utf8.DecoderFixesExactlyTheIllFormed` | crates/r3akt-rch-core/src/text.rs:1-21 | the input is unchanged if and only if it was well formed; decoding twice is decoding once |
| `Utf8.CharIsEncoding` | crates/r3akt-rch-server/src/sar_seed.rs:274-274 | the grammar of a character accepts exactly the encodings of characters, one each (section 3 of RFC 3629) |
| `Utf8.EncodedDecodes` | crates/r3akt-rch-server/src/sar_seed.rs:274-274 | text encoded as UTF-8 is well formed and decodes back |
| `Utf8.ValidIsEncoded` | crates/r3akt-transport-rns/src/lib.rs:3792-3793 | bytes are well formed if and only if they are the encoding of a text |
| `Utf8.EachSubpartIsReplaced` | crates/r3akt-rch-server/src/sar_seed.rs:274-274 | the lossy decoding puts one replacement character for each maximal ill-formed subpart |
| `SarHttp.DecodeChunkedBody` | crates/r3akt-rch-server/src/sar_seed.rs:338-377 | the loop over chunks yields the specified decoding: the body, the error of a malformed one, or the panic of a size no `usize` sum can hold, in either build |
| `SarHttp.ChunksAreLocal` | crates/r3akt-rch-server/src/sar_seed.rs:338-377 | a successful decode, and a panic, depends only on the bytes that settle it |
| `SarHttp.PrefixDecodesFromEndOn` | crates/r3akt-rch-server/src/sar_seed.rs:334-377 | a prefix of a decodable body decodes if and only if it reaches the end of the last chunk, and then to the same bytes; likewise for a body that makes the decoder panic |
| `SarHttp.PrefixSettles` | crates/r3akt-rch-server/src/sar_seed.rs:334-377 | appended bytes never change a successful decode, nor avert a panic |
| `SarHttp.EncodedChunksDecode` | crates/r3akt-rch-server/src/sar_seed.rs:338-377 | decoding an encoded chunk list yields the concatenation and stops at its end (section 7.1 of RFC 9112) |
| `SarHttp.ReadResponse` | crates/r3akt-rch-server/src/sar_seed.rs:247-320 | the read loop returns the parse of the bytes received up to the first complete point, or panics where the completeness test does |
| `SarHttp.CompleteExactlyFromNeeded` | crates/r3akt-rch-server/src/sar_seed.rs:272-294 | a prefix is judged complete, or makes the test panic, if and only if it holds the needed number of bytes, where a sum that wraps needs no more than the header |
| `SarHttp.LoopStopsAtNeeded` | crates/r3akt-rch-server/src/sar_seed.rs:247-270 | for every division into reads the loop stops with at least that number and less than one read of 4096 more, or at the end of the stream, or panics there |
| `SarHttp.StopsExactlyAtFullMessage` | crates/r3akt-rch-server/src/sar_seed.rs:247-294 | for a message exactly as long as needed the loop stops at its last byte and no proper prefix is complete |
| `SarHttp.ParseOfPrefix` | crates/r3akt-rch-server/src/sar_seed.rs:296-332 | every sufficient prefix parses to the same response, except that a body taken as it is ends with the prefix |
| `SarHttp.SomeDivisionStopsAt` | crates/r3akt-rch-server/src/sar_seed.rs:247-270 | for every count from the needed one on, within one read of it, a division that makes the loop stop exactly there exists |
| `SarHttp.SplitIndependentExactlyWhen` | crates/r3akt-rch-server/src/sar_seed.rs:247-332 | in either build the result is the same for all divisions into reads if and only if the body is not taken as it is, or the test panics, or nothing follows the needed bytes |
| `SarHttp.OverflowingLength` | crates/r3akt-rch-server/src/sar_seed.rs:279-288 | a length whose sum with the header passes 2^64: unchecked, the result depends on the reads as soon as there is a body; checked, every division panics |
| `SarHttpExamples.OneByteTooMany` | crates/r3akt-rch-server/src/sar_seed.rs:279-287 | a status line, a blank line and one byte, whose result depends on the reads |
| `SarHttpExamples.HugeLengthMatters` | crates/r3akt-rch-server/src/sar_seed.rs:279-288 | the same for a response that announces 2^64 - 1 bytes |
| `SarHttp.ChunkedMessage` | crates/r3akt-rch-server/src/sar_seed.rs:247-377 | a chunked message gives its status and the concatenated chunks for every division into reads |
| `SarHttp.LengthMessage` | crates/r3akt-rch-server/src/sar_seed.rs:247-320 | a message with its Content-Length gives its status and its body for every division into reads |
| `SarMessages.ChunkedLineIs` | crates/r3akt-rch-server/src/sar_seed.rs:322-332 | a line names the chunked coding if and only if its name is "transfer-encoding" in any case and some part of its comma-separated value, trimmed, is "chunked" in any case |
| `SarMessages.GzipThenChunked` | crates/r3akt-rch-server/src/sar_seed.rs:322-332 | `Transfer-Encoding: gzip, Chunked` is such a line |
| `SarMessages.HeadMeans` | crates/r3akt-rch-server/src/sar_seed.rs:272-332 | for a head given byte by byte (status line, fields): where it ends, its status, whether it names chunks, which length it announces |
| `SarMessages.ChunkedResponse` | crates/r3akt-rch-server/src/sar_seed.rs:247-377 | the bytes of such a head with a chunked field, a blank line and encoded chunks give the status and the concatenated chunks, for every division into reads |
| `SarMessages.MeasuredResponse` | crates/r3akt-rch-server/src/sar_seed.rs:247-320 | without such a field, the bytes of the first length announced are the body, for every division |
| `SarMessages.UnmeasuredResponse` | crates/r3akt-rch-server/src/sar_seed.rs:247-320 | with neither, the body is taken as it is, up to where the loop stopped: less than one read of it |
| `SarMessages.HeadIsMissing` | crates/r3akt-rch-server/src/sar_seed.rs:301-304 | without a blank line every division ends in that error |
| `SarMessages.StatusIsMissing` | crates/r3akt-rch-server/src/sar_seed.rs:305-311 | a first line whose second word does not spell a number up to 65535 is refused |
| `SarMessages.ChunkSizeIs` | crates/r3akt-rch-server/src/sar_seed.rs:351-354 | a chunk line gives a size if and only if its text before the first semicolon, trimmed, spells it in hexadecimal |
| `SarMessages.ChunkedExactly` | crates/r3akt-rch-server/src/sar_seed.rs:338-377 | a body decodes if and only if it is chunks with their size lines, a zero size line, and two bytes of whatever value; and to the data of the chunks |
| `SarMessages.FailureSays` | crates/r3akt-rch-server/src/sar_seed.rs:338-377 | each error of a failed decode, with the whole chunks before it and what is wrong there |
| `HttpHeaders.LinesOfJoined` | crates/r3akt-transport-rns/src/lib.rs:3792-3797 | header lines joined with CRLF are well-formed text and split back into themselves |
| `HttpHeaders.JoinedLinesEndFirst` | crates/r3akt-transport-rns/src/lib.rs:3786-3789 | the first CRLF CRLF of a message is the one after its header lines |
| `HttpHeaders.LengthOfIs` | crates/r3akt-rch-server/src/sar_seed.rs:279-288 | a line announces a length if and only if it is a field "content-length" in any case whose trimmed value spells the number, up to 2^64 - 1 |
| `HttpHeaders.LengthInIs` | crates/r3akt-rch-server/src/sar_seed.rs:279-288 | the length is that of the first line that announces one |
| `Text.ParseFormatted` | crates/r3akt-transport-rns/src/lib.rs:3794-3801 | parsing a formatted number in range, decimal or hexadecimal, gives it back |
| `Text.ParsesExactly` | crates/r3akt-rch-server/src/sar_seed.rs:351-354 | a text parses as a number if and only if it spells it: digits in either case, after any zeros, with or without a plus sign |
| `Text.TrimIs` | crates/r3akt-rch-core/src/lib.rs:10489-10492 | trimming takes whitespace off both ends and nothing else |
| `Text.SplitOnceIs` | crates/r3akt-transport-rns/src/lib.rs:3797-3797 | what is split at the first separator, and only that, joins back to the text |
| `Text.SplitOfJoin` | crates/r3akt-rch-server/src/sar_seed.rs:327-330 | splitting gives exactly the parts that were joined |
| `Text.WordsAre` | crates/r3akt-rch-server/src/sar_seed.rs:309-309 | words are what stands between whitespace |
| `RpcFraming.EncodeFrame` | crates/r3akt-transport-rns/src/lib.rs:3738-3752 | the buffer ends up as length and payload; a payload of 2^32 bytes or more, or a failing serializer, is an error |
| `RpcFraming.FrameRoundTrip` | crates/r3akt-transport-rns/src/lib.rs:3738-3772 | a frame decodes to its message whatever follows, and a proper prefix of a frame is refused, with the error for where it ends |
| `RpcFraming.DecodesExactlyFrames` | crates/r3akt-transport-rns/src/lib.rs:3754-3772 | decoding yields a message if and only if the bytes start with a frame of a payload that deserializes to it |
| `RpcFraming.BuildHttpPost` | crates/r3akt-transport-rns/src/lib.rs:3774-3783 | the request is the four header lines, a blank line and the body |
| `RpcFraming.PostedHead` | crates/r3akt-transport-rns/src/lib.rs:3774-3781 | the posted head byte by byte: request line with the path, host, content type and length |
| `RpcFraming.BodyIsRead` | crates/r3akt-transport-rns/src/lib.rs:3785-3810 | a body is read if and only if it stands behind a well-formed head whose first announced length is its own |
| `RpcFraming.BodyIsMissing` | crates/r3akt-transport-rns/src/lib.rs:3803-3808 | a body shorter than announced is incomplete |
| `RpcFraming.PostRoundTrip` | crates/r3akt-transport-rns/src/lib.rs:3774-3810 | reading back a posted message gives exactly its body, even one that contains CRLF CRLF (sections 5 and 6.3 of RFC 9112) |
| `RpcFraming.RpcRoundTrip` | crates/r3akt-transport-rns/src/lib.rs:3738-3810 | a framed message inside an HTTP message arrives as it was sent |
| `SeenWindow.Adapter.RememberSeen` | crates/r3akt-transport-rns/src/lib.rs:649-657 | a new id is appended and only the last 256 are kept; a known id changes nothing |
| `SeenWindow.Adapter.ReceiveFrame` | crates/r3akt-transport-rns/src/lib.rs:691-744 | a poll delivers the first unseen decodable message, stops with an error at a malformed one, and remembers exactly what it delivers |
| `SeenWindow.PollIs` | crates/r3akt-transport-rns/src/lib.rs:691-744 | a poll delivers a message if and only if it is a frame and the first not passed over, fails if and only if that one is malformed, and has nothing if and only if all are passed over |
| `SeenWindow.WindowOverRuns` | crates/r3akt-transport-rns/src/lib.rs:631-744 | in every run the window is the last 256 delivered ids, and any 257 consecutive deliveries have distinct ids |
| `SeenWindow.ShortListDeliveredOnceInOrder` | crates/r3akt-transport-rns/src/lib.rs:691-744 | a fixed list with at most 256 deliverable ids delivers the first message of each id once, in order, and then nothing |
| `SeenWindow.QuietExactlyWhenListFits` | crates/r3akt-transport-rns/src/lib.rs:691-744 | polling a fixed list ever yields nothing if and only if at most 256 different ids in it are deliverable |
| `SeenWindow.OneTooManyNeverRests` | crates/r3akt-transport-rns/src/lib.rs:691-744 | 257 messages with different ids, of which every poll delivers one, forever |
| `Scheduler.Receiver.RecvPrioritizedActorRequest` | crates/r3akt-transport-rns/src/actor_helpers.rs:29-68 | the loop does what the step machine does, with producers between any two of its channel operations |
| `Scheduler.Receiver.BlockOnControl` | crates/r3akt-transport-rns/src/actor_helpers.rs:47-47 | once the send lane is disconnected the receiver waits for control requests alone |
| `Scheduler.Receiver.BlockOnSend` | crates/r3akt-transport-rns/src/actor_helpers.rs:55-55 | once the control lane is disconnected the receiver waits for send requests alone |
| `Scheduler.LanesAreFifo` | crates/r3akt-transport-rns/src/actor_helpers.rs:29-68 | in every run what a lane served followed by what it still holds is what it held followed by what it accepted |
| `Scheduler.ServedInTurn` | crates/r3akt-transport-rns/src/actor_helpers.rs:29-68 | a request is served after exactly those before it in its lane, a Shutdown after every send accepted earlier |
| `Scheduler.EndsOnlyWhenDrained` | crates/r3akt-transport-rns/src/actor_helpers.rs:29-68 | the receiver returns nothing only when both lanes are empty and disconnected |
| `Scheduler.DrainedLanesEnd` | crates/r3akt-transport-rns/src/actor_helpers.rs:29-68 | once both lanes are empty and disconnected the receiver returns nothing after a few operations |
| `Scheduler.BurstCountsSends` | crates/r3akt-transport-rns/src/actor_helpers.rs:33-67 | in every run the burst counter is the number of sends served since the last control request |
| `Scheduler.SendsComeFirst` | crates/r3akt-transport-rns/src/actor_helpers.rs:35-66 | a waiting send is served before a waiting control request, unless the last 32 requests served were sends |
| `Scheduler.PollUsesBudget` | crates/r3akt-transport-rns/src/actor_helpers.rs:35-66 | each operation brings a waiting control request closer, each send served uses up its budget |
| `Scheduler.ControlWaitIsBounded` | crates/r3akt-transport-rns/src/actor_helpers.rs:35-40 | a control request with k others ahead waits for at most 32 (k + 1) sends and a bounded number of operations, in every run |
| `Scheduler.BoundIsReached` | crates/r3akt-transport-rns/src/actor_helpers.rs:35-46 | a busy send lane makes it wait for exactly 32 (k + 1) sends |
| `QueueMetrics.ZmqDataPlaneMetrics.RecordEnqueued` | crates/r3akt-transport-rns/src/lib.rs:131-145 | all counters and the batch gauges after a request was recorded |
| `QueueMetrics.ZmqDataPlaneMetrics.RemoveStamp` | crates/r3akt-transport-rns/src/lib.rs:156-163 | the search removes the first equal instant and nothing else |
| `QueueMetrics.ZmqDataPlaneMetrics.RollbackEnqueued` | crates/r3akt-transport-rns/src/lib.rs:155-171 | all counters after a rollback, with subtractions that wrap |
| `QueueMetrics.ZmqDataPlaneMetrics.RecordDequeued` | crates/r3akt-transport-rns/src/lib.rs:173-205 | all counters and the wait gauges after a dequeue, with subtractions that saturate |
| `QueueMetrics.RecordingIsFiveSteps` | crates/r3akt-transport-rns/src/lib.rs:131-143 | without interference the atomic steps of a recording are the recording |
| `QueueMetrics.RollingBackIsItsSteps` | crates/r3akt-transport-rns/src/lib.rs:155-171 | without interference the atomic steps of a rollback are the rollback, and for a full lane the pushback is counted after it |
| `QueueMetrics.DequeuingIsThreeSteps` | crates/r3akt-transport-rns/src/lib.rs:173-193 | without interference the atomic steps of a dequeue are the dequeue |
| `QueueMetrics.RollbackUndoesRecord` | crates/r3akt-transport-rns/src/lib.rs:130-171 | a rollback undoes a recording but for the order of equal instants and the recorded maximum |
| `QueueMetrics.SubtractionsAreExact` | crates/r3akt-transport-rns/src/lib.rs:155-193 | at each subtraction there is something to subtract: nothing wraps, nothing saturates, the instant is found |
| `QueueMetrics.StepKeepsTally` | crates/r3akt-transport-rns/src/lib.rs:1584-1621 | every atomic step of any thread keeps each counter equal to the number of requests that contribute to it |
| `QueueMetrics.StepKeepsPeak` | crates/r3akt-transport-rns/src/lib.rs:138-143 | every step keeps the recorded maximum at the highest depth, or a producer about to raise it |
| `QueueMetrics.AccountingIsExact` | crates/r3akt-transport-rns/src/lib.rs:130-206 | both hold in every state of every interleaving of producers and actor |
| `QueueMetrics.AtRest` | crates/r3akt-transport-rns/src/lib.rs:130-206 | with no operation under way: depth = requests in the channels = sum of the lanes, enqueued = dequeued + depth, instants = those requests' instants, maximum = peak, lanes within capacity |
| `QueueMetrics.RefusedExactlyWhenFull` | crates/r3akt-transport-rns/src/lib.rs:1600-1619 | a request is refused as full if and only if its lane holds exactly 20 000 sends, or 1024 control requests, and the actor has not stopped |
| `QueueMetrics.ActorTakesOneAtATime` | crates/r3akt-transport-rns/src/lib.rs:1898-1978 | in every run at most one request is with the actor; after its exit none is, and none completes |
| `QueueMetrics.OldestIsOfSomeRequest` | crates/r3akt-transport-rns/src/lib.rs:241-254 | the oldest instant of a snapshot is the minimum over the requests on their way, in whatever order they were recorded |
| `ActorSession.DataPlaneActor.Handle` | crates/r3akt-transport-rns/src/lib.rs:1898-1978 | one turn of the loop, including its unreachable branch, is the specified turn |
| `ActorSession.DataPlaneActor.Open` | crates/r3akt-transport-rns/src/lib.rs:1914-1939 | a session is opened with the remembered identity restored, or not at all |
| `ActorSession.DataPlaneActor.Serve` | crates/r3akt-transport-rns/src/lib.rs:1940-1976 | session, identity and counters after a request was performed |
| `ActorSession.DataPlaneActor.SendActorRequest` | crates/r3akt-transport-rns/src/lib.rs:2076-2149 | what a request does to the session: a successful registration or update changes its identity, a failed one does not |
| `ActorSession.DataPlaneActor.RegisterInSession` | crates/r3akt-transport-rns/src/lib.rs:2125-2132 | the session takes the identity if and only if the SDK did |
| `ActorSession.DataPlaneActor.Loop` | crates/r3akt-transport-rns/src/lib.rs:1889-1979 | the loop handles requests until a Shutdown that has not expired |
| `ActorSession.ExpiryIsTheDeadline` | crates/r3akt-transport-rns/src/lib.rs:1565-1574 | a request is dropped if and only if its receive timeout has passed since it was queued; one that is not dropped has a caller that still waits |
| `ActorSession.HandlingKeeps` | crates/r3akt-transport-rns/src/lib.rs:1898-1978 | every turn keeps the accounting and the identity invariant, and never answers that there is no session |
| `ActorSession.OutcomesAreAccounted` | crates/r3akt-transport-rns/src/lib.rs:1889-1979 | in every run: dequeued = expired + completed + failed; requests in time get one response each, in order, expired ones none; the loop ends exactly at the first Shutdown in time |
| `ActorSession.IdentitySurvives` | crates/r3akt-transport-rns/src/lib.rs:1895-1978 | after any mix of successes, failures and reopened sessions the identity has the last registered key and the last registered or updated profile, and an open session has that identity |
| `ActorSession.SessionFollowsOutcome` | crates/r3akt-transport-rns/src/lib.rs:1898-1978 | a session is open after a request if and only if it succeeded, but for a Shutdown that needed none |
| `ActorSession.EveryOutcomeIsDecided` | crates/r3akt-transport-rns/src/lib.rs:1898-1978 | in every state: an expired request gets no response; any other gets the one that opening, restoring, the missing identity of an update and the SDK decide, in this order, with the error of the first that fails |
| `ActorSession.SuccessTakesEffect` | crates/r3akt-transport-rns/src/lib.rs:1940-1962 | a successful registration or update is what the session and the service remember; other requests leave the identity alone |
| `ActorSession.FailureOnlyLosesTheSession` | crates/r3akt-transport-rns/src/lib.rs:1963-1976 | a failure ends the session and changes nothing else |
| `TakService.OutboundQueue.Push` | crates/r3akt-tak-connector/src/lib.rs:602-610 | a payload is appended and counted below capacity, and refused and counted at capacity |
| `TakService.OutboundQueue.Pop` | crates/r3akt-tak-connector/src/lib.rs:658-660 | the oldest payload is removed |
| `TakService.DrainQueueToSender` | crates/r3akt-tak-connector/src/lib.rs:1039-1054 | the first k payloads are delivered in order and removed, the rest stay; success means all were |
| `TakService.TakService.FlushAfterEnqueue` | crates/r3akt-tak-connector/src/lib.rs:1366-1403 | counters, last error and report after an enqueue and a drain |
| `TakService.TakService.EnqueuePayload` | crates/r3akt-tak-connector/src/lib.rs:1313-1351 | a stopped service does nothing; otherwise push and drain |
| `TakService.TakService.Flush` | crates/r3akt-tak-connector/src/lib.rs:1353-1364 | a stopped service does nothing; otherwise a drain |
| `TakService.CallConserves` | crates/r3akt-tak-connector/src/lib.rs:1313-1403 | every call keeps conservation, for any behaviour of the sender |
| `TakService.ServiceConserves` | crates/r3akt-tak-connector/src/lib.rs:591-1403 | in every run accepted = delivered ++ pending in order, the counters say how many, what `total_sent` misses is exactly what drains delivered before they failed, and the last error is that of the last report |
| `TakService.EnqueueSays` | crates/r3akt-tak-connector/src/lib.rs:1313-1403 | an enqueue is refused if and only if the queue is full, and then nothing moves; otherwise the payload joins the end and the drain succeeds if and only if it empties the queue |
| `TakService.BackoffIsExponential` | crates/r3akt-tak-connector/src/worker_timing.rs:5-16 | after n failing reports in a row the interval is min(base * 2^n, 30 s), and base after a success |
| `TakService.BackoffIsBounded` | crates/r3akt-tak-connector/src/worker_timing.rs:5-16 | it always lies between min(base, 30 s) and max(base, 30 s) |
| `TakService.TakServiceWorker.Iterate` | crates/r3akt-tak-connector/src/lib.rs:1436-1478 | one pass of the worker under the lock is the specified pass |
| `TakService.PassFailsAtMostOnce` | crates/r3akt-tak-connector/src/lib.rs:1436-1478 | a pass has at most one failing report, its last and a failed send: it never finds the queue full |
| `TakService.PassQueues` | crates/r3akt-tak-connector/src/lib.rs:1436-1478 | a pass queues a ping and then a keepalive, each exactly when the service runs, it is due, and nothing before it failed; and it remembers when |
| `TakService.PassIsCalls` | crates/r3akt-tak-connector/src/lib.rs:1436-1478 | to the service a pass is a list of ordinary calls |
| `TakService.WorkerAmongCallers` | crates/r3akt-tak-connector/src/lib.rs:1416-1485 | in every interleaving with other callers conservation applies and the sleep is what the worker's own reports determine |
| `TakStream.EncodeVarint` | crates/r3akt-tak-connector/src/lib.rs:249-261 | the loop ends and appends the varint of the value |
| `TakStream.VarintIsMinimal` | crates/r3akt-tak-connector/src/lib.rs:249-261 | the continuation bit is on all bytes but the last, no last byte is idle, and the groups spell the value ("Base 128 Varints" of the Protocol Buffers encoding) |
| `TakStream.MinimalIsUnique` | crates/r3akt-tak-connector/src/lib.rs:249-261 | it is the only such form |
| `TakStream.AtMostTenBytes` | crates/r3akt-tak-connector/src/lib.rs:243-244 | a 64-bit value takes at most ten bytes, which the frame buffer reserves |
| `TakStream.VarintsArePrefixFree` | crates/r3akt-tak-connector/src/lib.rs:249-261 | no varint is a proper prefix of another |
| `TakStream.BuildFrame` | crates/r3akt-tak-connector/src/lib.rs:243-246 | a frame is the magic byte, the varint of the length and the payload |
| `TakStream.FramesSplitBack` | crates/r3akt-tak-connector/src/lib.rs:240-261 | any concatenation of frames splits back into exactly the payloads |
| `TakStream.StreamsAreUniquelyDecodable` | crates/r3akt-tak-connector/src/lib.rs:240-261 | different payload lists give different streams |
| `CotEvents.ParseInboundCotEvent` | crates/r3akt-tak-connector/src/lib.rs:284-327 | the loop over tokens is the depth-counting machine |
| `CotEvents.DeepNodeIsIgnored` | crates/r3akt-tak-connector/src/lib.rs:296-303 | nothing below the root's children changes the event, nor fails |
| `CotEvents.ChildrenOfRoot` | crates/r3akt-tak-connector/src/lib.rs:296-303 | the children of the root change only the point, to the last one that is a `point` |
| `CotEvents.LaterRoots` | crates/r3akt-tak-connector/src/lib.rs:289-303 | top-level elements after the first only contribute their direct points |
| `CotEvents.LastPointIs` | crates/r3akt-tak-connector/src/lib.rs:352-383 | points succeed if and only if each of them parses, and the last one counts |
| `CotEvents.XmlAttrIs` | crates/r3akt-tak-connector/src/lib.rs:385-401 | an attribute is found if and only if it is the first with its key and no malformed one comes before |
| `CotEvents.PointIs` | crates/r3akt-tak-connector/src/lib.rs:352-383 | a point is given if and only if each of its five numbers is that of its own attribute, or of "0" where the attribute is absent |
| `CotEvents.EventIs` | crates/r3akt-tak-connector/src/lib.rs:329-350 | likewise for the eight attributes of the event |
| `CotEvents.BrokenTokenFails` | crates/r3akt-tak-connector/src/lib.rs:284-327 | a token that cannot be read ends the parse wherever it stands |
| `CotEvents.SampleEvent` | crates/r3akt-tak-connector/src/lib.rs:284-383 | a sample event with a point at latitude 1 and longitude 2 |
| `CotEvents.MachineComputesMeaning` | crates/r3akt-tak-connector/src/lib.rs:284-327 | for the tokens of any forest of nodes the machine yields the meaning of the forest |
| `CotEvents.SingleRootEvent` | crates/r3akt-tak-connector/src/lib.rs:284-401 | for one root: a document gives an event if and only if each field is what the attributes of the root say, attribute by attribute, every direct `point` can be read, and the point is what the last of them says, or zeros |
| `AuthThrottle.Throttle.EnsureAttemptAllowed` | crates/r3akt-rch-server/src/auth.rs:146-170 | an attempt is refused exactly during a lockout; otherwise the window is pruned; other clients are untouched |
| `AuthThrottle.Throttle.RecordFailure` | crates/r3akt-rch-server/src/auth.rs:172-192 | the failure is added to the pruned window, and the fifth one starts a lockout; other clients are untouched |
| `AuthThrottle.Throttle.ClearFailures` | crates/r3akt-rch-server/src/auth.rs:194-207 | the client is forgotten; other clients are untouched |
| `AuthThrottle.RecentOfRecent` | crates/r3akt-rch-server/src/auth.rs:165-167 | pruning at every call is pruning the whole history once, with the largest reading |
| `AuthThrottle.LimitIsTrip` | crates/r3akt-rch-server/src/auth.rs:183-190 | with readings in order the pruned list reaches the limit if and only if five failures of the whole history lie within one window |
| `AuthThrottle.FailKeepsJudged` | crates/r3akt-rch-server/src/auth.rs:172-192 | whatever the lag, a failure is answered with the limit only when five lie within a window of its reading, and always when five are closer than a window less the lag |
| `AuthThrottle.StepKeepsInv` | crates/r3akt-rch-server/src/auth.rs:32-62 | reading the clock, taking the lock, success and departure of overlapping attempts, in any order, all keep the throttle a faithful view of the history |
| `AuthThrottle.DecidesAsHistory` | crates/r3akt-rch-server/src/auth.rs:146-207 | in every run whose readings are used in the order they were taken, an attempt is refused if and only if five failures within a window are less than a lockout old, and the stored failures are the recent ones |
| `AuthThrottle.DecidesWithinLag` | crates/r3akt-rch-server/src/auth.rs:146-207 | with readings up to `lag` behind, a refusal is still earned by five failures within a window less than a lockout ago, and every attempt is refused while five close ones are less than a lockout and the lag ago |
| `AuthThrottle.FailureRateIsBounded` | crates/r3akt-rch-server/src/auth.rs:43-61 | with at most `width` attempts in flight and readings at most `lag` behind, any 5 + `width` failures without a success between span at least five minutes less `lag` |
| `AuthThrottle.SequentialFailureRate` | crates/r3akt-rch-server/src/auth.rs:43-61 | one attempt after another, however long each waits for the lock: any six failures span at least five minutes |
| `AuthThrottle.RateBoundIsTight` | crates/r3akt-rch-server/src/auth.rs:43-61 | `width` overlapping attempts can make 5 + `width` - 1 failures at one instant |
| `AuthThrottle.StaleFailureShortensLockout` | crates/r3akt-rch-server/src/auth.rs:172-192 | a failure whose clock reading is `lag` old moves the end of a running lockout back by `lag`, although five failures lie at one later instant |
| `AuthThrottle.LagBoundIsReached` | crates/r3akt-rch-server/src/auth.rs:43-61 | with two attempts in flight seven failures can span exactly a lockout less the lag |
| `RemRouting.NormalizeIsIdempotent` | crates/r3akt-rch-core/src/lib.rs:10489-10492 | normalizing twice is normalizing once |
| `RemRouting.RemTeamRoutingDestinations` | crates/r3akt-rch-core/src/rem_team_directory.rs:16-43 | the list is the specified one, in whatever order members and identities are visited |
| `RemRouting.DurableTeamDirectoryMembers` | crates/r3akt-rch-core/src/rem_team_directory.rs:239-326 | the loops, the duplicate check and the sort yield exactly the rows that belong, strictly ordered, for every visiting order |
| `RemRouting.SortingIsUnique` | crates/r3akt-rch-core/src/rem_team_directory.rs:308-325 | the sort keys are distinct, so sorting the rows gives one list whatever order they came in |
| `RemRouting.BestIsGreatest` | crates/r3akt-rch-core/src/rem_team_directory.rs:201-221 | the chosen announce is eligible and no eligible one ranks higher; none is chosen only if none is eligible |
| `RemRouting.AnyGreatestCanWin` | crates/r3akt-rch-core/src/rem_team_directory.rs:201-221 | for each of the greatest there is a visiting order that chooses it and leaves the choice for every other identity alone |
| `RemRouting.CanonicalIgnoresOrder` | crates/r3akt-rch-core/src/rem_team_directory.rs:59-91 | the requester's canonical identity never depends on the visiting order, ties or not |
| `RemRouting.RoutingIsExact` | crates/r3akt-rch-core/src/rem_team_directory.rs:16-326 | the list holds exactly the routes that the code's own conditions allow; `RemRules.ListIsExact` says the same without them |
| `RemRouting.DifferentRoutesShow` | crates/r3akt-rch-core/src/rem_team_directory.rs:16-326 | when the route of one identity changes, the list of destinations changes: an entry is lost or leads elsewhere, at the same place |
| `RemRouting.OrderMattersOnlyOnDisagreement` | crates/r3akt-rch-core/src/rem_team_directory.rs:16-326 | the list is the same for every visiting order if and only if nothing is routed or tied announces lead to the same place |
| `RemRouting.WithoutTiesTheyAgree` | crates/r3akt-rch-core/src/rem_team_directory.rs:214-220 | when no two eligible announces of an identity tie on destination source and last-seen time, tied announces trivially agree |
| `RemRouting.OneListWithoutTies` | crates/r3akt-rch-core/src/rem_team_directory.rs:16-326 | without such ties any two visiting orders give the same list |
| `RemRouting.TieChangesTheList` | crates/r3akt-rch-core/src/rem_team_directory.rs:201-221 | two announces of one identity at one instant for which the order matters |
| `RemRouting.MembershipDiffersByRawLinks` | crates/r3akt-rch-core/src/rem_team_directory.rs:93-172 | a recipient's identities are the caller's membership test plus the links that match only after normalizing |
| `RemRules.ListIsExact` | crates/r3akt-rch-core/src/rem_team_directory.rs:16-326 | in full: a destination is listed if and only if the team is canonical, a member of it has the caller's identity (its own, a client's or by an exact link), and it is where the chosen announce of an identity of a member of the team leads, neither the caller's nor barred |
| `RemRules.OnlyMembersMayAsk` | crates/r3akt-rch-core/src/rem_team_directory.rs:16-109 | who may ask: a caller whose canonical identity, spelled out, belongs to a member of the canonical team |
| `RemRules.StrangersGetNothing` | crates/r3akt-rch-core/src/rem_team_directory.rs:17-23 | a caller that belongs to no member of the team gets an empty list |
| `RemRules.CallerIsCanonical` | crates/r3akt-rch-core/src/rem_team_directory.rs:59-91 | the canonical identity is what the announce under the caller's own hash names, or the hash |
| `RemRules.DirectoryIsExact` | crates/r3akt-rch-core/src/rem_team_directory.rs:239-326 | for any query: which rows the directory holds, by members, teams, links, bans and announces |
| `RemRules.ChosenIsPreferred` | crates/r3akt-rch-core/src/rem_team_directory.rs:201-221 | the chosen announce is a REM announce of the identity with both capabilities; one from the destination itself comes before others, and among equals the latest |
| `RemRules.NamingIsForemost` | crates/r3akt-rch-core/src/rem_team_directory.rs:59-79 | the announce that names an identity: its own first, then those with a display name, then the latest |
| `RemRules.ListIsInOrder` | crates/r3akt-rch-core/src/rem_team_directory.rs:308-325 | the list is in the order of member and then identity, compared character by character |

## Left out

Within the modelled components:

- MsgPack.OverlongContainerFails: the room an announced count reserves is not modelled, so a refusal can be an abort for lack of memory.
- MsgPack.ParseValue: floats are opaque bits, so the widening of 32-bit floats is not modelled; nor are the memory an announced length reserves, the depth of the recursion and the conversion to JSON. `usize` is taken to have 64 bits.
- SarHttp.ReadResponse: read errors and timeouts, the check of the status against 200 to 299 and the lossy decoding of the body as text are not modelled.
- SarMessages.HeadMeans: for a status line that starts with "HTTP/"; the code would also read a status line of another form as a header field.
- SarHttp.DecodeChunkedBody: for the at most 2^63 - 1 bytes a slice can hold.
- RpcFraming.EncodeFrame: the serializer is a function parameter, and so is the deserializer in the round trips.
- SeenWindow.Adapter.ReceiveFrame: the RPC call and the decoding of a message's content are inputs.
- SeenWindow.QuietExactlyWhenListFits: a malformed unseen message makes every poll fail, so the lemmas about fixed lists ask for lists without one.
- Scheduler.Receiver.RecvPrioritizedActorRequest: a blocking receive is a step that can repeat; the 5 ms of the timed one are not modelled. A call that is cut off by the end of its script returns nothing yet.
- QueueMetrics.AccountingIsExact: states before `Drop`, which posts one Shutdown without recording it. Counters are unbounded upwards. The actor may take any waiting request; that lanes are first come first served is proved in `Scheduler`. Response latencies are not modelled, nor is the snapshot's reading of several counters one after another.
- ActorSession.IdentitySurvives: what the SDK does is an oracle that succeeds or fails; response payloads and `runtime_info` are not modelled.
- TakService.ServiceConserves: building the CoT XML of a payload is an input that can fail. The status copied into a report is not modelled.
- TakService.TakServiceWorker.Iterate: stopping the thread and a poisoned lock are not modelled.
- CotEvents.ParseInboundCotEvent: XML tokenizing, attribute decoding and number parsing are inputs.
- TakStream.BuildFrame: starts from the encoded protobuf payload.
- AuthThrottle.DecidesAsHistory: holds for readings used in order; otherwise `AuthThrottle.DecidesWithinLag`. The system clock is never set back. Checking a password is an outcome chosen by the run.
- RemRouting.DurableTeamDirectoryMembers: of a directory row only team, member, identity and destination are modelled; names, capabilities, modes and times are copied fields.

Not modelled at all:

- `LxmfSdkLxmfRsAdapter::receive_frame` moves its cursor past a whole batch and returns one event of it; no delivery claim holds for it.
- `rem_team_peer_registry_payload` and the inbound TAK service repeat the selection and backoff logic modelled here.
- Sockets, TLS, threads' sleeping, SQLite, serde, argon2 and secret storage are library calls.
- Telemetry, attachments, sensor decoding, MECP tables, seed data, migrations, the command line, configuration, the OpenAPI text, the desktop shell and the user interface copy fields or hold tables.
