# tiny_rpc in Dafny

A model of the parts of tiny_rpc that hold state: the wire codec and the self-compacting buffer it
scans, the connection that feeds it, the dispatcher, the timer queue, the life of one client call, the
event loop, the message-id counter and the descriptor table. `dafny verify dfyconfig.toml` checks the
whole project.

Each object the source updates in place is a class (`TcpBuffer`, `TcpConnection`, `RpcDispatcher`,
`Timer`, `RpcController`, `RpcChannel`, `EventLoop`, `MsgIdUtils`, `FdEventGroup`). Its methods are
proved against functions on values (`View()`), and the theorems are about those functions and about
whole runs of them. Nothing is assumed about bytes from the network: the decoder of the model is total.
An access outside an array (`Faulted`) and a loop that does not end, because a round changes nothing
(`NoProgress`) or because it steps back over consumed bytes again and again (`SteppedBack`), are
outcomes; a loop that steps back and then returns is followed to its end. `DecodeRunIsTheLoop` ties
this decoder to the rounds of the source's loop.

| file | what it models |
|---|---|
| Bytes.dfy | 32-bit integers in network byte order |
| TcpBuffer.dfy | the buffer, its refinement of a byte queue, the cost of its copying |
| ProtobufFrames.dfy | the frame of a message and the extraction of its fields |
| ProtobufCoder.dfy | scan, decode loop, encoder |
| DecodeLoop.dfy | the decoder against the rounds of its loop, endless loops |
| StreamDecoding.dfy | decoding of whole streams, the round trip |
| IncompleteFrames.dfy | which beginnings of a frame are waited for |
| Noise.dfy | how much noise in front of a stream is harmless |
| ChunkedReading.dfy | streams that arrive in pieces |
| StepBack.dfy | a stream on which decode steps back and returns |
| RpcDispatcher.dfy | routing of a request, replies |
| TcpConnection.dfy | read loop, slack of the input buffer, end-to-end theorem |
| TimerQueue.dfy, TimerRuns.dfy | multimap of events, timerfd; whole runs of them |
| RpcCall.dfy | the race of reply and timeout |
| EventLoop.dfy | task queue and epoll registrations |
| MsgId.dfy, FdTable.dfy | decimal counter; descriptor table |

## What the proofs show about the code

Where a property one would expect does not hold, the model keeps the code and states exactly when it
does.

- A stream that fills the vector to the last byte may never be finished: the advance over the last
  frame is refused (`src/net/tcp/tcp_buffer.cc:69`) and decode returns the same message for ever.
  `DecodeFinishesIff` says for which buffers this happens, and `ExactFillNeverEnds` shows one for every
  message. An input buffer filled by `on_read` never gets there (`InputNeverFills`).
- The length word is read once a single byte follows the start marker
  (`src/net/coder/protobuf_coder.cc:62`), so decode does not always wait for the rest of a frame, and
  reading a stream in pieces does not always work. `DecodeWaitsIff` and `OnTimeIffQuiet` state exactly
  when every piece yields the frames it completes: it must leave a byte of the vector free, and what it
  leaves of a frame must be quiet, that is, trigger none of the guards of the scan where it lies. From a
  fresh buffer the cuts decide alone (`CutsDecide`): a frame without a second marker in what has
  arrived of it must be cut behind its first byte, behind its length word, or where the part of the
  length word that has arrived is not zero. So two bytes of a frame below 2^24 bytes behind another
  frame are never got past (`TwoBytesStallIff`).
- Under this condition everything comes through in the end. The converse holds if no start marker is in
  front of a byte from 128 on (`ChunkingWorksIff`), but not in general: such a marker announces a frame
  of negative length, and the advance over it moves the read index back
  (`src/net/coder/protobuf_coder.cc:88`). `StepBackDelivers` is a stream of two messages where decode
  takes bytes it should wait for, steps back, finds the second message inside the first, and later
  drops the second frame without a message. It also returns more than it has read, which is otherwise
  excluded (`DecodedBytesAreDropped`).
- The advance is counted from the read index and not from the match
  (`src/net/coder/protobuf_coder.cc:88`), so noise is never dropped. Noise of g bytes is harmless to
  every stream if and only if g is at most six (`NoiseLimit`); for a given noise and message the bytes
  that take its place decide (`NoiseDecides`).
- A read that fills the vector is lost, since the write index is not moved
  (`src/net/tcp/tcp_buffer.cc:81`, `ReceivedIffShort`); hence the input buffer never grows, and a frame
  as long as the vector is never decoded (`SlackNeverRefuses`).
- A reply that carries an error or does not parse cancels the timeout and does not run the closure
  (`ClosureLostIff`), so the caller is not told; only the controller shows the error
  (`ControllerShowsLastError`).
- A service can be reached if and only if the name it is registered under has no dot
  (`ReachableIffDotFree`); a request for pkg.Order.make is answered with "service not found"
  (`PackagedServiceIsNotFound`).
- Adding a repeating event that is pending puts it in twice, and the batch that runs it leaves an entry
  under a key that is not its arrival time (`RepeatingTwiceLosesKey`). Without that, every state is
  safe (`RunIsSafe`); with it, one-shot events still run at most once per add
  (`OneShotsRunOncePerAdd`) and cancelled ones never (`CancelledNeverRuns`).
- The repository's README demands a checksum; the code writes the constant 1 and never reads it. The
  model follows the code. The comment above `adjust_buffer` says "more than a third"; the code compacts
  from a third on, and so does the model.

## Model

| member | source | states |
|---|---|---|
| Bytes.Int32RoundTrip | src/common/utils.cc:45-51 | every signed 32-bit integer survives htonl and get_int32_from_netbyte |
| Bytes.WordRoundTrip | src/common/utils.cc:45-51 | every four bytes are the image of exactly one integer |
| Bytes.ImagesAreOrdered | src/common/utils.cc:45-51 | the images are in network byte order: they compare byte by byte as the integers do, with the negative ones last |
| TcpBuffers.RunRefinesQueue | src/net/tcp/tcp_buffer.cc:21-107 | every run of writes, reads, growth, forward index moves and backward moves of the write index is a run of an unbounded byte queue: same content, same bytes handed out, indices in order |
| TcpBuffers.StepRefinesQueue | src/net/tcp/tcp_buffer.cc:21-107 | the same for one operation |
| TcpBuffers.RunStaysFrugal | src/net/tcp/tcp_buffer.cc:22-45 | over every run, growth moves at most twice the current capacity, compaction at most four times the bytes consumed, and the read index stays in the first third |
| TcpBuffers.EveryBufferIsSound | src/net/tcp/tcp_buffer.cc:9-107 | the same and the refinement, from a new buffer of at least three bytes, with the bytes consumed read off the byte queue |
| TcpBuffers.StepStaysFrugal | src/net/tcp/tcp_buffer.cc:92-105 | the potential argument for one operation |
| TcpBuffers.CostsAreCopies | src/net/tcp/tcp_buffer.cc:33-45 | what is counted as copied: all unread bytes whenever the capacity changes or a compaction moves the read index |
| TcpBuffers.ConsumedIsCounted | src/net/tcp/tcp_buffer.cc:49-76 | what is counted as consumed is what the byte queue loses from its front |
| TcpBuffers.TcpBuffer.WriteToBuffer | src/net/tcp/tcp_buffer.cc:21-31 | appends to the unread bytes, growing to floor(1.5 * (write + size)) if needed, and counts what growth copies |
| TcpBuffers.TcpBuffer.ResizeBuffer | src/net/tcp/tcp_buffer.cc:33-46 | keeps the first unread bytes that fit |
| TcpBuffers.TcpBuffer.ReadFromBuffer | src/net/tcp/tcp_buffer.cc:49-65 | what is handed out, followed by what stays unread, is what was unread |
| TcpBuffers.TcpBuffer.AdjustReadIndex | src/net/tcp/tcp_buffer.cc:67-76 | moves the read index forward or back as far as the write index, refusing targets below 0 or from the capacity on |
| TcpBuffers.TcpBuffer.AdjustWriteIndex | src/net/tcp/tcp_buffer.cc:79-89 | moves the write index forward or back as far as the read index, refusing the same targets |
| TcpBuffers.TcpBuffer.AdjustBuffer | src/net/tcp/tcp_buffer.cc:92-107 | compaction leaves the unread bytes and the capacity as they are, and counts what it copies |
| ProtobufFrames.ParseRoundTrip | src/net/coder/protobuf_coder.cc:93-165 | a frame anywhere in memory is taken apart into the message as encode left it if and only if its texts fit the arrays of 100, 512 and 512 bytes with their terminator and contain no NUL |
| ProtobufFrames.ParsedIffLies | src/net/coder/protobuf_coder.cc:93-167 | for any bytes, a message is taken out of a match if and only if its lengths, texts and payload lie there in this order, every length before the end marker |
| ProtobufFrames.RejectedIffCutOff | src/net/coder/protobuf_coder.cc:93-148 | and a match is passed over without one if and only if a length would begin at the end marker or behind it |
| ProtobufFrames.FrameMarkers | src/include/net/coder/protobuf_protocol.h:14-17 | a frame begins with 0x02 and its own length and ends with 0x03 |
| ProtobufCoder.Scan | src/net/coder/protobuf_coder.cc:58-80 | the scan loop returns what the first deciding position says |
| ProtobufCoder.ScanFindsNothingIffQuiet | src/net/coder/protobuf_coder.cc:58-85 | it finds nothing if and only if no start marker announces an end marker that is there |
| ProtobufCoder.Decode | src/net/coder/protobuf_coder.cc:42-171 | the loop computes DecodeRun for every content of the buffer, through every step back |
| DecodeLoops.DecodeRunIsTheLoop | src/net/coder/protobuf_coder.cc:47-168 | for every content of the buffer: DecodeRun finishes with given messages at a given layout if and only if some number of rounds of the loop ends there in a scan that finds nothing, and it reports no progress or endless step backs if and only if every number of rounds is followed by another |
| DecodeLoops.StepsBackForEver | src/net/coder/protobuf_coder.cc:88-99 | a loop that has stepped back as often as there are pairs of indices has been in the same state before, and steps back for ever |
| DecodeLoops.SameLengthIsSame | src/net/coder/protobuf_coder.cc:47-168 | if decode leaves as many bytes unread as it found, it leaves the buffer as it found it, however often it has stepped back |
| ProtobufCoder.NoProgressIsForEver | src/net/coder/protobuf_coder.cc:47-88 | a round without progress leaves the buffer as it is, so that it repeats |
| ProtobufCoder.DecodedBytesAreDropped | src/net/coder/protobuf_coder.cc:88-167 | if no start marker is in front of a byte from 128 on, a decode that returns drops at least as many bytes as the messages it gives were sent with, and leaves the rest as it was |
| ProtobufCoder.EncodeProtobuf | src/net/coder/protobuf_coder.cc:173-252 | fills a fresh array with the frame of the message and stamps the message |
| ProtobufCoder.Encode | src/net/coder/protobuf_coder.cc:19-39 | appends the frames of a batch in turn |
| ProtobufCoder.EncodeAppendsStream | src/net/coder/protobuf_coder.cc:19-39 | the unread bytes gain exactly the frames, back to back and in order |
| StreamDecoding.DecodeStreamExact | src/net/coder/protobuf_coder.cc:47-168 | any stream of encodable messages behind up to six inert bytes and before any other bytes: decode returns these messages in order and then goes on exactly as from the buffer without their frames |
| StreamDecoding.DecodeWaitsIff | src/net/coder/protobuf_coder.cc:47-88 | it returns with exactly these messages, waiting for the rest, if and only if what is left is quiet where it lies |
| StreamDecoding.DecodeStream | src/net/coder/protobuf_coder.cc:47-168 | a sufficient condition on the incomplete frame alone |
| StreamDecoding.DecodeFinishesIff | src/net/coder/protobuf_coder.cc:82-88 | a stream alone in a buffer always yields its messages, and decode returns if and only if the last advance stays below the capacity |
| StreamDecoding.EncodeDecodeRoundTrip | src/net/coder/protobuf_coder.cc:19-252 | whole-stream round trip through an empty buffer, and exactly when decode returns |
| StreamDecoding.ExactFillNeverEnds | src/net/tcp/tcp_buffer.cc:67-76 | for every message, a buffer of exactly its frame: decode finds it for ever |
| StreamDecoding.UntouchedIffQuiet | src/net/coder/protobuf_coder.cc:47-88 | decode leaves the buffer as it is if and only if the unread bytes are quiet |
| IncompleteFrames.PrefixQuietIff | src/net/coder/protobuf_coder.cc:60-79 | in a buffer as a connection has it, the beginning of a frame without a second marker is waited for if and only if it has at most one byte, or at least five, or a part of the length word that is not zero |
| IncompleteFrames.PrefixIsPatient | src/net/coder/protobuf_coder.cc:60-70 | the first two kinds are waited for in any buffer |
| IncompleteFrames.HiddenLengthNeverReturns | src/net/coder/protobuf_coder.cc:62-88 | and decode does not return if the part of the length word that has arrived is zero |
| IncompleteFrames.TwoBytesStallIff | src/net/coder/protobuf_coder.cc:62-99 | a frame and two bytes of the next in a fresh buffer: decode returns if and only if the next frame has 2^24 bytes or more, and otherwise repeats or, after compaction, reads before the vector |
| IncompleteFrames.ZeroLengthWord | src/net/coder/protobuf_coder.cc:67-99 | a length word of zero, behind bytes without a marker, points at the byte before the marker: out of bounds at the front, and no progress behind an end marker |
| Noise.NoiseLimit | src/net/coder/protobuf_coder.cc:58-88 | noise of g bytes without a marker is harmless to every stream in every buffer if and only if g is at most six, for every g that fits a buffer |
| Noise.Resynchronises | src/net/coder/protobuf_coder.cc:58-88 | up to six bytes cost no message and stay unread |
| Noise.NoiseDecides | src/net/coder/protobuf_coder.cc:58-88 | noise without a marker, of any length, in front of one message: the message alone comes back and as many bytes stay unread if and only if what the first round leaves is quiet |
| Noise.PassedNoiseDecides | src/net/coder/protobuf_coder.cc:58-88 | the same for any stream and any bytes in front of it that the scan gets past before every frame |
| Noise.DriftedTailFails | src/net/coder/protobuf_coder.cc:63-88 | from seven bytes on, a family of messages behind which decode does not return |
| Noise.LongNoiseRepeats | src/net/coder/protobuf_coder.cc:58-88 | behind as many bytes as the frame has, a message is returned twice |
| ChunkedReading.OnTimeIffQuiet | src/net/tcp/tcp_connection.cc:73-121 | for every cut of a stream into reads and whatever its messages hold: every read yields exactly the messages it completes, and leaves as many bytes as have arrived of the next frame, if and only if it leaves a byte of the vector free and what it leaves is quiet where it lies |
| ChunkedReading.ChunkingWorksIff | src/net/tcp/tcp_connection.cc:73-121 | under this condition all messages come through in the end and nothing is left; if no start marker is in front of a byte from 128 on, also after a loss, only under it: a read that fills the vector is then missed |
| ChunkedReading.ChunkingIndependence | src/net/tcp/tcp_connection.cc:73-121 | the same with the messages that one decode of the whole stream gives |
| StepBacks.StepBackDelivers | src/net/coder/protobuf_coder.cc:63-99 | without the hypothesis the converse fails: two messages and a cut for which everything comes through although what the first read leaves is not quiet, and a decode that returns messages sent with more bytes than it drops |
| ChunkedReading.CutsDecide | src/net/coder/protobuf_coder.cc:60-79 | from a fresh buffer, for cuts without a second marker in a frame, if every piece leaves a byte free or nothing steps back: the stream comes through if and only if every piece leaves a byte free and every cut shows the length |
| ChunkedReading.WellCutsAreQuiet | src/net/coder/protobuf_coder.cc:60-70 | in any buffer, cuts of 0, 1 or at least 5 bytes without a second marker meet the condition |
| ChunkedReading.ReadPiece | src/net/tcp/tcp_connection.cc:73-121 | one piece yields the frames it completes, and decode goes on with exactly what is incomplete |
| ChunkedReading.StepIsOnRead | src/net/tcp/tcp_connection.cc:73-121 | a step of such a run is one pass of on_read with the result of that read, and decode if that ends the loop |
| ChunkedReading.BurstIsOneOnRead | src/net/tcp/tcp_connection.cc:73-121 | reads that fill the vector and a last one that does not are one call of on_read with one decode |
| RpcDispatchers.ParsesTheOnlySplit | src/net/rpc/rpc_dispatchor.cc:181-206 | the parser returns the one pair that rebuilds the name with a dot-free service, and fails exactly for names without a dot |
| RpcDispatchers.ServedIffReaches | src/net/rpc/rpc_dispatchor.cc:46-100 | a method runs if and only if the prefix is registered, the method exists and the payload parses |
| RpcDispatchers.ReplyIsTheAnswer | src/net/rpc/rpc_dispatchor.cc:46-147 | the reply to every request: code 10000010, 10000008, 10000009 or 10000003 and its text for the first of name, service, method and payload that is bad, else code 0 and the answer of the method to this payload, or 10000008 if that cannot be serialised |
| RpcDispatchers.ReachedMethodAnswers | src/net/rpc/rpc_dispatchor.cc:82-147 | a request that reaches a method gets what that method answers to its own payload |
| RpcDispatchers.ReplyErrorNamesStage | src/net/rpc/rpc_dispatchor.cc:46-147 | conversely each code is sent only for its stage, 10000008 for two of them, an unknown service and a failed serialisation |
| RpcDispatchers.ReachableIffDotFree | src/net/rpc/rpc_dispatchor.cc:169-206 | a registered service with a usable method is reached by some request if and only if its name has no dot |
| RpcDispatchers.DottedNameIsCutEarly | src/net/rpc/rpc_dispatchor.cc:181-206 | where a request for a service with a dot in its name goes instead |
| RpcDispatchers.PackagedServiceIsNotFound | src/net/rpc/rpc_dispatchor.cc:169-206 | one such service and the error its caller gets |
| RpcDispatchers.LastRegistrationWins | src/net/rpc/rpc_dispatchor.cc:169-173 | after any registrations a name stands for the service registered last under it |
| RpcDispatchers.ReplyIsEncodable | src/net/rpc/rpc_dispatchor.cc:42-43 | the reply to a decoded request can be encoded and decoded again |
| RpcDispatchers.RpcDispatcher.Dispatch | src/net/rpc/rpc_dispatchor.cc:24-167 | that reply with the id and method name of the request, and the method called, if any: called with this payload, if and only if one is reached |
| TcpConnections.ReceivedIffShort | src/net/tcp/tcp_buffer.cc:79-89 | bytes read become readable if and only if the read left a byte free |
| TcpConnections.ReadLoopDecides | src/net/tcp/tcp_connection.cc:73-106 | for every sequence of read results, the first that is end of file, EAGAIN or a read that leaves a byte free decides: end of file closes, the others execute; the bytes of that read and no others are added to the unread ones, and a full vector is doubled first |
| TcpConnections.InputNeverFills | src/net/tcp/tcp_connection.cc:73-121 | over every sequence of reads and single decode rounds on any bytes, including rounds that step back, a byte stays free and the capacity stays the same |
| TcpConnections.RoundsAreInput | src/net/coder/protobuf_coder.cc:47-88 | every state the decode loop passes through is a state of such a sequence |
| TcpConnections.ReadsAreInput | src/net/tcp/tcp_connection.cc:73-106 | so is every state in which the read loop leaves the buffer |
| TcpConnections.DecodeIsSomeRounds | src/net/coder/protobuf_coder.cc:47-88 | so is the one decode stops in |
| TcpConnections.SlackNeverRefuses | src/net/tcp/tcp_buffer.cc:67-76 | then every match of positive length is dropped exactly, and none is as long as the vector |
| TcpConnections.EndToEnd | src/net/tcp/tcp_connection.cc:137-157 | one reply frame per request, in order, on every dispatch path; the client decodes one reply per request with its id, its method name, and the answer of its method to its payload or the error of the stage that failed |
| TcpConnections.EveryCallerIsAnswered | src/net/tcp/tcp_connection.cc:174-186 | with different ids, the callback of a waiting request runs exactly once, with the server's answer to it |
| TcpConnections.EachWaiterRunsOnce | src/net/tcp/tcp_connection.cc:179-186 | the part of that about the client's lookup |
| TcpConnections.TcpConnection.ReadFromSocket | src/net/tcp/tcp_connection.cc:69-106 | the read loop computes ReadLoop for every sequence of results |
| TcpConnections.TcpConnection.Excute | src/net/tcp/tcp_connection.cc:124-188 | both sides of excute: the input is decoded, the replies encoded and writing listened for, or the waiting callbacks run |
| TcpConnections.TcpConnection.OnRead | src/net/tcp/tcp_connection.cc:61-122 | nothing unless connected; closes exactly on end of file; otherwise reads and executes |
| TcpConnections.TcpConnection.OnWrite | src/net/tcp/tcp_connection.cc:250-315 | nothing unless connected; a client encodes its queue, reports each message and empties the queue |
| TcpConnections.TcpConnection.Clear | src/net/tcp/tcp_connection.cc:201-218 | unless closed already, cancels both events, leaves the loop and closes |
| TcpConnections.TcpConnection.PushReadMessage | src/net/tcp/tcp_connection.cc:238-244 | the first callback registered for an id stays |
| TimerQueue.BatchIsCorrect | src/net/time/timer.cc:40-85 | on_timer runs exactly the due uncancelled events, by arrival and by age on ties; then exactly the undue and the run repeating events are pending, each rescheduled by its interval from a reading taken meanwhile |
| TimerQueue.BatchDrainsTimer | src/net/time/timer.cc:33-38 | the timerfd has been read when a batch ends |
| TimerRuns.RunIsSafe | src/net/time/timer.cc:31-183 | every state of a run that adds no repeating event while it is pending: keys are arrival times, nothing pending is unwatched, one-shot events run at most once per add |
| TimerRuns.OneShotsRunOncePerAdd | src/net/time/timer.cc:31-183 | in every run, one-shot events run, and are still pending, at most once per add |
| TimerRuns.OneShotsRunAtMostOncePerAdd | src/net/time/timer.cc:31-183 | from an empty timer, read off the run alone: the batches contain a one-shot event at most as often as the actions add it |
| TimerRuns.RepeatingTwiceLosesKey | src/net/time/timer.cc:65-75 | a repeating event added twice: after the batch an entry has a key that is not the arrival time of its event |
| TimerRuns.NothingIsForgotten | src/net/time/timer.cc:88-163 | from an empty timer, for every such run: a pending event has a fired timer, or one whose deadline is ahead and at most its arrival or 100 ms after arming |
| TimerRuns.CancelStopsEvent | src/net/time/timer.cc:165-168 | in every run, after set_cancel or delete_time_event no batch runs the event, whatever happens in between |
| TimerRuns.CancelledNeverRuns | src/net/time/timer.cc:52-58 | the same for an event that is cancelled already |
| TimerRuns.NoEventIsLost | src/net/time/timer.cc:40-85 | in every run, a one-shot event that is neither cancelled nor deleted is in the batches and still pending exactly as often as it was pending before and has been added |
| TimerRuns.NothingRunsEarly | src/net/time/time_event.cc:17-29 | in every run, an event created during it is in no batch that begins before its interval has passed |
| TimerRuns.HistoryIsTheTrace | src/net/time/timer.cc:31-163 | what is counted as added and run is what the actions add and the batches contain |
| TimerQueue.ArmingIsExact | src/net/time/timer.cc:117-131 | the split into seconds and nanoseconds is exact and never zero, so arming never disarms |
| TimerQueue.RearmWatches | src/net/time/timer.cc:88-131 | arms for exactly the earliest arrival, or 100 ms ahead if that is past, so that every pending event is watched |
| TimerQueue.AddKeepsWatch | src/net/time/timer.cc:140-163 | adding keeps every pending event watched, whether or not it re-arms |
| TimerQueue.AddRearmsIffFirst | src/net/time/timer.cc:140-163 | adding sets the timerfd, for its own arrival or 100 ms ahead, if and only if the event arrives before all that are pending |
| TimerQueue.DeleteIsSound | src/net/time/timer.cc:165-183 | deleting takes out one entry of the event, if there is one, and no other |
| TimerQueue.Timer.ResetArriveTime | src/net/time/timer.cc:88-131 | arms for the first entry, in at least 1 ms |
| TimerQueue.Timer.AddTimeEvent | src/net/time/timer.cc:140-163 | inserts behind equal keys and re-arms if the event is the first |
| TimerQueue.Timer.DeleteTimeEvent | src/net/time/timer.cc:165-183 | cancels the event and erases the entry found among equal keys |
| TimerQueue.Timer.SetCancel | src/net/time/time_event.cc:13-13 | cancels the event and changes nothing else |
| TimerQueue.Timer.RunDue | src/net/time/timer.cc:31-86 | the loops compute OnTimer |
| RpcCalls.CallOutcome | src/net/rpc/rpc_channel.cc:84-166 | over every interleaving with at most one reply, the closure runs at most once: with the timeout code exactly if the timer fired before any answer, with 0 exactly if a good answer came first |
| RpcCalls.ClosureLostIff | src/net/rpc/rpc_channel.cc:141-155 | once the timer has gone, the closure has not run if and only if an answer with an error came first |
| RpcCalls.ControllerShowsLastError | src/net/rpc/rpc_channel.cc:84-156 | after every trace the controller shows the error reported last, read off the trace: the code of the failed first connect, 10000004 for an answer that does not parse, the code an answer carries, 10000007 for a timeout before any answer; and no error if there is none |
| RpcCalls.RefusedCallStaysRefused | src/net/rpc/rpc_channel.cc:65-79 | a call on a channel that is not ready shows 10000011, one that cannot be serialised 10000004, for ever; it runs nothing and arms no timer |
| RpcCalls.RpcChannel.OnReply | src/net/rpc/rpc_channel.cc:128-163 | the reply callback |
| RpcCalls.RpcChannel.OnTimerFires | src/net/rpc/rpc_channel.cc:84-96 | the timeout task |
| EventLoops.LogIsWhatWasEnqueued | src/net/eventloop.cc:206-232 | the enqueue log of every run is the tasks added and the requests from other threads, in order, each with its iteration |
| EventLoops.AppliedIsWhatWasPerformed | src/net/eventloop.cc:103-280 | the registrations applied in every run are the direct requests and the deferred ones taken, with their events, in the order performed |
| EventLoops.TasksRunInOrder | src/net/eventloop.cc:103-118 | over every interleaving, taken ++ batch ++ pending is that log, and each task is taken in the iteration after its enqueueing |
| EventLoops.NothingIsLeftBehind | src/net/eventloop.cc:103-118 | when an iteration has drained its batch, everything enqueued before it has been taken |
| EventLoops.RegistrationMirrorsKernel | src/net/eventloop.cc:206-280 | over every interleaving of direct and deferred requests, the listened set is the kernel's, both are the fold of the requests applied, and no epoll_ctl fails |
| EventLoops.EveryLoopIsSound | src/net/eventloop.cc:103-280 | both properties in every state reachable from a new loop, with the log and the requests read off the actions |
| EventLoops.NoIterationAfterStop | src/net/eventloop.cc:103-193 | a loop that has been told to stop begins no further iteration |
| EventLoops.EventLoop.AddTask | src/net/eventloop.cc:226-232 | appends the task to what is pending |
| EventLoops.EventLoop.AddToEpoll | src/net/eventloop.cc:237-258 | MOD for a listened descriptor, ADD otherwise |
| EventLoops.EventLoop.DeleteFromEpoll | src/net/eventloop.cc:261-280 | DEL for a listened descriptor, nothing otherwise |
| EventLoops.EventLoop.DrainBatch | src/net/eventloop.cc:103-118 | one iteration takes exactly what was enqueued before it, and leaves exactly what is enqueued meanwhile, in order |
| MsgIds.SuccAddsOne | src/common/msg_id_utils.cc:41-52 | counting up keeps length and digits and adds one to the value |
| MsgIds.IdsAreDistinct | src/common/msg_id_utils.cc:41-52 | all ids from one seed up to all nines are different and growing |
| MsgIds.MsgIdUtils.GenMsgId | src/common/msg_id_utils.cc:18-53 | the carry loops compute the successor; the first call seeds from random bytes |
| FdTables.FdEventGroup.GetFdEvent | src/net/fd_event/fd_event_group.cc:20-36 | returns slot fd, whose event is for fd; growth keeps every slot |
| FdTables.FdEventGroup.LookUpAll | src/net/fd_event/fd_event_group.cc:20-36 | over any run of lookups, two results are the same object if and only if the descriptors are equal |

## Left out

- Sockets, epoll_wait, eventfd, timerfd and threads: their results are parameters or steps of the models; a kernel timer fires when the clock passes its deadline.
- TcpConnections.TcpConnection.OnWrite: stops at the socket; `on_write` never advances the output buffer after a write, so claims are about the content of that buffer only.
- Preemption inside `Timer` operations: each is one step, so the gap between reading the pending events and setting the timerfd in `reset_arrive_time` is not modelled for several threads.
- TimerQueue.Timer.DeleteTimeEvent: stops before the second lock of a lock that is held, where the source does not return.
- MsgIds.MsgIdUtils.GenMsgId: nothing is said about calls after a second seed, when the maximum is longer than the id and the carry loop leaves the string.
- FdTables.FdEventGroup.GetFdEvent: requires the descriptor to lie in the table after one growth, since the source indexes without a check.
- ProtobufCoder.Decode: reports a loop that does not end as an outcome, where the source does not return.
- TcpBuffers.RunRefinesQueue: runs have no backward moves of the read index, which bring back consumed bytes as far as no compaction has overwritten them, and so are not operations of a queue.
- TcpBuffers.TcpBuffer.AdjustReadIndex: requires a target that does not pass the write index, unless it is refused; the source accepts it, and then has a negative number of unread bytes.
- TcpBuffers.TcpBuffer.AdjustWriteIndex: requires a target that does not fall behind the read index, unless it is refused, for the same reason.
- EventLoops.EventLoop.AddTask: the wake-up that may go with it is not modelled.
- RpcCalls.ControllerShowsLastError: error texts of the controller are not modelled.
- Buffers beyond 2^31 - 1 bytes, which the source's int indices cannot express.
- Services with state: a method's answer is a function of the payload; protobuf parsing and serialisation are parameters of the method.
- More than one reply for a call: the callback is never removed, and a second run of it would use a channel it has released.
- The EPOLLERR branch of the loop and the moment of wake-up.
- TimerEvent and message objects are values in a store or sequence instead of shared pointers; ownership and lifetime are not modelled.
- Logging, configuration files, address parsing, the acceptor, thread groups and `StringCoder` are not modelled.
