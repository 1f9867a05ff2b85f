# hytch: the path of a session's bytes

hytch keeps a program running behind a pty. What the program prints goes to
three places at once: a scrollback ring, the clients attached at the moment, and
an on-disk log that trims itself. What a client types travels the other way, as
length-prefixed frames, through a queue, into the pty. This project models both
directions and proves that bytes are not lost, duplicated or reordered on the
way, that the log is safe to replay, and that a kill, once its signal is queued,
waits for no bulk data but the one chunk being written.

Check it with `dafny verify dfyconfig.toml`.

## How the parts fit

- `Bytes`: streams, chunks, "the last n", and `x & (cap - 1)`.
- `RingBuffers`: scrollback over an array with masked indices and two block
  copies.
- `Rotation`, `SessionLogs`, `LogReplay`: where the log is cut; the file, its
  cursor and the log object; and what a terminal makes of replaying the result.
  The terminal is a small state machine: UTF-8 as in section 4 of RFC 3629,
  control sequences as in section 5.4 of ECMA-48, two-byte escapes.
- `Codec`, `FrameCodec`: the wire format and a parser of whole streams; the
  encoder, decoder and framed reader over mutable buffers, proved against it.
- `AttachLoop`, `PushCommand`: the two senders.
- `Fanouts`, `FanoutRuns`: the lock around scrollback and broadcast, as code;
  then every interleaving of pushes and client tasks, as a transition system.
- `DaemonLoop`: the biased select as a transition system.
- `Wiring`: what a message and a pass of the loop ask of the other parts.
- `Hubs`, `EventLoops`, `ClientTasks`: the event loop and the connection tasks as
  code over one shared fanout. Every run of the loop is a run of `DaemonLoop`;
  the tasks' code between two awaits is one step of `FanoutRuns`, so tasks and
  loop taking turns in any order make a run of it.
- `Hytch`: connections, event loop, fanout and log writer in one system whose
  steps interleave freely. Every run of it is a run of `DaemonLoop` and of
  `FanoutRuns`, so what is proved of those holds of the whole.
- `Ancestry`: the chain of sockets a nested session carries.

A record that no step reads (the output history, what a connection has
received, and so on) is marked as such where it is declared.

## Where the expected property is false

- One rotation per append is not always one rotation of the whole history. If a
  run of UTF-8 continuation bytes longer than the cap is cut so that its first
  part empties the log, the log then starts on a stray continuation byte that
  rotating the whole history would skip (`SessionLogs.StrayContinuationsDiffer`).
  `SessionLogs.IndependenceExact` says, from its bytes alone, which histories no
  chunking makes differ; `SessionLogs.ChunkingIndependence` says which chunkings
  of a history do; and for text a terminal accepts none does at a cap of 0 or of
  at least 3 (`LogReplay.TextIndependenceExact`).
- A rotation can start inside a token when a control sequence is longer than 65
  bytes, or when the cap is less than 3 more than what follows the output (nothing
  while output is still coming, the end marker after it).
  `LogReplay.TokenSafetyExact` gives both bounds, as an if and only if.
- A kill can wait behind bulk data on its own connection: with a push ahead of it
  and the push queue full, nothing more of that connection is handled until the
  loop takes a chunk (`Hytch.KillStuckBehindPush`). `Hytch.HandleExact` says when a
  frame is handled, `Hytch.KillEndToEnd` what comes before a kill.
- A frame whose payload exceeds the decoder's limit, or does not fit the 32-bit
  length field, is not read back. `Codec.StreamRoundTrip` is an if and only if.
- Decoding and re-encoding changes an attach flag above 1, and nothing else
  (`Codec.ReencodeExact`).
- A command queued after the loop has seen the pty hang up is never applied
  (`DaemonLoop.NothingDoneAfterLoop`); the bound on a kill's delay needs
  the loop to be running when it is queued.

Where comments and code disagree, the model follows the code: the log may exceed
its cap by up to 64 bytes, although the comment at
`crates/daemon/src/session_log.rs:122-123` says it never does; and a closed
resize channel can wake the attach loop any number of times, although the comment
at `crates/client/src/attach.rs:154-156` says it goes quiet.

## Model

| member | source | states |
|---|---|---|
| Bytes.MaskIsRemainder | crates/daemon/src/ring_buffer.rs:53-61 | for every power of two, masking an index with capacity minus one is the remainder |
| Bytes.UptoTakes | crates/client/src/attach.rs:189-197 | a write that fails has taken a prefix |
| RingBuffers.Masked | crates/daemon/src/ring_buffer.rs:61-71 | a masked index is the position wrapped once around the storage, also for capacity 1 |
| RingBuffers.RingBuffer.constructor | crates/daemon/src/ring_buffer.rs:21-31 | an empty buffer of the given power-of-two capacity |
| RingBuffers.RingBuffer.CopyIn | crates/daemon/src/ring_buffer.rs:61-67 | at most two block copies lay the data cyclically over the storage, touching nothing else |
| RingBuffers.OverwriteKeepsNewest | crates/daemon/src/ring_buffer.rs:61-76 | writing past the newest byte, with the new head, leaves exactly the newest bytes in order |
| RingBuffers.RingBuffer.Append | crates/daemon/src/ring_buffer.rs:48-76 | the storage stays a picture of the newest bytes of everything ever appended, whatever the sizes |
| RingBuffers.RingBuffer.Snapshot | crates/daemon/src/ring_buffer.rs:79-87 | the snapshot is the last min(capacity, total) bytes ever appended |
| Rotation.ContinuationMask | crates/daemon/src/session_log.rs:90 | the masked comparison singles out 0x80 to 0xbf |
| Rotation.LastEscapeIsLast | crates/daemon/src/session_log.rs:78-82 | the search finds the last ESC before the cut, or there is none |
| Rotation.SkipContinuationSkips | crates/daemon/src/session_log.rs:89-93 | the cut moves over continuation bytes only, and over all of them |
| Rotation.WindowDecides | crates/daemon/src/session_log.rs:45-59 | reading only the cap plus 64 last bytes yields the same tail as looking at the whole file |
| Rotation.SafeStartOnBytes | crates/daemon/src/session_log.rs:77-110 | byte by byte: the cut is the last ESC at most 64 bytes back whose sequence is only an ESC or a CSI without a final byte yet, and otherwise the next byte that is no continuation byte |
| Rotation.RotateBounds | crates/daemon/src/session_log.rs:38-63 | the result is a suffix, at most 64 bytes over the cap, unchanged within it, and never opens with a continuation byte once trimmed |
| Rotation.NoOpenEscapeBefore | crates/daemon/src/session_log.rs:78-87 | any ESC a later lookback over the whole history could still see before the log's first byte is already closed |
| Rotation.RotateTail | crates/daemon/src/session_log.rs:152-164 | once the cap boundary has passed the log's first byte, trimming the log and trimming the history cut at the same byte |
| Rotation.LogStep | crates/daemon/src/session_log.rs:152-164 | append and rotate keep the file a possible incremental log of its history |
| Rotation.LogIsRotated | crates/daemon/src/session_log.rs:42-94 | an incremental log is the rotated history exactly when its first byte is not a stray continuation byte |
| Rotation.RotateEmpties | crates/daemon/src/session_log.rs:77-94 | rotation leaves nothing exactly when the last cap bytes are continuation bytes outside an escape |
| SessionLogs.SafeTrimStart | crates/daemon/src/session_log.rs:77-94 | the loop returns the safe start, stated on the bytes: back to an ESC still open, else forward past continuation bytes |
| SessionLogs.OverwrittenAt | crates/daemon/src/session_log.rs:58-61 | writing at the cursor replaces bytes there and no others |
| SessionLogs.RotateLogFile | crates/daemon/src/session_log.rs:42-63 | seeks, reads, truncates and writes so that the file holds its rotation and the cursor is at its end |
| SessionLogs.SessionLog.Open | crates/daemon/src/session_log.rs:134-148 | opening trims what was there and the tracked size is the file's length |
| SessionLogs.SessionLog.Append | crates/daemon/src/session_log.rs:152-164 | the new content, the tracked size, the bound of 64 over the cap, and when it equals one rotation of the history |
| SessionLogs.AppendRefinesRotate | crates/daemon/src/session_log.rs:42-110 | rotate(rotate(h) + d) equals rotate(h + d) except in one case stated on the bytes of h and d, and then differs |
| SessionLogs.RotateIdempotent | crates/daemon/src/session_log.rs:42-63 | rotating a rotated log changes nothing |
| SessionLogs.AppendAllHolds | crates/daemon/src/session_log.rs:134-164 | what the file holds after any run: the rotated history, or the history from the stray byte on |
| SessionLogs.ChunkingIndependence | crates/daemon/src/session_log.rs:134-164 | after any run the file is one rotation of everything, if and only if no append starts the log on a stray byte, which where the input is cut decides |
| SessionLogs.IndependenceExact | crates/daemon/src/session_log.rs:134-164 | every chunking of a history gives one rotation of it, if and only if it has no run of cap + 1 continuation bytes outside an escape with at most cap - 1 bytes after it |
| SessionLogs.IndependenceThroughout | crates/daemon/src/session_log.rs:134-164 | that holds of every prefix too, so after every append, if and only if there is no such run anywhere |
| SessionLogs.StrayContinuationsDiffer | crates/daemon/src/session_log.rs:89-93 | a concrete run on which the two differ |
| SessionLogs.RunLogWriter | crates/daemon/src/daemon.rs:259-271 | the writer thread appends every queued chunk once, in queue order |
| LogReplay.EscapeAtGround | crates/daemon/src/session_log.rs:69-71 | a cut at an ESC is between tokens |
| LogReplay.SkipReachesGround | crates/daemon/src/session_log.rs:72-73 | skipping continuation bytes ends at a character boundary at most 3 bytes on |
| LogReplay.OpenEscapeFound | crates/daemon/src/session_log.rs:78-87 | a sequence of at most 65 bytes that straddles the cut is found in the lookback and recognised as open |
| LogReplay.CutBeforeBreak | crates/daemon/src/session_log.rs:65-94 | output may break off anywhere: while the cap has room for what follows and 3 bytes, the cut is between tokens of the output |
| LogReplay.CutBetweenTokens | crates/daemon/src/session_log.rs:65-94 | a rotation starts between tokens and keeps all but 3 bytes of what the cap allows |
| LogReplay.CutExact | crates/daemon/src/session_log.rs:65-110 | where accepted output is cut: at the boundary itself between tokens, at the end of a character, at the ESC of an escape sequence; so a closed sequence never pulls the cut back |
| LogReplay.ContinuationRun | crates/daemon/src/session_log.rs:72-73 | a terminal accepts at most three continuation bytes in a row |
| LogReplay.TextIndependenceExact | crates/daemon/src/session_log.rs:134-164 | every chunking of every accepted history gives one rotation of it, if and only if the cap is 0 or at least 3 |
| LogReplay.ReplayOfRun | crates/daemon/src/session_log.rs:30-41 | after any run the log starts between tokens and a cold replay ends in the mode the whole history ends in |
| LogReplay.ReplayAcrossBreak | crates/daemon/src/daemon.rs:217-225 | a last chunk after output that broke off: one rotation of all, and with room for it the chunk after output that replays as all of it |
| LogReplay.TokenSafetyExact | crates/daemon/src/session_log.rs:17-25 | rotation is token-safe for all histories, wherever they break off before what follows, if and only if sequences are at most 65 bytes and the cap is at least 3 more than what follows |
| LogReplay.LongSequenceUnsafe | crates/daemon/src/session_log.rs:20-25 | a longer control sequence is cut in two at every cap |
| LogReplay.SmallCapUnsafe | crates/daemon/src/session_log.rs:89-93 | a smaller cap can drop the start of a character still arriving |
| LogReplay.RotateKeepsUtf8 | crates/daemon/src/session_log.rs:32-41 | valid UTF-8 stays valid and at least the cap minus 3 bytes are kept |
| LogReplay.TextIsUtf8 | crates/daemon/src/session_log.rs:72-73 | plain text is accepted exactly when it is a sequence of encoded characters |
| LogReplay.CharacterAccepted | crates/daemon/src/session_log.rs:72-73 | every character is accepted |
| LogReplay.EscapeAccepted | crates/daemon/src/session_log.rs:96-103 | every two-byte escape is accepted |
| LogReplay.SequenceAccepted | crates/daemon/src/session_log.rs:96-103 | every control sequence within the limit is accepted |
| Codec.WireRoundTrip | crates/proto/src/codec.rs:48-113 | a frame followed by anything is read back, with its exact length, if and only if it fits |
| Codec.StreamRoundTrip | crates/proto/src/codec.rs:48-113 | encoding a list and parsing gives the list back with nothing left, if and only if every message fits |
| Codec.ReencodeExact | crates/proto/src/codec.rs:116-160 | re-encoding a decoded frame gives its bytes, except for an attach flag above 1 |
| Codec.ScanFrontStable | crates/proto/src/codec.rs:88-113 | more bytes never change a message or an error already decided |
| Codec.ParseSplit | crates/proto/src/codec.rs:88-113 | parsing can stop at any byte and go on from its leftover; errors stay |
| Codec.LeftoverBound | crates/proto/src/codec.rs:96-108 | while waiting, fewer than 5 plus max_frame_len bytes are held |
| Codec.PrefixOfStream | crates/proto/src/codec.rs:88-113 | a stream cut short yields a prefix of its messages and no error |
| Codec.FrameLayout | crates/proto/src/codec.rs:48-82 | the frame byte by byte: type, big-endian length, payload with rows before columns and the redraw codes 0 to 3 |
| Codec.FrontExact | crates/proto/src/codec.rs:88-160 | byte by byte, when a frame is waited for, refused or read, and which message it carries |
| FrameCodec.WriteHeader | crates/proto/src/codec.rs:79-82 | type byte and big-endian length, truncated to 32 bits |
| FrameCodec.Encode | crates/proto/src/codec.rs:48-76 | appends exactly the frame of the message |
| FrameCodec.DecodePayload | crates/proto/src/codec.rs:116-160 | the message a payload carries, or an error for a wrong length, method or type |
| FrameCodec.Decode | crates/proto/src/codec.rs:88-113 | one attempt: waits and consumes nothing, fails, or consumes exactly one frame |
| FrameCodec.ReadFrames | crates/daemon/src/daemon.rs:289-294 | for any bytes and any cut into reads, messages, error and leftover are those of parsing the whole stream |
| AttachLoop.FirstSpecialConcat | crates/client/src/attach.rs:173-187 | where the first special byte lies does not depend on how reads cut the input |
| AttachLoop.FindSpecialChar | crates/client/src/attach.rs:173-187 | the earliest special byte and its outcome, suspend winning a tie; none only if there is none |
| AttachLoop.HandleEvent | crates/client/src/attach.rs:115-158 | what one wake-up sends, shows (flushed before the next) and returns, and that it fails exactly when connection or terminal take less |
| AttachLoop.Drive | crates/client/src/attach.rs:78-160 | the wire holds the frames of handshake, body and farewell, the terminal all output read, as far as they took it; only the last event stopped the loop; it fails exactly on a failed read or write |
| AttachLoop.InputConserved | crates/client/src/attach.rs:116-132 | pushed bytes are the input up to the first special byte, which decides the outcome |
| AttachLoop.BodySteady | crates/client/src/attach.rs:114-158 | between handshake and farewell only non-empty pushes within a read and window sizes, rows and columns of all resizes in order |
| AttachLoop.SentGrammar | crates/client/src/attach.rs:92-158 | Attach, Redraw, then pushes and window sizes, then one Detach, at the very end, exactly when the outcome is a suspend |
| AttachLoop.OutcomeMeaning | crates/client/src/attach.rs:116-147 | which last event gives which outcome, and only that: end of input, end of the connection, a failed read, a suspend or detach character first |
| AttachLoop.EventMeaning | crates/client/src/attach.rs:115-158 | what one event sends and shows, and whether it stops the loop |
| AttachLoop.SentFits | crates/client/src/attach.rs:112-113 | every frame of a run is within the decoder's limit |
| AttachLoop.DaemonReadsBack | crates/daemon/src/daemon.rs:289-335 | the daemon decodes a prefix of what was sent at any moment, and exactly it in the end |
| PushCommand.PushStdin | crates/cli/src/commands.rs:91-122 | one frame a read until end of input; the exit code tells end of input from a failed read or a lost connection |
| PushCommand.PushEndToEnd | crates/cli/src/commands.rs:82-122 | decoded payloads concatenate to standard input, for any length and any cut of the connection |
| PushCommand.OneFrameTooLong | crates/cli/src/commands.rs:83-89 | sent as one frame, input is read back if and only if it is at most 64 KiB |
| Fanouts.Broadcast.Send | crates/daemon/src/fanout.rs:45-46 | stores the newest items only, and nothing without receivers |
| Fanouts.Broadcast.Recv | crates/daemon/src/daemon.rs:273-280 | empty, the item at the cursor, or how many items were missed |
| Fanouts.Fanout.constructor | crates/daemon/src/fanout.rs:33-39 | empty scrollback, empty channel, no receivers |
| Fanouts.Fanout.Push | crates/daemon/src/fanout.rs:42-47 | scrollback and channel get the chunk in one step |
| Fanouts.Fanout.Attach | crates/daemon/src/fanout.rs:53-57 | snapshot of everything pushed so far and a cursor at the next push, in one step |
| FanoutRuns.PollExact | crates/daemon/src/daemon.rs:343-354 | a receiver's next item is the next chunk of the history; it lags exactly when more than the capacity is unread |
| FanoutRuns.NextOk | crates/daemon/src/daemon.rs:292-358 | every step of any task keeps the invariant of scrollback, channel and clients |
| FanoutRuns.RunsOk | crates/daemon/src/daemon.rs:292-358 | the invariant holds in every world any interleaving reaches |
| FanoutRuns.NoGapNoDuplicate | crates/daemon/src/fanout.rs:49-57 | on every run, each attachment was written a prefix of its snapshot plus all later output |
| FanoutRuns.CaughtUp | crates/daemon/src/fanout.rs:49-57 | an idle client that has taken every chunk was written all of it |
| FanoutRuns.Agreement | crates/daemon/src/fanout.rs:1-11 | any two attachments agree on every byte of output both were shown |
| FanoutRuns.LagBound | crates/daemon/src/daemon.rs:350-353 | a receive drops the client if and only if more than the capacity was pushed beyond its cursor |
| FanoutRuns.NothingAfterDrop | crates/daemon/src/daemon.rs:345-355 | after a lag or an error nothing is written to that client any more |
| FanoutRuns.AttachInOneGo | crates/daemon/src/daemon.rs:296-303 | an undisturbed attach shows the scrollback unless skipped and leaves the cursor at the next push |
| FanoutRuns.ReceiveInOneGo | crates/daemon/src/daemon.rs:345-349 | an undisturbed receive writes the next chunk of the history |
| FanoutRuns.MoveEffects | crates/daemon/src/daemon.rs:292-358 | the channel has the receivers the tasks hold, and a socket gets exactly what each write takes |
| FanoutRuns.DetachEffect | crates/daemon/src/daemon.rs:304-307 | a detach leaves the client without a receiver and the channel with one less |
| FanoutRuns.DetachSilences | crates/daemon/src/daemon.rs:304-307 | from a detach to the next attach, on every run, nothing is written to the client |
| FanoutRuns.AttachEffect | crates/daemon/src/daemon.rs:296-303 | an attach puts a receiver at the next push and, unless declined, keeps the old one while the scrollback is written |
| FanoutRuns.JoinEffect | crates/daemon/src/daemon.rs:302 | then the new receiver replaces the old one |
| FanoutRuns.ReceiveEffect | crates/daemon/src/daemon.rs:343-353 | a receive takes one item, or ends the lagged client |
| FanoutRuns.DropEffect | crates/daemon/src/daemon.rs:299-301 | an open client can end at any time and then holds no receiver |
| DaemonLoop.NextOk | crates/daemon/src/daemon.rs:131-212 | every step conserves commands, push chunks and pty output |
| DaemonLoop.RunsOk | crates/daemon/src/daemon.rs:131-226 | so does every run |
| DaemonLoop.PtyInputConserved | crates/daemon/src/daemon.rs:184-208 | the pty was typed one prefix of each dequeued chunk, and each connection's chunks are dequeued in its own order, none skipped |
| DaemonLoop.WholeChunksDelivered | crates/daemon/src/daemon.rs:201-203 | chunks that drained in time reached the pty whole |
| DaemonLoop.KillDelay | crates/daemon/src/daemon.rs:112-162 | a queued command is applied after the one write in flight and the commands ahead of it, and no push chunk is dequeued before |
| DaemonLoop.NeverBlockedWhileControlWaits | crates/daemon/src/daemon.rs:135-162 | while a command waits the loop can always take its next step |
| DaemonLoop.NothingDoneAfterLoop | crates/daemon/src/daemon.rs:175-176 | once the loop has been left, nothing queued is applied, read or dequeued any more |
| DaemonLoop.ControlBeforeAll | crates/daemon/src/daemon.rs:133-162 | when any output is read, client accepted or chunk dequeued, every command queued before has been applied |
| DaemonLoop.OutputBeforeOthers | crates/daemon/src/daemon.rs:140-177 | when any client is accepted or chunk dequeued, all output written before has been read |
| DaemonLoop.AcceptsBeforePushes | crates/daemon/src/daemon.rs:179-184 | when any push chunk is dequeued, every client that was waiting has been accepted |
| DaemonLoop.SignalLast | crates/daemon/src/daemon.rs:209-212 | a termination signal ends the loop only after every command, output byte and push chunk queued before it has been handled |
| DaemonLoop.NoSpinAfterHangUp | crates/daemon/src/daemon.rs:140-177 | after a hang-up no push chunk is dequeued and the iterations left are bounded by queued and arriving commands and unread output |
| DaemonLoop.NeverBlockedAfterHangUp | crates/daemon/src/daemon.rs:163-177 | and the loop always has something to do until it stops |
| DaemonLoop.AllOutputBeforeExit | crates/daemon/src/daemon.rs:163-225 | when the child's exit ended the loop, all it wrote was fanned out and logged, the end marker last |
| EventLoops.EventLoop.constructor | crates/daemon/src/daemon.rs:104-118 | the loop starts with empty queues and a fanout of 1024 chunks |
| EventLoops.EventLoop.ReadOutput | crates/daemon/src/daemon.rs:166-173 | the same chunk goes to the fanout, as one push, and to the log |
| EventLoops.EventLoop.WritePush | crates/daemon/src/daemon.rs:184-208 | the oldest chunk is dequeued and exactly the part that drains is typed, whatever arrives meanwhile |
| EventLoops.EventLoop.Iterate | crates/daemon/src/daemon.rs:131-212 | one pass of the select is the highest-priority ready branch, in the loop and in the fanout, with whatever arrives while it waits; only the push arm types, and exactly what drains |
| EventLoops.HappensExact | crates/daemon/src/daemon.rs:117-118 | what arrives while the loop waits is queued one after the other, as far as there is room |
| EventLoops.EventLoop.Run | crates/daemon/src/daemon.rs:131-212 | every tick with something ready is one pass, until one ends the loop; the whole is a run of the transition system |
| EventLoops.RunOnward | crates/daemon/src/daemon.rs:131-212 | the loop goes on tick by tick until a pass ends it |
| EventLoops.TickPasses | crates/daemon/src/daemon.rs:131-212 | there is a pass whenever a command, output, the hang-up, a client, a chunk or a signal waits |
| EventLoops.PassEffect | crates/daemon/src/daemon.rs:131-212 | what a pass does, by what is waiting: command, output, hang-up, client, chunk, signal, in this order |
| EventLoops.RunTypesWhole | crates/daemon/src/daemon.rs:201-203 | when every write drains, the pty is typed whole chunks in the order they were dequeued |
| EventLoops.EventLoop.Shutdown | crates/daemon/src/daemon.rs:217-225 | the end marker is the last thing sent to the log |
| Hubs.Hub.Push | crates/daemon/src/fanout.rs:42-47 | a push is one step of the fanout as all tasks see it |
| ClientTasks.Sender.Send | crates/daemon/src/daemon.rs:117-118 | a bounded queue: full makes the sender wait, closed makes it fail |
| ClientTasks.ClientTask.Subscribe | crates/daemon/src/daemon.rs:296-298 | snapshot and receiver are taken as one step |
| ClientTasks.ClientTask.WriteSome | crates/daemon/src/daemon.rs:299-300 | each part the socket takes is one step |
| ClientTasks.ClientTask.Join | crates/daemon/src/daemon.rs:301-303 | the new receiver replaces the old one only once the snapshot is out |
| ClientTasks.ClientTask.Detach | crates/daemon/src/daemon.rs:304-307 | the task gives up its receiver and writes nothing |
| ClientTasks.ClientTask.Receive | crates/daemon/src/daemon.rs:343-353 | the next chunk is to be written, or the lagged task ends |
| ClientTasks.ClientTask.Drop | crates/daemon/src/daemon.rs:299-301 | a task that ends gives up its receivers |
| ClientTasks.AfterStep | crates/daemon/src/daemon.rs:292-358 | a step changes the task's variables as the code does |
| ClientTasks.ClientTask.OnAttach | crates/daemon/src/daemon.rs:296-303 | an attach is a run of the fanout: subscribe, write, join, or the end of the task if the write fails |
| ClientTasks.ClientTask.OnReceive | crates/daemon/src/daemon.rs:343-355 | a wake-up is a run of the fanout: receive and write, or the end of the task on a lag or a failed write |
| ClientTasks.ClientTask.SendToLoop | crates/daemon/src/daemon.rs:308-335 | which message puts what on which queue, rows before columns and the signal as it is when it has a name, when it waits and when it fails |
| ClientTasks.ClientTask.OnItem | crates/daemon/src/daemon.rs:293-342 | what a message does to the loop and to the fanout, that a detach gives up the receiver, and that it waits, with nothing done, while its queue is full |
| ClientTasks.ClientTask.Act | crates/daemon/src/daemon.rs:292-358 | the task can take a step exactly when the transition system can |
| ClientTasks.SocketIsHistory | crates/daemon/src/fanout.rs:49-57 | a task's socket holds its attachments' bytes, each a prefix of what the attachment is entitled to |
| ClientTasks.RunTasks | crates/daemon/src/daemon.rs:282-358 | any number of tasks and the loop taking turns in any order run the transition system, step for step |
| Hytch.RunsProject | crates/daemon/src/daemon.rs:74-229 | a run of the whole daemon is a run of the event loop and a run of the fanout |
| Hytch.EnabledExact | crates/daemon/src/daemon.rs:131-212 | when the event loop, a client task, the network and the log writer can each take a step |
| Hytch.StepEffect | crates/daemon/src/daemon.rs:178-182 | what arrives joins the undecoded bytes, an accept adds a connection, the writer appends the next chunk |
| Hytch.LogDrains | crates/daemon/src/daemon.rs:265-269 | the log writer can always catch up with what it was sent |
| Hytch.RunsLinked | crates/daemon/src/daemon.rs:163-226 | on every run fanout history, loop output, connections and log stay linked |
| Hytch.ThreeViews | crates/daemon/src/daemon.rs:163-173 | at every moment scrollback, every client and the log are views of one output history |
| Hytch.LogIsOneRotation | crates/daemon/src/daemon.rs:214-225 | at every moment the file is one rotation of all it was given, if and only if no append starts it on a stray byte, and always if what it was given has no such byte |
| Hytch.LogAfterShutdown | crates/daemon/src/daemon.rs:214-225 | after shutdown, wherever output broke off, the log is the rotation of initial content, output and end marker; with room for the marker it starts between tokens and replays as all output does |
| Hytch.PushesArriveInOrder | crates/daemon/src/daemon.rs:308-312 | whatever encoded stream a connection sends, the loop takes a prefix of its pushed bytes, and all of them in the end; the pty is typed that when all writes drained |
| Hytch.TypedWhole | crates/daemon/src/daemon.rs:184-208 | with every write drained and one connection pushing, the pty was typed what the loop took |
| Hytch.KeystrokesEndToEnd | crates/client/src/attach.rs:114-132 | the loop takes, and the pty is typed, exactly what was typed before the first detach or suspend byte |
| Hytch.PushEndToEnd | crates/cli/src/commands.rs:91-122 | the loop takes, and the pty is typed, exactly standard input |
| Hytch.RunsAttachLinked | crates/daemon/src/daemon.rs:296-303 | each client's attachments are the attaches its connection sent |
| Hytch.ScreenEndToEnd | crates/client/src/attach.rs:133-149 | what an attached terminal shows is an unbroken stretch of the output from its attach on, and all of it in the end |
| Hytch.KillDelayEverywhere | crates/daemon/src/daemon.rs:112-162 | the bound on a kill's delay holds whatever clients, connections and the log do meanwhile |
| Hytch.KillEndToEnd | crates/daemon/src/daemon.rs:329-335 | a kill is handled after the frames ahead of it on its connection, once the control queue has room; then only the write in flight and at most 15 commands come before it, and the command applied is its signal, or SIGTERM when that has no name |
| Hytch.HandleExact | crates/daemon/src/daemon.rs:293-342 | a frame is handled exactly when its client is between writes and the queue it needs has room |
| Hytch.HandleEffect | crates/daemon/src/daemon.rs:293-342 | what handling each kind of frame does to the queues and to the client |
| Hytch.DetachEndToEnd | crates/daemon/src/daemon.rs:304-307 | once a detach frame is handled no output reaches the client until its connection sends another attach |
| Hytch.HandledInOrder | crates/daemon/src/daemon.rs:293-342 | a connection's frames are handled one by one in order |
| Hytch.KillStuckBehindPush | crates/daemon/src/daemon.rs:308-312 | behind a push, with the push queue full, nothing of a connection is handled until the loop takes a chunk |
| Ancestry.SplitUndoesJoin | crates/session/src/lib.rs:59-74 | splitting a joined chain gives the segments of both parts |
| Ancestry.ExtendAdds | crates/session/src/lib.rs:59-74 | extending any chain by any path adds exactly that path's segments |
| Ancestry.NestedSegments | crates/session/src/lib.rs:59-64 | a chain of colon-free paths splits back into them, leading empty ones aside |
| Ancestry.AncestryFaithful | crates/session/src/lib.rs:59-74 | the chain answers membership exactly if and only if no path holds a colon and no empty path comes only before all others |

## Left out

- Pty allocation, process spawn and exit status, ioctls, termios, signal masks, tracing and path handling: system calls; the pty is modelled by its unread output, its hang-up and how much of a write drains.
- Real time: the 500 ms write timeout is any prefix of the chunk draining; nothing is claimed of `kill`'s polling and escalation.
- tokio: `mpsc` is a bounded queue, `broadcast` bounded storage with a cursor per receiver, the framed reader a loop around the decoder; its cooperative budget and buffer reservation are not modelled.
- File errors and short reads in rotation, and a second writer (`hytch clear`) truncating the log meanwhile.
- `write_end_marker`: the daemon sends its marker through `append` instead.
- OSC strings and escapes with intermediate bytes: the code treats them as closed after two bytes, so the terminal model takes their text as plain output; ESC ESC and control characters inside a control sequence are not accepted.
- The exact set of named signals: numbers 1 to 31 count as named, others fall back to SIGTERM.
- The endless loop of `handle_client`: `ClientTasks` has one method per arm of its select and per stretch between awaits; which comes next is the schedule.
- ClientTasks.RunTasks: schedules the fanout side of the tasks; that pushes and commands interleave with it is in `Hytch`.
- That clients receive all output before the process exits, that SIGTERM is prompt, and that a cold log replay followed by a `skip_ring` attach has no gap: not promised by the code.
- Exit codes, session directories, name validation, `short_name`, log cap and character parsing: easy and independent of the above.
