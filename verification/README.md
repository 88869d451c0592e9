# Clondike: the ProxyFS stream protocol and process checkpoints

Clondike migrates processes between the nodes of a cluster. This project models two of
its parts and proves what they are for.

**ProxyFS.** A process that was migrated away keeps using the pipes of its home node: a
proxy file on the client node and a real file on the server node exchange bytes through
four circular buffers, one queue of messages in each direction and a socket. A sender
keeps what it sent until the receiver has acknowledged consuming it
(`write_buf_unconfirmed`). The receiver ignores how much its buffer accepted, so that
nothing is lost only because of a credit rule that no single function states. On top of
the stream lies the record layer of pipes (a length, then that many bytes), below it the
framing of messages.

**Checkpoints.** The open files and the memory of a process are written to an image with
a moving cursor and read back on another node, and after a remote fork the child's
proxied descriptors are reopened in place.

## How it is built

| modules | content |
|---|---|
| Bytes, CircBuf, Messages, Streams, PipeRecords, Files | little-endian integers, the ring buffer as a class over an array, messages, one direction of the stream with its accounting, printer and parser of records, both ends of a pipe as values with one function per operation |
| Protocol, Invariant, ClientSteps, ServerReceives, ServerPasses | the transition system of user, client thread, server loop and network with histories of all bytes; its invariant, preserved step by step |
| Runs, Calls, Progress, EarlyEof | the theorems about every run, what calls mean over runs, the absence of deadlock, and the one order that a reopen does not keep |
| StreamFile, RealFile, ProxyFile | the operations as the source has them, classes over ring buffers, each proved equal to the function that the transition system uses |
| Framing, WireFormat, Transport, Network | messages as bytes for every chunking, the proof that every message of every run fits, and the whole protocol over byte channels, simulated by the protocol over messages |
| Names | names and identifiers of proxied files |
| Image, VmAreas, FdTable, OpenFiles, CkptFiles, Checkpoint, ForkFiles | the checkpoint file, memory areas, descriptor tables, their records, the whole checkpoint and restart, the rewriting of descriptors after a fork |

## What is assumed of the surroundings

- The socket is first-in first-out and loses nothing while connected; a message header
  or its data is sent whole or not at all, so `send_start` is zero, the header size or the
  message size. Receives return any piece of what is there.
- A `vfs_write` of at most PIPE_BUF bytes to a pipe takes all or nothing; longer ones may
  be short. What a pipe, a socket and the other threads do is given by scripts, and every
  statement is for all scripts.
- One user thread per file; sections under a semaphore are atomic steps. A client sends
  any part of its unsent bytes in a step, which includes what the client loop does. The
  server loop receives, serves, flushes its buffers and only then sends, in this order.
- Sessions of one file do not overlap. The server would accept an open of a file that is
  still open (src/proxyfs/proxyfs_server.c:171), but a process that migrates closes its
  files before the other node is told to restart it
  (src/tcmi/task/tcmi_taskhelper.h:728-751, called at src/tcmi/task/tcmi_guesttask.c:158).
- Allocations, except that of the file cache, and copies from and to user space succeed.
  What the node of a restart answers is a parameter: which names it opens and as what,
  what a seek returns, which directories it finds, the largest descriptor table and the
  largest allocation. So is what it answers to the opens and seeks after a fork.
- The limit on descriptors is the one the image stores, cut to the node's. New descriptors
  stay below it, older ones need not. Setting limits, flushing the old program and mappings
  at fixed addresses succeed.
- Sizes are those of a 64-bit little-endian machine: headers of 32 bytes, pages of 4096.

## Where the code does not do what one would expect

The model follows the code in each of these.

- End of file can overtake data after a reopen. The mark is queued during the pass, the
  bytes kept from an earlier session only by the flush after it. `Runs.EofInOrder` gives
  the exact condition and `EarlyEof.ReopenLosesOrder` the whole family of states.
- The server never forgets that it met the end of the pipe, so no session that begins
  later is ever told (`Runs.NoSecondMark`, `EarlyEof.NeverToldAgain`).
- An open does not reset `write_buf_unconfirmed`; only the close of the session before
  does (`Runs.ReopenResends`).
- A blocking write of an empty buffer appends an empty record, is taken for a full pipe
  and starts again: `ProxyFile.File.Write` returns from it only interrupted.
- An interrupted blocking write reports only the interruption. `ProxyFile.File.Write`
  says when bytes are in the stream all the same, `ProxyFile.InterruptedWrite` is a case.
- A `vfs_read` error counts as end of file (`RealFile.File.ReadInput` gives the exact
  condition, `RealFile.File.ErrorEndsFile` every case).
- `kkc_sock_send_recv` returns only the error when one occurs after a part was
  transferred (`Framing.ErrorHidesBytes`), and does not return while the socket's calls
  return zero (`Framing.ZerosStall`).
- Identifiers have 16 bits for the pid and for the counter, so files collide when these
  agree modulo 65536 (`Names.NamesCollide`, `CkptFiles.StoredNamesDiffer`).
- Restoring a file compares the result of dup2 with the wanted descriptor, so that a
  record for -EBADF passes for success (`CkptFiles.AcceptedForNothing`). It compares the
  result of the seek with the wanted position in the same way, so that the position that
  reads as the error passes too (`CkptFiles.SeekOnRegular`, `CkptFiles.SeekOnTerminal`).
- Limits are applied before the files are restored. A process that lowered its limit below
  a descriptor it had open can be checkpointed but not restarted (`Checkpoint.Migrate`), and
  the rewriting of names after a fork fails for it (`ForkFiles.CloneFileNames`).
- The stored type of a file decides whether it is restored, but the file that is opened has
  the type of its name on the node: a pipe that was overtaken comes back as a character
  device (`CkptFiles.OvertakenKind`).
- A working directory whose path does not fit a page makes the checkpoint fail after
  everything before it was written (`Checkpoint.WriteCheckpoint`).
- Paths get a page less 1000 bytes, in a checkpoint and after a fork, so longer ones make
  these fail for any file (`Checkpoint.WriteCheckpoint`, `ForkFiles.CloneFileNames`); a
  checkpoint that fails there has already written what precedes the file.
- The documentation of `tcmi_ckpt_file_count` lists pipes as errors and that of the open
  file class says that seeking is omitted for character devices; the code accepts pipes
  and always seeks.

## Model

| member | source | states |
|---|---|---|
| `Runs.EveryRun` | src/proxyfs/proxyfs_server.c:130-147 | The invariant of the whole protocol (both streams, the record parser, which control messages are under way, end of file, closed files) holds after every run of user, client thread, server loop and network in any interleaving, for any chunking and any sessions |
| `Runs.StepKeeps` | src/proxyfs/proxyfs_task.c:284-347 | Each of the ten kinds of step preserves that invariant |
| `Runs.UpStream` | src/proxyfs/proxyfs_task.c:334-397 | In every reachable state the bytes ever put in the client's write buffer are exactly: consumed by the real file, then its read buffer, then data in flight, then the unsent tail; bytes consumed equal bytes confirmed plus acknowledgements in flight |
| `Runs.DownStream` | src/proxyfs/proxyfs_real_file.c:260-296 | The same from the real pipe to the user in every state with a session, counting the acknowledgement the user has not queued yet |
| `Runs.CreditSafety` | src/proxyfs/proxyfs_task.c:311-318 | In every run read buffer plus data in flight never exceeds write_buf_unconfirmed, which never exceeds the write buffer, which never exceeds 8192; so the unchecked circ_buf_write on MSG_WRITE drops nothing, no acknowledgement exceeds what was sent and no message meets a state that does not expect it |
| `Runs.PipeEndToEnd` | src/proxyfs/proxyfs_pipe_real_file.c:61-165 | In every run the bytes given to the real pipe are a prefix of the concatenated user payloads without any header byte, the vfs_writes of each finished record concatenate to it, and a record of 1 to PIPE_BUF bytes is exactly one vfs_write |
| `Runs.EmittedPrefix` | src/proxyfs/proxyfs_pipe_real_file.c:100-161 | Finished records and the part of the current one together are a prefix of the payloads |
| `Runs.AllConsumed` | src/proxyfs/proxyfs_file.c:58-61 | An empty write buffer at the client (ALL_WRITTEN) means that every record is in the real pipe, the server's read buffer is empty and its write_counter is zero |
| `Runs.Barrier` | src/proxyfs/proxyfs_proxy_file.c:279-286 | In every run, when close, fsync or ioctl may queue its request and for as long as the request is in the queue, every byte the user wrote has been given to the real pipe |
| `Runs.BarrierQueued` | src/proxyfs/proxyfs_proxy_file.c:317-333 | A close, fsync or ioctl request under way belongs to a user who waits for it with an empty write buffer |
| `Runs.ExactlyOnce` | src/proxyfs/proxyfs_real_file.c:155-175 | Over any number of sessions users together read a prefix of what came out of the pipe, and between sessions nothing counts as sent and the server holds exactly the rest |
| `Runs.SessionsContinue` | src/proxyfs/proxyfs_proxy_file.c:65-75 | What is read after any point of a run continues without gap or overlap what was read before it, whoever reads |
| `Runs.FreshSession` | src/proxyfs/proxyfs_server.c:166-176 | When an open from any peer is accepted, nothing of an earlier session is in flight and the next flush sends exactly the bytes that no user has read |
| `Runs.ReopenResends` | src/proxyfs/proxyfs_real_file.c:135-147 | An open leads to everything kept being sent again if and only if write_buf_unconfirmed is zero: open does not reset it, only the close before does |
| `Runs.EofAfterData` | src/proxyfs/proxyfs_server.c:310-315 | In the first session of every run, a client that has seen the end-of-file mark holds or has read all bytes of the pipe, no data follows a queued mark, and all bytes read are queued ahead of it |
| `Runs.EofInOrder` | src/proxyfs/proxyfs_server.c:130-147 | In any session a pass that finds the end of the pipe keeps the mark behind all data if and only if everything read before had been queued when the pass began |
| `Runs.NoSecondMark` | src/proxyfs/proxyfs_server.c:310-314 | In every run in which the server met the end of the pipe before a session begins, no user of that or a later session is ever told |
| `EarlyEof.ReopenLosesOrder` | src/proxyfs/proxyfs_server.c:137-145 | From every state between sessions with unread bytes, room and a requested read, a six-step run delivers the mark to the next user before any of the bytes |
| `EarlyEof.EofOvertakesData` | src/proxyfs/proxyfs_server.c:310-315 | Such a state is reachable: a concrete run from the start in which the second user sees end of file while the byte of the pipe is still on its way |
| `EarlyEof.NeverToldAgain` | src/proxyfs/proxyfs_server.c:310-314 | Such runs exist: a user reads to the end and leaves, and no continuation tells anybody again |
| `Calls.RemovedExactly` | src/proxyfs/proxyfs_server.c:220-233 | In every run, whenever no session is open, the server has given the file up if and only if some user closed it other than by exiting; it is marked closed only then |
| `Calls.CloseReturns` | src/proxyfs/proxyfs_server.c:290-300 | In every run a close for good returns to its user only when the file is off the server's list, and then every byte ever written has been given to the pipe |
| `Calls.RemovedForever` | src/proxyfs/proxyfs_server.c:166-180 | In every continuation of a run after that, no open succeeds, the server's state never changes and no byte is read or written |
| `Calls.ReadsOnRequest` | src/proxyfs/proxyfs_pipe_real_file.c:182-185 | In every run the server reads from the pipe, and meets its end, only after some user asked to read; once a request is answered it stays in force, for later sessions too |
| `Calls.Served` | src/proxyfs/proxyfs_server.c:156-264 | In every state of every run the server's next message is one it knows, and handling it gives exactly the answer and the change that it asks for |
| `Files.AnyPeer` | src/proxyfs/proxyfs_server.c:156-264 | A message of any peer to any file on the list: who is answered and how, and which marks change |
| `Calls.CallReturns` | src/proxyfs/proxyfs_client.c:379-397 | In every run a user's call goes on with the answer to that call and with nothing else |
| `Progress.ProgressStep` | src/proxyfs/proxyfs_pipe_real_file.c:100-103 | While anything the user wrote is unconfirmed, some step of client, server or network is enabled that decreases a measure of all queues and buffers |
| `Progress.Drain` | src/proxyfs/proxyfs_proxy_file.c:173-181 | From every state of every run a finite run of protocol steps alone empties the client's write buffer, so no blocked write, close, fsync or ioctl is stuck for lack of a possible step |
| `Progress.DrainDown` | src/proxyfs/proxyfs_task.c:334-397 | From every state with a session a finite run of protocol steps alone brings every byte the server has read from the real pipe and no user has read yet, in order and nothing else, into the client's read buffer |
| `Progress.RecordArrives` | src/proxyfs/proxyfs_pipe_real_file.c:100-103 | Whenever the server waits for the rest of an atomic record, the record fits the buffer and the missing bytes are in flight or unsent at the client |
| `Progress.TurnReady` | src/proxyfs/proxyfs_pipe_real_file.c:76-161 | A server that has received the whole stream and holds unread bytes can always take its next turn |
| `Invariant.OpenKeeps` | src/proxyfs/proxyfs_client.c:313-346 | Opening keeps the invariant |
| `Invariant.WriteKeeps` | src/proxyfs/proxyfs_pipe_proxy_file.c:46-75 | A user write, accepted or refused, keeps the invariant |
| `Invariant.ReadKeeps` | src/proxyfs/proxyfs_pipe_proxy_file.c:113-117 | A user read keeps the invariant |
| `Invariant.AckKeeps` | src/proxyfs/proxyfs_proxy_file.c:68-74 | Queueing the acknowledgement keeps the invariant |
| `Invariant.CallKeeps` | src/proxyfs/proxyfs_client.c:379-397 | Queueing a call whose barrier is met keeps the invariant |
| `Invariant.ClientSendKeeps` | src/proxyfs/proxyfs_task.c:355-397 | The client sending any part of its unsent bytes keeps the invariant |
| `ClientSteps.ClientReceiveKeeps` | src/proxyfs/proxyfs_client.c:197-305 | The client handling any message that can arrive keeps the invariant |
| `ServerReceives.ServerReceiveKeeps` | src/proxyfs/proxyfs_server.c:156-264 | The server handling any message that can arrive keeps the invariant |
| `ServerPasses.ServeKeeps` | src/proxyfs/proxyfs_server.c:271-320 | A pass over the file, with any sequence of parser turns and any input from the pipe, keeps the invariant |
| `ServerPasses.FlushKeeps` | src/proxyfs/proxyfs_task.c:334-347 | Sending the buffers, with any number of messages left in the socket queue, keeps the invariant |
| `ServerPasses.ChunksData` | src/proxyfs/proxyfs_task.c:373-395 | The messages made of the unsent bytes carry exactly these bytes, all but the last 4064 of them, the last at most as many and none empty |
| `Streams.FlowReset` | src/proxyfs/proxyfs_real_file.c:165-167 | When no acknowledgement is owed, forgetting what was sent leaves in the write buffer exactly the bytes nobody consumed |
| `PipeRecords.Accept` | src/proxyfs/proxyfs_pipe_proxy_file.c:54-70 | A write is refused if and only if fewer than 8 bytes are free or it has at most 4096 bytes and its record does not fit; then it waits for 8 bytes or for the whole record; otherwise one record enters, whole up to 4096 bytes, and as much as there is room for beyond that, never empty for a non-empty write |
| `PipeRecords.NextHeader` | src/proxyfs/proxyfs_pipe_real_file.c:76-99 | Between records the unread stream starts with the next record |
| `PipeRecords.NextPayload` | src/proxyfs/proxyfs_pipe_real_file.c:100-161 | Inside a record the unread stream starts with the rest of it |
| `PipeRecords.HeaderKeeps` | src/proxyfs/proxyfs_pipe_real_file.c:77-95 | Taking a length keeps the parser in step with the records written, an empty record included |
| `PipeRecords.EmitKeeps` | src/proxyfs/proxyfs_pipe_real_file.c:126-160 | A vfs_write, whole or short, keeps the parser in step with the records written |
| `PipeRecords.DoAllKeeps` | src/proxyfs/proxyfs_pipe_real_file.c:61-165 | Any sequence of turns of the restart_write loop keeps the parser in step with the records written |
| `PipeRecords.DoAllMoves` | src/proxyfs/proxyfs_pipe_real_file.c:61-165 | A pass moves bytes from the front of the read buffer to the consumed side, in order, and does nothing else to them |
| `CircBuf.DropOldest` | src/proxyfs/buffer.h:168-176 | Moving the read pointer, wrapped or not, drops the oldest bytes, also from a full buffer |
| `CircBuf.CommitCopied` | src/proxyfs/buffer.h:182-190 | Moving the write pointer over copied bytes queues them and sets the full flag exactly when the pointers meet |
| `CircBuf.CopyIsFree` | src/proxyfs/buffer.c:52-58 | Filling the free run leaves the queued bytes alone |
| `CircBuf.Ring.constructor` | src/proxyfs/buffer.h:81-95 | A new buffer is an empty queue |
| `CircBuf.Ring.ReadSize` | src/proxyfs/buffer.h:117-124 | All queued bytes, or those up to the end of the block |
| `CircBuf.Ring.WriteSize` | src/proxyfs/buffer.h:142-152 | All free space, or that up to the end of the block |
| `CircBuf.Ring.FreeSpace` | src/proxyfs/buffer.h:197-207 | The capacity minus the length of the queue, in each pointer order and with either flag |
| `CircBuf.Ring.Count` | src/proxyfs/buffer.h:214-217 | The length of the queue |
| `CircBuf.Ring.AdjustRead` | src/proxyfs/buffer.h:168-176 | Removes the oldest bytes of the queue |
| `CircBuf.Ring.AdjustWrite` | src/proxyfs/buffer.h:182-190 | Appends to the queue what lies behind it in the block |
| `CircBuf.Ring.Write` | src/proxyfs/buffer.c:46-63 | Appends the first min(count, free) bytes to the queue, across the wrap, and returns their number |
| `CircBuf.Ring.Read` | src/proxyfs/buffer.c:103-124 | Removes and returns the oldest min(count, size) bytes, across the wrap |
| `CircBuf.Ring.LookAt` | src/proxyfs/buffer.c:168-181 | Returns the bytes from the offset on and leaves pointers, flag and queue as they were, also when full or when the offset is the count |
| `StreamFile.Base.WriteFromPeer` | src/proxyfs/proxyfs_real_file.c:260-267 | Appends what fits to the read buffer and touches nothing else |
| `StreamFile.Base.ReadToPeer` | src/proxyfs/proxyfs_proxy_file.c:109-120 | Returns the oldest unsent bytes and counts them as sent, keeping them in the buffer |
| `StreamFile.Base.SubmitReadToPeer` | src/proxyfs/proxyfs_proxy_file.c:128-138 | Drops the confirmed bytes; the unsent ones stay unsent |
| `StreamFile.Base.SendWriteBuf` | src/proxyfs/proxyfs_task.c:355-401 | Makes at most one message of the oldest unsent bytes and asks for another turn exactly when bytes are left |
| `StreamFile.Base.SendBuffers` | src/proxyfs/proxyfs_task.c:340-346 | The loop ends with write_buf_unconfirmed equal to the count and has queued the unsent bytes as the specified sequence of messages |
| `RealFile.File.TakeLength` | src/proxyfs/proxyfs_pipe_real_file.c:76-99 | Takes a length exactly when all its bytes are there and otherwise consumes nothing |
| `RealFile.File.Oldest` | src/proxyfs/proxyfs_pipe_real_file.c:105-124 | The bytes handed to an atomic vfs_write are the oldest of the queue, whether they wrap or not |
| `RealFile.File.EmitUpTo` | src/proxyfs/proxyfs_pipe_real_file.c:112-160 | One vfs_write: what the pipe took leaves the buffer and the counter and is logged, nothing else changes |
| `RealFile.File.EmitTurn` | src/proxyfs/proxyfs_pipe_real_file.c:100-161 | Inside a record a turn offers the pipe all of an atomic one, or nothing if it is not there yet, and of another what lies in one run; what the pipe took is removed and counted |
| `RealFile.File.WriteTurn` | src/proxyfs/proxyfs_pipe_real_file.c:61-162 | One turn is one legal turn of the specification, or nothing because the pipe refused or the buffer lacks bytes |
| `RealFile.File.WritePass` | src/proxyfs/proxyfs_pipe_real_file.c:50-166 | The restart_write loop ends, performs a legal sequence of turns, returns the number of bytes removed from the buffer, and stops only when the pipe refused or no turn is possible |
| `RealFile.File.ReadRun` | src/proxyfs/proxyfs_pipe_real_file.c:201-215 | What one vfs_read returned is appended to the write buffer, an error as nothing |
| `RealFile.File.ReadMore` | src/proxyfs/proxyfs_pipe_real_file.c:218-234 | A second read only with room left and after another poll |
| `RealFile.File.ReadPass` | src/proxyfs/proxyfs_pipe_real_file.c:173-244 | Everything vfs_read returned is appended in order and counted; the first read asks for what is free up to the end of the block, a second one, for all the rest, is made exactly when the first got all it asked for, more is free and the poll agrees; a pass that read something stops only with a full buffer, a pipe that is not ready or a read that gave less than it was asked for; zero exactly when the first read returned nothing or an error; negative exactly without a read request, without room or when the poll refused |
| `RealFile.File.ReadInput` | src/proxyfs/proxyfs_server.c:309-315 | The mark is sent, once and to a connected peer, exactly when the first read of the pass returned nothing or an error |
| `RealFile.File.ErrorEndsFile` | src/proxyfs/proxyfs_pipe_real_file.c:208-243 | For every file about to read: a vfs_read error ends the file for the peer, and every buffer is as before |
| `RealFile.File.HandleMsg` | src/proxyfs/proxyfs_server.c:156-264 | For any message from any peer the file and the replies are those that the theorems about runs speak of; the file counts as closed for good from the first close that is not an exit on, and as asked for from the first read request on |
| `RealFile.File.ServePass` | src/proxyfs/proxyfs_server.c:281-315 | One pass of the server loop is one legal pass of the transition system with its acknowledgement; the file leaves the list exactly if it is closed for good and its read buffer is empty |
| `RealFile.File.SendBuffers` | src/proxyfs/proxyfs_task.c:365-397 | Without a peer nothing is sent; with one, the flush of the protocol |
| `ProxyFile.File.WriteUser` | src/proxyfs/proxyfs_pipe_proxy_file.c:46-75 | Appends one record or nothing, and returns its length or the negated space to wait for |
| `ProxyFile.File.ReadUser` | src/proxyfs/proxyfs_proxy_file.c:65-75 | The bytes returned are the oldest, and the acknowledgement is for exactly their number |
| `ProxyFile.File.WriteFromPeer` | src/proxyfs/proxyfs_proxy_file.c:84-99 | An empty message sets end of file and changes no buffer; data is appended |
| `ProxyFile.File.WaitForSpace` | src/proxyfs/proxyfs_proxy_file.c:173-181 | Returns with at least the space asked for, at once if it is there, or interrupted with less |
| `ProxyFile.File.Write` | src/proxyfs/proxyfs_fs.c:272-347 | For every interleaving of acknowledgements: the records appended concatenate to a prefix of the buffer; a positive result of a blocking write is the whole request, of a non-blocking one exactly one record, all of the buffer or all there is room for; up to PIPE_BUF bytes go in as one record; a non-blocking write fails, and appends nothing, only when 8 bytes or, up to 4096 bytes, the whole record do not fit, and without other threads exactly then; a blocking one fails only when interrupted while the rest does not fit in this sense, and if there was room for a record when it began, it has then left bytes in the stream exactly for buffers longer than PIPE_BUF |
| `ProxyFile.InterruptedWrite` | src/proxyfs/proxyfs_fs.c:320-340 | A blocking write of 8193 bytes into an empty buffer that is interrupted reports -ERESTARTSYS with 8188 bytes in the stream |
| `Framing.ParseEncode` | src/proxyfs/proxyfs_msg.h:123-131 | Encoding a message of legal size and parsing it gives the message and its size |
| `Framing.PrefixSize` | src/proxyfs/proxyfs_peer.c:168-169 | Any prefix that holds the header tells the size of the whole message |
| `Framing.BufIsPrefix` | src/proxyfs/proxyfs_peer.c:149-192 | The receive buffer is always a prefix of the next message and complete exactly when it equals it |
| `Framing.NextMessage` | src/proxyfs/proxyfs_peer.h:126-153 | A complete buffer is the next message, and clearing it leaves the receiver before the one after |
| `Framing.Transfer` | src/kkc/kkc_sock.c:264-280 | For every series of results of the socket: the bytes moved are the first ones, done exactly when all are moved, failed exactly at the first error before that, and otherwise it has not returned |
| `Framing.ZerosStall` | src/kkc/kkc_sock.c:271-277 | Calls that return zero, however many, never let the transfer return |
| `Framing.Receiver.RealRecv` | src/proxyfs/proxyfs_peer.c:149-192 | For every chunking: recv_start stays within MSG_MAX_SIZE and within the current message; a complete message returns 1; a 1 without a complete message happens only inside a header; no byte is lost |
| `Framing.Receiver.GetMsg` | src/proxyfs/proxyfs_peer.h:144-153 | For any buffer content: a message exactly if the buffer is as long as the header says; in a stream of messages that is exactly a complete next message |
| `Framing.Receiver.ClearMsg` | src/proxyfs/proxyfs_peer.h:126-138 | For any buffer content: refuses, and changes nothing, unless the buffer is as long as the header says |
| `Framing.Receiver.RecvPeer` | src/proxyfs/proxyfs_task.c:222-241 | For every chunking the messages handled are the next ones sent, each once and in order, and the loop ends; if the socket gives what it has, no complete message is left |
| `Framing.Sender.SendFirst` | src/proxyfs/proxyfs_msg.c:151-188 | Bytes on the wire followed by bytes not sent never change, whichever part the socket refused |
| `Framing.Sender.RealSend` | src/proxyfs/proxyfs_peer.c:116-142 | Messages leave the queue from the front as their bytes enter the wire, all of them if the socket never blocks |
| `Framing.Link.SendMsg` | src/proxyfs/proxyfs_peer.h:159-166 | Queueing keeps the messages handled a prefix of those queued |
| `Framing.Link.Send` | src/proxyfs/proxyfs_peer.c:116-142 | Sending keeps the messages handled a prefix of those queued |
| `Framing.Link.Receive` | src/proxyfs/proxyfs_task.c:216-242 | Receiving keeps the messages handled a prefix of those queued, and handles all of them once everything is sent and delivered |
| `WireFormat.WireRoundTrip` | src/proxyfs/proxyfs_msg.h:82-113 | Every message of the protocol survives its number and data encoding, for every file identifier |
| `WireFormat.HandledInOrder` | src/proxyfs/proxyfs_task.c:293-326 | A prefix of the raw messages decodes to a prefix of the protocol messages |
| `Transport.MessagesFit` | src/proxyfs/proxyfs_task.c:377-380 | Every message queued in any run has a legal size and arrives as itself |
| `Network.EveryNetRun` | src/proxyfs/proxyfs_task.c:216-256 | The whole protocol over byte channels: whatever the pieces in which bytes are sent and arrive, every state is that of a run of the protocol over messages, and the bytes under way are exactly its messages |
| `Network.NetStepSimulates` | src/proxyfs/proxyfs_peer.c:149-192 | A step over bytes is one step of the protocol, with the message it handles the first of the queue, or none when only bytes move |
| `Network.BytesEndToEnd` | src/proxyfs/proxyfs_server.c:130-147 | Over bytes too the real pipe is given a prefix of what users wrote, atomic records in one write, and users read a prefix of what came out of the pipe |
| `Names.ScanFileName` | src/proxyfs/proxyfs_fs.c:163-164 | Scanning a printed name gives back the pid and the number |
| `Names.PrintDecimal` | src/proxyfs/proxyfs_helper.h:39-41 | Numbers in names are decimal, without leading zeros |
| `Names.IdentRoundTrip` | src/proxyfs/proxyfs_file.c:76-89 | Encoding and decoding an identifier are inverse; the pid is in the high and the number in the low 16 bits |
| `Names.NameAgrees` | src/proxyfs/proxyfs_fs.c:163-168 | For every pid, looking up the printed name gives the identifier under which the server keeps the file |
| `Names.OwnerKnown` | src/proxyfs/proxyfs_file.h:52-57 | The owner's pid can be read off the identifier if and only if it is below 65536 |
| `Names.NamesCollide` | src/proxyfs/proxyfs_file.c:76-79 | Two names denote one file if and only if the numbers agree and the pids agree modulo 65536 |
| `Names.AlterAgrees` | src/proxyfs/proxyfs_helper.h:52-69 | Altering a name for a child gives the name of the duplicate the server made for it, or says that nothing changes |
| `Image.File.Write` | src/tcmi/ckpt/tcmi_ckpt.h:194-222 | Appends at the cursor, with any hole before it read as zeros |
| `Image.File.Read` | src/tcmi/ckpt/tcmi_ckpt.h:233-237 | All the bytes asked for at the cursor, or an error |
| `Image.File.SeekForward` | src/tcmi/ckpt/tcmi_ckpt.h:251-254 | The skipped bytes read as zeros once something is written behind them |
| `Image.File.PageAlign` | src/tcmi/ckpt/tcmi_ckpt.h:295-298 | The cursor moves to the next page boundary, by less than a page |
| `Image.Aligned` | src/tcmi/ckpt/tcmi_ckpt.h:295-298 | Rounding up by the page mask adds exactly the gap to the next boundary |
| `VmAreas.HdrRoundTrip` | src/tcmi/ckpt/tcmi_ckpt_vm_area.h:69-83 | Decoding an encoded area header gives the header |
| `VmAreas.WriteArea` | src/tcmi/ckpt/tcmi_ckpt_vm_area.c:52-68 | Appends the record of the area: light by name only if asked for, not writable and file-backed; heavy behind the alignment gap; fails, and writes nothing, exactly if the name of a light area does not fit a page |
| `VmAreas.WritePages` | src/tcmi/ckpt/tcmi_ckpt_vm_area.c:213-239 | Every page takes its place, a page that is not there as zeros |
| `VmAreas.WriteAreas` | src/tcmi/ckpt/tcmi_ckpt.c:243-267 | Appends the records of all areas, each aligned relative to where it starts, up to the first that fails |
| `VmAreas.Space.MapImage` | src/tcmi/ckpt/tcmi_ckpt.h:270-286 | From a page boundary of the file: maps the run of pages at the cursor and moves the cursor behind it |
| `VmAreas.Space.StackFixup` | src/tcmi/ckpt/tcmi_ckpt_vm_area.c:422-476 | The lowest page becomes an anonymous growing page with the stored content; fails exactly when the page is not there |
| `VmAreas.Space.ReadHeavy` | src/tcmi/ckpt/tcmi_ckpt_vm_area.c:337-385 | The cursor ends where the writer's did and every page of the area shows what was stored, also for a stack and for a stack of one page |
| `VmAreas.Space.ReadLight` | src/tcmi/ckpt/tcmi_ckpt_vm_area.c:262-320 | Succeeds exactly if the file can be opened, and then every page of the area shows what EveryPageRestored says of a light area: the page of the file at the area's own offset |
| `VmAreas.Space.ReadArea` | src/tcmi/ckpt/tcmi_ckpt_vm_area.c:80-105 | Reading the record that was written at any offset restores the area and ends at the record's end, unless the file of a light area cannot be opened |
| `VmAreas.Space.ReadAreas` | src/tcmi/ckpt/tcmi_ckpt.c:275-287 | For any list of areas the reader's cursor meets every record boundary and the address space is the overlay of the areas; fails exactly if the file of a light area cannot be opened |
| `VmAreas.EveryPageRestored` | src/tcmi/ckpt/tcmi_ckpt_vm_area.c:337-385 | For areas that do not overlap every page of every area is back: with its own content, zeros where it had none, if everything was to be stored, no file backs the area or it is writable, and otherwise as the page of the mapped file that it showed; with the area's protection, and the lowest page of a stack growing down |
| `VmAreas.OverlayElsewhere` | src/tcmi/ckpt/tcmi_ckpt.c:275-287 | Pages outside the areas keep what they showed |
| `VmAreas.StackWhole` | src/tcmi/ckpt/tcmi_ckpt_vm_area.c:353-373 | The split of a stack into its first page and the rest gives the same address space as the whole area |
| `VmAreas.PlainWhole` | src/tcmi/ckpt/tcmi_ckpt_vm_area.c:368-373 | An area that is no stack comes back as one run |
| `FdTable.Process.FindFree` | src/tcmi/ckpt/tcmi_ckpt_openfile.c:327-330 | The lowest descriptor that is not open |
| `FdTable.Process.Place` | src/tcmi/ckpt/tcmi_ckpt_openfile.c:350-358 | The comparison with the result of dup2 accepts exactly the descriptor that open gave, targets below the limit, and -EBADF |
| `OpenFiles.TableRoundTrip` | src/tcmi/ckpt/tcmi_ckpt.c:194-233 | Applying the records of any table to any table brings back every descriptor with the file its record describes, and two descriptors share a file if and only if they did; the set of descriptors is the original one if and only if nothing else was open before |
| `OpenFiles.RestoreBelow` | src/tcmi/ckpt/tcmi_ckpt_openfile.c:87-115 | The same after every prefix of the records, with the descriptors not reached yet untouched |
| `CkptFiles.ParseEncoded` | src/tcmi/ckpt/tcmi_ckpt_openfile.c:87-115 | A record that was written is the record that is read, wherever it lies in the image |
| `CkptFiles.ReplayEncoded` | src/tcmi/ckpt/tcmi_ckpt.c:223-233 | Reading any list of written records has the effect of each of them in turn and ends at their end, or fails where an effect does |
| `CkptFiles.EffectRecords` | src/tcmi/ckpt/tcmi_ckpt.c:194-233 | The records of any table, restored where none of its descriptors is open, restore all of it, each file as the node opens it, if every descriptor is below the limit, every name can be opened and every seek returns the position asked for, and fail otherwise |
| `CkptFiles.ReadNew` | src/tcmi/ckpt/tcmi_ckpt_openfile.c:293-376 | For any image: succeeds exactly if the record can be read whole and restoring it has an effect, and the table is that effect; the seek counts as successful when its result equals the stored position, whatever the result means; the numbers -EBADF and -1 pass for success |
| `CkptFiles.ReadDup` | src/tcmi/ckpt/tcmi_ckpt_openfile.c:256-277 | For any image: succeeds exactly if the record is whole and either names an open descriptor and a target below the limit, which becomes its duplicate, or the target -EBADF, and then nothing changes |
| `CkptFiles.ReadRec` | src/tcmi/ckpt/tcmi_ckpt_openfile.c:87-115 | For any image: a record of an unknown type is refused, any other has exactly its effect |
| `CkptFiles.ReadFiles` | src/tcmi/ckpt/tcmi_ckpt.c:223-233 | For any image and count: succeeds exactly if every record has an effect on the table the earlier ones left, and the table is the last of these; the limit is that of the process |
| `CkptFiles.NewExactly` | src/tcmi/ckpt/tcmi_ckpt_openfile.c:324-358 | For any full record: of the four types it is restored if and only if its name is opened with its flags and mode, the seek returns its position, a descriptor is free and its number is below the limit or -9, and then the number refers to the file as opened; of other types it passes exactly for -9 and -1 and changes nothing |
| `CkptFiles.DupExactly` | src/tcmi/ckpt/tcmi_ckpt_openfile.c:256-277 | A short record passes if and only if its number is -9, and then nothing changes, or its source is open and the number below the limit or the same, and then it refers to the source's file |
| `CkptFiles.OpenRestored` | src/tcmi/ckpt/tcmi_ckpt_openfile.c:324-358 | Open, seek, dup2 and close together have exactly the effect of the record, and fail exactly if there is none: on success the file is at the wanted descriptor with its position, no temporary descriptor survives and no other descriptor changes |
| `CkptFiles.SeekOnRegular` | src/tcmi/ckpt/tcmi_ckpt_openfile.c:331-335 | On a file that takes every position that is not negative and refuses the others with -EINVAL: a record is restored at its position or refused, except that the position which reads as -EINVAL is accepted and leaves the file at its start |
| `CkptFiles.SeekOnTerminal` | src/tcmi/ckpt/tcmi_ckpt_openfile.c:331-335 | On a file that cannot be positioned the only record accepted is the one whose position reads as -ESPIPE |
| `CkptFiles.LandingKeeps` | src/tcmi/ckpt/tcmi_ckpt_openfile.c:324-334 | A restored file has the name, the position and the flags it was stored with, and the mode and type that the node's open of that name gives |
| `CkptFiles.OvertakenKind` | src/proxyfs/proxyfs_fs.c:179-181 | A pipe or device that was overtaken arrives as a character device, whatever it was before |
| `CkptFiles.AcceptedForNothing` | src/tcmi/ckpt/tcmi_ckpt_openfile.c:266-271 | Two images, a short record for -EBADF and a socket at -1, that are read with success and restore nothing |
| `CkptFiles.RecordsFit` | src/tcmi/ckpt/tcmi_ckpt_openfile.c:204-234 | Every field of every record of a table whose files and names fit does fit its width, so that no record is malformed |
| `CkptFiles.FdCache.Add` | src/tcmi/ckpt/tcmi_fdcache.h:150-165 | A full cache refuses and stays as it is |
| `CkptFiles.FdCache.Lookup` | src/tcmi/ckpt/tcmi_fdcache.h:174-190 | A descriptor cached for the file, or an error exactly if there is none |
| `CkptFiles.CacheAnswers` | src/tcmi/ckpt/tcmi_ckpt_openfile.c:65-70 | The cache answers with the first descriptor of the file, and has no answer exactly for that first descriptor |
| `CkptFiles.CacheSize` | src/tcmi/ckpt/tcmi_fdcache.h:76-87 | A cache as large as the number of open files is never full when one is added |
| `CkptFiles.WriteNew` | src/tcmi/ckpt/tcmi_ckpt_openfile.c:170-245 | Succeeds exactly if the path fits the buffer of d_path and a file that needs it can be overtaken; then the full record carries the file's fields and its path or the proxy name of a fresh identifier, and the file is cached; otherwise only the type of the record was written |
| `CkptFiles.WriteDup` | src/tcmi/ckpt/tcmi_ckpt_openfile.c:133-155 | The short record names both descriptors |
| `CkptFiles.WriteFile` | src/tcmi/ckpt/tcmi_ckpt_openfile.c:60-73 | A descriptor's record is full exactly for the first descriptor of its file, and only such a record can fail; every file has the name of its own identifier |
| `CkptFiles.WriteFiles` | src/tcmi/ckpt/tcmi_ckpt.c:194-215 | Succeeds exactly if every file can be written; the image gains the records of all descriptors in order, or of those before the first that fails and the type of its record; counter values given out are distinct |
| `CkptFiles.StoredNamesDiffer` | src/proxyfs/proxyfs_server.c:409-412 | Two special files are stored under different names if and only if their counter values differ modulo 65536, hence always in a checkpoint that gives out at most 65536 |
| `CkptFiles.StoredName` | src/tcmi/ckpt/tcmi_ckpt_openfile.c:204-222 | A file is stored under its own path, except that a pipe or device of a migrating process, not proxied yet and not /dev/null, is stored as /mnt/proxy/pid-number with the number modulo 65536 |
| `CkptFiles.CountAll` | src/tcmi/ckpt/tcmi_ckpt.c:344-372 | The count in the header is the number of open descriptors |
| `Checkpoint.CkptHdrFields` | src/tcmi/ckpt/tcmi_ckpt.h:69-84 | Magic, counts and the non-preemptive flag are read where they were written |
| `Checkpoint.KeptAreas` | src/tcmi/ckpt/tcmi_ckpt.c:309-328 | Exactly the areas other than the one at 0xffffe000 of a 32-bit process are kept, and it is an error exactly if one of them is shared, a device or special memory (bits 3, 14 and 19 of its flags) |
| `Checkpoint.KeptExactly` | src/arch/x86_64/vma.h:5-13 | An area is kept if and only if it is not the page at 0xffffe000 of a 32-bit process; all areas of a 64-bit process are kept, in their order |
| `Checkpoint.KeptAround` | src/arch/x86_64/vma.h:5-13 | Of a 32-bit process with that page all other areas are kept, in their order |
| `Checkpoint.CountFiles` | src/tcmi/ckpt/tcmi_ckpt.c:344-372 | An error exactly if some open file has an unsupported type, the number of open files otherwise |
| `Checkpoint.WriteCheckpoint` | src/tcmi/ckpt/tcmi_ckptcom.c:74-160 | Succeeds if and only if every file and area has a supported type, the file cache can be allocated, every path and the working directory fit, and every file that needs it can be overtaken; then the image is header, limits, files, memory descriptor, areas, registers, thread-local storage, working directory, signals and parameters in this order; otherwise it holds nothing, or exactly what precedes the first file, the first area or the directory that fails |
| `Checkpoint.AdmissibleExactly` | src/tcmi/ckpt/tcmi_ckpt.c:309-372 | The processes of which a checkpoint can be made, in terms of the process: 16 bytes of cache for each descriptor, a directory below 4096 bytes, for each file one of four types, a path below 3096 bytes and, for a pipe or device of a migrating process that is neither proxied nor /dev/null, a server that can overtake it, and for each kept area private plain memory and a file name below a page if it is stored by name |
| `Checkpoint.WholeLayout` | src/tcmi/ckpt/tcmi_ckptcom.c:94-150 | The sections of an image in their order, with the lengths and terminators between them |
| `Checkpoint.WriteRest` | src/tcmi/ckpt/tcmi_ckpt_fsstruct.h:16-55 | Appends the sections behind the areas; fails, after the first two, exactly if the path of the working directory does not fit a page |
| `Checkpoint.Restart` | src/tcmi/ckpt/tcmi_ckptcom.c:191-269 | For any file up to its memory areas: succeeds exactly if the magic is right, a cache for the announced number of files can be allocated, limits, every file record and the memory descriptor can be read, and light areas, working directory and program are found; the limit is the smaller of the stored one and the node's, the table is what the records build under it in a table from which close-on-exec descriptors and descriptor 0 are gone, the memory is the areas and nothing from before; without the magic or the cache nothing changes |
| `Checkpoint.NegativeCount` | src/tcmi/ckpt/tcmi_ckpt.h:354-358 | Every image that announces a negative number of files is refused before anything changes |
| `Checkpoint.ReadRest` | src/tcmi/ckpt/tcmi_ckpt_fsstruct.h:69-110 | Registers, thread-local storage, directory, signals and parameters are read where they were written; succeeds exactly if the directory is found and, for a non-preemptive checkpoint, the program starts |
| `Checkpoint.OpeningOfWhole` | src/tcmi/ckpt/tcmi_ckptcom.c:216-247 | The image of a checkpoint, read from its start, yields the effect of its records under the limit it stores, and the cursor where the areas begin |
| `Checkpoint.OpeningArrives` | src/tcmi/ckpt/tcmi_ckptcom.c:216-247 | The files of a checkpoint all arrive, with their sharing, exactly if each of them can be restored there under the process's own limit and the cache can be allocated |
| `Checkpoint.RecordsReadable` | src/tcmi/ckpt/tcmi_ckpt_openfile.c:204-234 | The records of every process that can be written, proxy names included, fit their fields and are as many as the descriptors |
| `Checkpoint.Migrate` | src/tcmi/ckpt/tcmi_ckptcom.c:74-269 | Checkpoint and restart compose: the restarted process has the same descriptors with files of the stored name, position and flags, shared in the same way, the same working directory and its own limit cut to the node's; every page of every area, if these do not overlap, is back as EveryPageRestored says, except the vsyscall page of a 32-bit process, and there is no other page; it succeeds exactly if a checkpoint can be made and the node opens every stored name, takes every position and finds the directory, with every descriptor below that limit; if no checkpoint can be made nothing changes there |
| `Checkpoint.ArrivesExactly` | src/tcmi/ckpt/tcmi_ckptcom.c:216-269 | What the node must answer for a migration to succeed: room for the cache, every descriptor below the soft limit in the image and the node's bound, every stored name opened with the file's flags and mode and positioned, the directory found, the file of every area stored by name opened |
| `Checkpoint.BoundExactly` | src/tcmi/ckpt/tcmi_ckpt_resources.h:60-74 | The limit on descriptors is the soft limit of resource 7 of the sixteen stored pairs, or the node's bound if that is smaller |
| `ForkFiles.ResolveDuplicates` | src/proxyfs/proxyfs_helper.h:75-96 | Exactly the later descriptors of the old file now refer to the new one; fails exactly if one of them is not below the limit; descriptors of other files are untouched either way |
| `ForkFiles.Reopen` | src/proxyfs/proxyfs_helper.h:161-192 | All later descriptors of the file move to the reopened one at the same numbers, with its position; succeeds exactly if the open does, the seek returns the position and every descriptor of the file is below the limit; a refused open closes the descriptor and does nothing else; other files are untouched on every outcome |
| `ForkFiles.CloneFileNames` | src/proxyfs/proxyfs_helper.h:112-200 | Succeeds if and only if every descriptor, proxied or not, has a path that fits, and at the first descriptor of every file of another owner the open succeeds, the seek returns the position and all its descriptors are below the limit; then every such file was renewed once. A failure leaves everything below the first descriptor that fails this renewed, and at that one nothing or, for a refused open, the descriptor closed; descriptors that are not proxied are untouched on every outcome |
| `ForkFiles.RenewOk` | src/proxyfs/proxyfs_helper.h:161-192 | Renewing a file at its first descriptor preserves who shares with whom |
| `ForkFiles.SkipOk` | src/proxyfs/proxyfs_helper.h:153-154 | A descriptor whose name already carries the owner is a duplicate done before or needs nothing |
| `ForkFiles.ClonedMeans` | src/proxyfs/proxyfs_helper.h:139-193 | Every descriptor whose path is under /mnt/proxy now has the path with the new owner's pid and its old number, its position and flags; sharing is as before; all others are as they were |

## Left out

- Peer death, reconnection, reference counts and failed allocations.
- Real files for terminals and generic devices, and any claim about their end of file.
- The return value of a blocking user read at end of file; end of file is stated for queues and buffers.
- End of file after a reopen beyond the exact condition for one pass and the family of counterexamples.
- Several files on one connection: the protocol is the projection to one file, which is sound because every message names its file.
- Duplication of a real file on the server (its buffers start empty) beyond the identifier it gets.
- proxyfs_server_release_all, by which the last shadow task closes a file without any message.
- The lists try_open, try_open_send and files of the client; their effect is the phase of the session.
- A header sent in parts, whose offset the source computes in units of the message structure.
- The argument sizes of ioctl and the search in the ioctl table; requests and results are opaque bytes of legal size.
- User copies that fail in the middle (the user variants of the buffer functions are the plain ones here).
- Framing.Receiver.RealRecv: assumes bytes that senders produced; for a wrong magic the source asks the socket for a negative number of bytes, which is not modelled.
- Framing.Receiver.RecvPeer: assumes bytes that senders produced.
- RealFile.File.HandleMsg: assumes an acknowledgement within what is unconfirmed, as the buffer demands; that no run breaks this is part of Runs.CreditSafety.
- Runs.FreshSession: sessions that overlap, see the assumptions; for a single open in any state of the file Runs.ReopenResends says what is sent again.
- VmAreas.Space.ReadHeavy: assumes the pages of a written area; the source does not check addresses or lengths beyond one page, so what the kernel makes of other images is not modelled.
- VmAreas.Space.ReadLight: assumes the record of a written area; the source does not bound the length of the path.
- VmAreas.Space.ReadArea: assumes the record of a written area.
- VmAreas.Space.ReadAreas: assumes the records of written areas.
- Checkpoint.Restart: where the memory areas begin, the image must hold areas and sections that a checkpoint wrote. Setting the registers, thread-local storage, signals and memory descriptor from their bytes is not modelled.
- Checkpoint.WriteCheckpoint: limits, memory descriptor, registers, thread-local storage and signals are given as the bytes that are stored; after a directory that does not fit the source frees an error pointer, which is not modelled.
- Checkpoint.ReadRest: assumes the sections that a checkpoint wrote; the source does not bound the length of the directory.
- CkptFiles.ReadNew: a stored path is all its bytes but the last; for a path of no bytes or without its terminator the source reads on in an uninitialised page.
- CkptFiles.WriteNew: after a failed overtake the source leaves the semaphore of the server's file list taken; what the server does then is not modelled.
- Names.AlterAgrees: only names that create_proxyfs_name makes; for other names under the mount point the source reads uninitialised variables.
- ForkFiles.CloneFileNames: proxied files have names that create_proxyfs_name makes, as in Names.AlterAgrees, and the address of a closed file is not reused by the file opened next.
- The close-on-exec flags of a checkpointed process, which the checkpoint does not store.
- CCFS, netlink, the director interface and the Ruby director.
