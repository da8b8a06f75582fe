# Verified model of the embedded file transfer system

The repository holds a file transfer server for an embedded board (C), a Qt client (C++) and the frame protocol
between them. This project models the parts of it where the behaviour is hard to see from the code, and proves what
the rest relies on.

* **Checksum and frames** (`Crc32.dfy`, `CrcDivision.dfy`, `Frame.dfy`, `Bytes.dfy`). The bit loop of the checksum is
  polynomial division over GF(2), equals the table form, and detects every burst of up to 32 bits. Both encoders write
  the same bytes; where the two decoders differ is stated for all bytes and all payload buffers, the null one included.
  `protocol_unpack` is the decoder of the protocol library and has no caller in the repository; the server itself decodes
  in `recv_frame`, modelled with reads that fall short (`Frame.RecvFrame`); on one whole frame read in full it accepts
  what the client's decoder accepts (`Frame.WholeRead`).
* **Stream reassembly** (`Reassembly.dfy`). However TCP cuts a stream of frames, the receive loop of the client
  dispatches the same frames, and after any number of arrivals it has dispatched the largest complete prefix and holds
  the rest. For bytes of any kind it is stated when the cut makes no difference, and when the loop ends.
* **Worker pool** (`ThreadPool.dfy`). A step system of workers, submitters, a waiter and a destroyer, with the results
  about wake-ups, order, conservation and progress for every interleaving; and the linked queue with its head and tail
  pointers, proved to follow those steps.
* **Sessions and transfers** (`Storage.dfy`, `SessionModel.dfy`, `SessionSafety.dfy`, `SessionHistory.dfy`,
  `Server.dfy`, `Outcomes.dfy`, `Permissions.dfy`, `TaskProgress.dfy`, `Upload.dfy`, `UploadRun.dfy`,
  `DownloadRun.dfy`). What each command does to a session, to the files and to the open handles, as functions; then
  which reply a command gets, invariants and histories over all runs of any number of sessions, and what uploads and
  downloads deliver.
* **The session objects** (`LinkedList.dfy`, `Session.dfy`, `Handlers.dfy`, `SessionTable.dfy`). The linked lists, the
  handlers and the dispatch loop in place, proved to compute those functions.
* **MD5** (`Md5.dfy`, `Md5Vectors.dfy`). The rotating-register implementation against sections 3.1 to 3.5 of RFC 1321;
  what the auxiliary functions do to the bits; and two messages of its appendix A.5 evaluated in full.
* **User table and login** (`Config.dfy`) and **directory listing** (`FileList.dfy`).

Files are an ideal store: paths name files, open handles carry a mode, writing through a reading handle and reading
through a writing handle transfer nothing. What the operating system answers (does an open succeed, how much room is
left, is there memory) comes in as a parameter, and so does what the other sessions do. Each command is one step.
`size_t` has 32 bits, as on the board the server is built for. File offsets up to 4 GB are taken at face value: the store
is ideal there too, although the `long` that `fseek` takes has 31 bits for them on that board.

Some properties turned out to hold only under a condition; those are stated as equivalences:

* What is hashed is the padded message of RFC 1321 exactly when the length modulo 64 is at most 55 and the length is
  below 2^29 (`Md5.HashedIsPadded`). On longer tails the last bytes of the message do not even count
  (`Md5.LongTailIgnored`), so of two messages that differ only there one is not hashed to its MD5 digest, unless MD5
  itself collides on them (`Md5.LongTailWrong`). The 62 letters and digits of appendix A.5 of RFC 1321 are such a message:
  both digests are evaluated, and they differ (`Md5Vectors.LongAnswer`).
* A download loses the first chunk, without an error, exactly when both the buffer size and the file exceed 16372
  bytes, because the count has moved on before the reply turns out to be too long (`DownloadRun.ReceivedExactly`); from
  4 GB on the offsets wrap (`DownloadRun.ChainExactly`).
* The receive loop of the client ends exactly when no frame that comes to the head of the buffer announces 2^32 - 20
  bytes (`Reassembly.EndsExactly`); such a frame exists over any bytes (`Reassembly.WrappedHeaderSpins`).
* Where a buffer was cut between two arrivals makes no difference exactly when every message found before the cut has the
  whole payload it announces (`Reassembly.DrainInPieces`), below 4 GB: when no length wraps
  (`Reassembly.CompleteByHeader`). A frame that is a message or none, depending on the cut, is
  `Reassembly.CutMatters`.
* `protocol_unpack` accepts a corrupt payload that it does not copy out (`Frame.DecodersAgree`, `Frame.BurstRejected`).
* Accepted pieces that tile a source do not make the uploaded file that source: a piece that is refused because the
  device runs full has left the bytes that fitted (`UploadRun.TilesAreNotEnough`). What the file is then, for any pieces,
  and when it is the source, is `UploadRun.UploadDelivers`.
* The chunks of the client tile its file exactly when every local read is full (`Pieces.UploadFileChunked`).
* A directory reaches the client as it is exactly up to 59 files, names that survive and numbers of 32 bits
  (`FileList.DirectoryArrives`); a name of 255 bytes survives only by luck (`FileList.NameRoundTrip`).
* Upload data is written although the session has meanwhile logged in with read-only access
  (`Permissions.WritesAfterLowering`); a session that never had more changes no file (`Permissions.ReadOnlyLeavesFiles`).

Where code and documentation disagree, the model follows the code: the frame header has 20 bytes (a comment in
`protocol/protocol.h` and `server/README.md` say 12); the configuration file holds plain passwords that are hashed on
loading (`server/README.md` says it holds MD5); the payload limit is 16 KB (`server/README.md` says 8 KB).

`SessionModel.Dispatch` is the specification that the handlers in `Handlers.dfy` are proved against, branch by branch;
what it means is the subject of the other session modules. In those runs the events of the other sessions are
constrained only by `SessionSafety.Rely`, and `Server.SeenIsFair` shows that in a server of any number of sessions every
session honours it. Those runs start from any well-formed state of the files.

## Model

| member | source | states |
|---|---|---|
| `Crc32.ComputeCrc32` | protocol/protocol.c:16-28 | The nested bit loops compute the complemented register after shifting in every byte, for every input. |
| `Crc32.StepLinear` | protocol/protocol.c:20-25 | One shift step is linear over GF(2). |
| `Crc32.StepInjective` | protocol/protocol.c:20-25 | One shift step loses nothing: different registers stay different. |
| `Crc32.RegisterIsFeed` | protocol/protocol.c:18-26 | Working byte by byte is feeding the message bit by bit, least significant bit first, into the shift register. |
| `Crc32.RegisterByTable` | protocol/protocol.c:18-26 | For every register and every byte sequence the bit loop equals the table-driven form of section 8 of RFC 1952. |
| `CrcDivision.FeedDivides` | protocol/protocol.c:18-26 | The register holds a remainder of the message polynomial (times x^32, initial register added) on division by the generator, for the quotient read off the bits shifted out. |
| `CrcDivision.RemainderUnique` | protocol/protocol.c:18-26 | Quotient and remainder of a division by the generator are unique, so "the remainder" is well defined. |
| `CrcDivision.ChecksumIsRemainder` | protocol/protocol.c:16-28 | The checksum of any byte sequence is the complement of a 32-bit word exactly when that word is the remainder of the polynomial division. |
| `Crc32.ChecksumAffine` | protocol/protocol.c:16-28 | For equal lengths, the checksums of a, b and c add up (exclusive or) to the checksum of their byte-wise sum. |
| `Crc32.BurstDetected` | protocol/protocol.c:16-28 | Two messages of equal length that differ only within 32 consecutive bits have different checksums. |
| `Frame.ParseOfBytes` | protocol/protocol.h:33-40 | Reading the 20-byte header back gives every field that was written, whatever follows it. |
| `Frame.FrameLayout` | protocol/protocol.h:33-40 | The bytes of a frame, one by one: magic 53 50 54 46, version 1, command, sequence number, length and checksum, each low-order byte first, then the payload. |
| `Frame.ProtocolPack` | protocol/protocol.c:40-64 | Succeeds exactly with a buffer, a payload of at most 16384 bytes and room for both; writes exactly the frame and leaves the rest of the buffer, or on failure all of it, as it was; the null-payload case announces a length with checksum 0. |
| `Frame.PackFrame` | client/src/protocolutil.cpp:47-71 | The client builds byte for byte the same frame as the server for every command, sequence number and payload, the empty one included. |
| `Frame.ProtocolUnpack` | protocol/protocol.c:75-103 | Accepts exactly the frames whose magic, length and (when the payload is copied) checksum are right, and gives back header and payload. Says what header slot and payload buffer hold afterwards on every path: a wrong checksum is found only after the payload was copied out. |
| `Frame.UnpackFrame` | client/src/protocolutil.cpp:92-145 | Returns header and payload exactly when magic, available length and checksum are right. |
| `Frame.EmptyChecksum` | protocol/protocol.c:56-61 | The checksum of nothing is 0, so the constant the server writes for an empty payload is the one the client computes. |
| `Frame.DecodersRecover` | protocol/protocol.c:75-103 | From any encoded frame, with anything behind it, both decoders recover the exact header and payload; the server exactly up to 16384 bytes. |
| `Frame.DecodersAgree` | protocol/protocol.c:81-100 | On any bytes and for any payload buffer, the null one included: only the server accepts exactly the frames of its own limits whose checksum is wrong and whose payload is empty or not copied out; only the client accepts exactly the frames above the limit of the server. |
| `Frame.BurstRejected` | protocol/protocol.c:94-100 | For every payload of 1 to 16384 bytes and any corruption confined to 32 consecutive payload bits: the client rejects the frame, and the server rejects it exactly when it has a payload buffer that takes the payload. |
| `Frame.RecvFrame` | server/src/handler.c:16-110 | Whatever the two reads deliver, for announced lengths up to 16 KB: a frame is accepted exactly when neither read came back empty and the header that was read, followed by what the buffer then holds as body, is a frame for the decoder of the client. A read that falls short is not repeated, so what the stack held stands in for the missing bytes. It hands on header and payload, with the version always 1, and leaves the payload buffer alone otherwise. |
| `Frame.WholeRead` | server/src/handler.c:21-58 | One whole frame of at most 16 KB that the reads deliver in full is accepted exactly when the decoder of the client accepts it, the empty frame included. |
| `Frame.SendResponse` | server/src/handler.c:115-143 | The frame of the given data, or of status and message when there is none, goes out exactly when it is within 16384 bytes; else nothing is sent. |
| `Reassembly.Receiver.OnReadyRead` | client/src/networkmanager.cpp:222-257 | On every buffer on which the loop ends, one arrival hands the messages that drain from it to `processResponse`, in order, and keeps the rest. |
| `Reassembly.ConsumedNothing` | client/src/networkmanager.cpp:249-249 | The number of bytes removed is 0 exactly for the announced length 2^32 - 20. |
| `Reassembly.EndsExactly` | client/src/networkmanager.cpp:238-257 | For every buffer: some turn of the loop decodes nothing, so the loop ends, exactly when no frame that comes to the head of the buffer announces 2^32 - 20 bytes. |
| `Reassembly.WrappedHeaderSpins` | client/src/networkmanager.cpp:238-249 | A frame that announces 2^32 - 20 bytes and carries the checksum of what follows is decoded, and every turn of the loop leaves the buffer as it was. |
| `Reassembly.DrainInPieces` | client/src/networkmanager.cpp:222-257 | For any bytes: draining after each of two arrivals dispatches the same messages and leaves the same bytes as draining once after both, exactly when the loop ends on both together and every message of the first arrival has the whole payload its header announces (or the second arrival is empty). |
| `Reassembly.CompleteByHeader` | client/src/networkmanager.cpp:242-249 | In a buffer below 4 GB, all messages have the whole payload they announce exactly when none announces 2^32 - 20 bytes or more. |
| `Reassembly.CutMatters` | client/src/protocolutil.cpp:92-145 | A header that announces 2^32 - 1 bytes with checksum 0 is an empty message when it arrives alone, and no message once a certain byte has arrived behind it. |
| `Reassembly.LeftoverIsDrained` | client/src/networkmanager.cpp:238-246 | What stays in the buffer does not start with a frame that could be dispatched. |
| `Reassembly.PrefixDrains` | client/src/networkmanager.cpp:222-257 | After any prefix of a stream of valid frames has arrived, exactly the complete frames are dispatched, in order, and exactly the remaining bytes are held. |
| `Reassembly.StreamDrains` | client/src/networkmanager.cpp:222-257 | A whole stream of valid frames drains to exactly its frames and an empty buffer. |
| `Reassembly.ReceiveStream` | client/src/networkmanager.cpp:222-257 | For every way to split the bytes of a stream of valid frames into arrivals, and wherever they stop: the receiver has dispatched exactly the complete frames in order and holds exactly the bytes of the next one; after the whole stream, all frames and an empty buffer. |
| `Reassembly.BurstBlocksStream` | client/src/networkmanager.cpp:242-246 | A frame hit by a burst of at most 32 bits stays at the head of the buffer and nothing behind it is dispatched. |
| `PoolModel.StepInv` | server/src/thread_pool.c:15-60 | Every step of a worker, submitter or the destroyer keeps: no lost wake-up, submission order, each task run once, `active` equal to the workers between dequeue and retire, and who may have left. |
| `PoolModel.ReachableInv` | server/src/thread_pool.c:15-213 | All of that holds in every reachable state, for any number of workers and any interleaving, spurious wake-ups included. |
| `PoolModel.NoTaskLeftAsleep` | server/src/thread_pool.c:19-30 | Sleepers leave at most as many tasks queued as there are awakened workers still to re-check; a queued task never coexists with all workers asleep; nobody sleeps after shutdown. |
| `PoolModel.TasksConserved` | server/src/thread_pool.c:33-53 | The submitted sequence is the started tasks in order, then the queued, then the discarded ones; each task is in exactly one of finished, in flight, queued, discarded. |
| `PoolModel.WaitMeansFinished` | server/src/thread_pool.c:197-213 | When the waiter sees an empty queue and no active worker, every task submitted so far has finished its function, once (before the destroyer drained). |
| `PoolModel.DestroyAccountsForAll` | server/src/thread_pool.c:117-138 | After the destroyer drained, every worker has left and every task was either run to completion or discarded, exactly once. |
| `PoolModel.NoStartAfterShutdown` | server/src/thread_pool.c:26-30 | No worker takes a task once the shutdown flag is set. |
| `PoolModel.WorkersComeToRest` | server/src/thread_pool.c:18-57 | Left to themselves the workers can take only boundedly many steps, counted by a measure that every one of their steps lowers. |
| `PoolModel.RestMeansDone` | server/src/thread_pool.c:18-57 | Where no worker can move, every submitted task has finished, or, after shutdown, every worker has left. |
| `ThreadPool.ThreadPool.Submit` | server/src/thread_pool.c:151-179 | Appends exactly one node at the tail pointer, or changes nothing on failure; list, tail pointer and counters then match the model after the same step. |
| `ThreadPool.ThreadPool.WorkerSection` | server/src/thread_pool.c:19-42 | Takes exactly the head node, waits, or leaves, as the model step does; the tail pointer becomes null exactly when the list becomes empty. |
| `ThreadPool.ThreadPool.RetireTask` | server/src/thread_pool.c:51-53 | Decrements `active` as the model step does. |
| `ThreadPool.ThreadPool.SetShutdown` | server/src/thread_pool.c:120-123 | Sets the flag as the model step does. |
| `ThreadPool.ThreadPool.DrainQueue` | server/src/thread_pool.c:130-138 | Frees the whole queue; the tail pointer is left non-null exactly when something was freed. |
| `ThreadPool.ThreadPool.Quiet` | server/src/thread_pool.c:201-208 | The look of the waiter succeeds exactly when the model has no queued task and no active worker. |
| `Rfc1321.PaddedLength` | server/src/md5.c:116-139 | The standard padding of RFC 1321 fills one block when the tail has at most 55 bytes and two otherwise. |
| `Rfc1321.FChooses` | server/src/md5.c:15-15 | F takes the bits of y where x has ones and those of z where it has zeros. |
| `Rfc1321.GChooses` | server/src/md5.c:16-16 | G takes the bits of x where z has ones and those of y where it has zeros. |
| `Rfc1321.HParity` | server/src/md5.c:17-17 | H is the parity of the three words: with it they cancel. |
| `Rfc1321.ITurnsOver` | server/src/md5.c:18-18 | I is y with exactly the bits turned over where x has ones or z has zeros. |
| `Rfc1321.RotateMoves` | server/src/md5.c:12-12 | The rotation moves the bits up; those that leave at the top come in at the bottom. |
| `Rfc1321.InitialBytes` | server/src/md5.c:55-58 | The initial registers are the bytes 01 23 45 67 89 ab cd ef fe dc ba 98 76 54 32 10. |
| `Md5.TurnIsOperation` | server/src/md5.c:77-110 | Rotating the variables a, b, c, d through one loop body computes the operation that RFC 1321 writes with named registers. |
| `Md5.ShiftTable` | server/src/md5.c:21-26 | The flat table of 64 rotations is the four-by-four table of RFC 1321. |
| `Md5.ProcessBlock` | server/src/md5.c:74-112 | The four loops over the rotating registers compute the 64 operations of section 3.4 of RFC 1321 on the block and add the old registers. |
| `Md5.FillLastBlock` | server/src/md5.c:115-139 | The in-place padding produces the stated last block, for every tail length. |
| `Md5.HashedIsPadded` | server/src/md5.c:116-139 | What is hashed is the padded message of RFC 1321 exactly when the length modulo 64 is at most 55 and the length is below 2^29. |
| `Md5.LengthField` | server/src/md5.c:131-139 | The 64-bit length field is right exactly below 2^29 bytes, because size_t has 32 bits. |
| `Md5.Md5Encode` | server/src/md5.c:54-187 | Writes exactly the sixteen bytes of the digest of what is hashed and nothing else of the output. |
| `Md5.EncodedIsDigest` | server/src/md5.c:54-187 | On every input with length modulo 64 at most 55 and length below 2^29, the result is MD5 as RFC 1321 defines it. |
| `Md5.LongTailIgnored` | server/src/md5.c:120-139 | With 56 to 63 bytes in the tail, the bytes past position 56 of the last block do not influence the digest. |
| `Md5.LongTailWrong` | server/src/md5.c:120-139 | Two different messages that agree up to position 56 of such a last block have different padded forms but one result: at least one result is not the MD5 digest, unless the two digests are the same. |
| `Md5.Md5HexString` | server/src/md5.c:193-201 | The text is two lower-case digits for each byte of the digest. |
| `Md5.HexInjective` | server/src/md5.c:197-199 | Different digests have different texts. |
| `Md5.HexAt` | server/src/md5.c:197-199 | Characters 2i and 2i+1 are the codes of the high and the low digit of byte i, 0 to 9 and a to f. |
| `Md5Vectors.AbcDigest` | server/src/md5.c:54-187 | Evaluated through all 64 operations, the message abc has the digest that appendix A.5 of RFC 1321 lists, 900150983cd24fb0d6963f7d28e17f72. |
| `Md5Vectors.LongDigest` | server/src/md5.c:54-187 | Evaluated through two blocks, RFC 1321 gives the 62 letters and digits the digest d174ab98d277d9f5a5611c2c9f419d9f. |
| `Md5Vectors.LongAnswer` | server/src/md5.c:115-179 | For that message the implementation answers 18f2fcd1388e0f68d11cbb4a4896c46c, which is not its MD5 digest. |
| `Config.Trim` | server/src/config.c:19-37 | Returns the text without its leading and trailing blanks. |
| `Config.TrimmedExact` | server/src/config.c:19-37 | The trimmed text is the only text that neither starts nor ends with a space, tab, carriage return or line feed and that the input consists of besides those around it. |
| `Config.HeaderExact` | server/src/config.c:97-103 | A line is the header of a section exactly when it is an opening bracket, a name without a closing one, and a closing bracket; 63 characters of the name count. |
| `Config.ValueExact` | server/src/config.c:108-120 | The value of an entry is all of it when it has no equals sign, else what follows the first one, without blanks around it. |
| `Config.ParseUserExact` | server/src/config.c:133-149 | A value parses to a user exactly when it is name, password and permission with a colon after each of the first two and none inside them. |
| `Config.TextBytes` | server/src/config.c:144-144 | Every character below 256 is the byte with its code. |
| `Config.MadeUser` | server/src/config.c:42-149 | What the three fields mean: the name up to 63 characters, the hash of the password, read-write exactly for rw and RW, read-only exactly for ro and RO, else none. |
| `Config.ServerConfig.AddUser` | server/src/config.c:133-151 | Adds exactly the parsed user while there is room for 32; a half-parsed value leaves no trace in the table. |
| `Config.ServerConfig.Load` | server/src/config.c:90-168 | The loaded table is the first 32 users described by the entry lines of the `[users]` section, in order, for every list of lines. |
| `Config.LoadedUser` | server/src/config.c:124-168 | Every line of `[users]` that the table has room for is an entry of the table, with the name, hash and permission that its three fields say. |
| `Config.ServerConfig.VerifyUser` | server/src/config.c:194-217 | On the fields of the table: found exactly when some entry has that name and that hash, and the permission is that of the first entry that has both. |
| `Config.FirstMatchAt` | server/src/config.c:204-213 | The answer is the permission p exactly when there is a first entry with this name and this hash and it grants p; there is none exactly when no entry has both. |
| `Config.LoginDecision` | server/src/config.c:90-217 | Read off the text of the file: credentials are accepted with permission p exactly when the first line of `[users]` within the first 32 users whose name (63 characters of it) and whose hashed password are these carries the word for p. |
| `Config.ClientPasswordFits` | client/src/protocolutil.cpp:73-89 | The hash the client sends for the configured plain password fits the entry the server stored, when the password length modulo 64 is at most 55. |
| `FileList.CollectFiles` | server/src/handler.c:413-435 | Collects what the entries at increasing positions say; each of them has a stat and is named neither . nor .., and an entry is passed over only if it is one of those two, has no stat, or comes behind the 255th. |
| `FileList.ListedPicks` | server/src/handler.c:418-435 | The same of the listing with any limit. |
| `FileList.BuildListing` | server/src/handler.c:439-452 | The payload is the header and one 272-byte record for each collected file, including the stack bytes that are sent along. |
| `FileList.ListHead` | server/src/handler.c:444-452 | The payload starts with status success, the number of records and the 64 bytes of message, and has 66 bytes and 272 for each record. |
| `FileList.ParseFileList` | client/src/networkmanager.cpp:332-360 | The client reads exactly the records that the payload holds. |
| `FileList.NameRoundTrip` | client/src/networkmanager.cpp:347-353 | A NUL-free name of at most 255 bytes survives exactly when it has 1 to 254 bytes, or 255 with a zero behind it. |
| `FileList.SlotRoundTrip` | client/src/networkmanager.cpp:346-357 | One record gives back size, mode and time modulo 2^32, the directory flag, and the name exactly when it survives; so the file as it is exactly when the name survives and the numbers fit 32 bits. |
| `FileList.ListRoundTrip` | client/src/networkmanager.cpp:332-360 | Decoding the payload of up to 255 files gives them as they are, in order, exactly when each of them survives. |
| `FileList.SendListing` | server/src/handler.c:437-455 | What goes out for a directory is the response frame of its listing, or nothing. |
| `FileList.DirectoryArrives` | server/src/handler.c:406-455 | Through the readdir loop, the response frame and both decoders of the client: it sees all files of the directory as they are exactly when there are at most 59, every name survives and all numbers fit 32 bits; from 60 files on nothing is sent. All files means: those at increasing positions that have a stat and are named neither . nor .., and no other entry is one. |
| `Storage.WriteAt` | server/src/handler.c:776-777 | fseek and fwrite: the written range holds the data, the rest is kept, a gap reads as zeros. |
| `SessionSafety.DispatchGood` | server/src/handler.c:215-319 | Whatever command arrives: the list count equals the list length and is at most the limit, ids strictly decrease, every task has its own open file of the right mode and is running or paused, nobody logged out has tasks; and no handle of another session is touched. |
| `Outcomes.RefusalHarmless` | server/src/handler.c:228-313 | A command that is refused has changed nothing, for every command and every refusal, except the one where the device ran full. |
| `Outcomes.TurnedAway` | server/src/handler.c:330-1001 | Not authenticated, permission denied, busy, authentication failed (no entry has both the name and the hash) and transfer aborted are answered exactly in the stated cases, over all commands, both directions; with `Outcomes.RefusalHarmless`, a data request to a paused task changes nothing. |
| `Outcomes.LoginReplies` | server/src/handler.c:330-363 | A login is answered with permission p exactly when the first entry with both the name and the hash has it; the session then has that permission and the name up to 63 characters, and is otherwise as it was. |
| `Outcomes.PlainReplies` | server/src/handler.c:365-379 | A logout clears the login and closes exactly the files of the tasks; a heartbeat, a query and an unknown command change nothing and are answered as stated. |
| `Outcomes.DeleteReplies` | server/src/handler.c:528-573 | A delete is done exactly for read-write access, a safe path that names a file, and a call that succeeds; then the name is gone. Each of its faults exactly in its case. |
| `Outcomes.RenameReplies` | server/src/handler.c:575-617 | Likewise for a rename: done exactly for two safe paths, the first not empty and naming a file, and a call that succeeds; then the second names that file. |
| `Outcomes.EditReplies` | server/src/handler.c:619-682 | Likewise for an edit: path, parent directory, 65536 bytes, open and room, in that order; the file is written exactly when it is opened. |
| `Outcomes.StartReplies` | server/src/handler.c:684-970 | Upload and download start are answered with the next id, and the announced size or that of the file modulo 2^32, exactly when the session may, is below the limit, the path is safe and the open succeeds. |
| `Outcomes.TaskReplies` | server/src/handler.c:741-1144 | The commands on a task succeed exactly when it is listed and, for data, running and able to take all of it; each fault exactly in its case. |
| `Outcomes.EditReplaces` | server/src/handler.c:619-682 | An edit leaves exactly the new content (or what fitted of it) under its path and every other file, name and handle as it was. |
| `Outcomes.NamesMove` | server/src/handler.c:528-617 | A delete that succeeds takes away exactly one name, a rename moves exactly one file to its new name, and no content or open handle changes. When they succeed is `Outcomes.DeleteReplies` and `Outcomes.RenameReplies`. |
| `Outcomes.RepliesReport` | server/src/handler.c:790-1143 | A progress reply reports the count after the command (of an ended task, its last), a data reply the offset before it, a start reply the task just put at the head. |
| `Outcomes.WritesExactly` | server/src/handler.c:741-777 | Upload data is written exactly when the session is logged in, the task is a running upload, and there is something to write and room for it; the permission is not asked again. |
| `Permissions.ChangesAreLogged` | server/src/handler.c:330-1144 | A command changes a name or a content only with a delete, rename, edit, upload start or write among its effects. |
| `Permissions.ReadOnlyLeavesFiles` | server/src/handler.c:330-800 | A connection whose logins never granted read-write access, over any run among other sessions: names and contents of all files are as the others left them. |
| `Permissions.WritesAfterLowering` | server/src/handler.c:741-777 | Login with RW, upload start, login with RO, data: the data is in the file while the session has read-only access. |
| `Server.RoundKeeps` | server/src/handler.c:205-324 | One round of one session in its loop, its end included, keeps the invariant of all sessions and leaves each other session the handles it relies on. |
| `Server.ServerSafe` | server/src/handler.c:205-324 | For any interleaving of arrivals and rounds of any number of sessions: every session keeps its invariant, no handle or task id belongs to two sessions, and sessions that are gone hold nothing. |
| `Server.SeenIsFair` | server/src/handler.c:205-324 | What one session goes through in any run of the server is a run of a connection among well-behaved others, so every result about connections holds in the server. |
| `Server.EverySession` | server/src/handler.c:205-324 | From its arrival on, every session of every server run has its handles accounted for, its effects authorised and its invariant kept. |
| `SessionSafety.CloseAllOpens` | server/src/session.c:300-316 | Cleaning up closes exactly the handles of the listed tasks. |
| `SessionHistory.RunKeepsInv` | server/src/handler.c:205-324 | The session invariant holds between any two commands of any connection, whatever was sent; so a resume always finds an open file. |
| `SessionHistory.DispatchBalances` | server/src/session.c:252-316 | Each command: handles opened plus handles held before equal handles closed plus handles held after, handle by handle; a handle opened is a fresh one. |
| `SessionHistory.OpenFollowsLog` | server/src/handler.c:684-1144 | The handles open after a command are those open before and those logged as opened, less those logged as closed. |
| `SessionHistory.HandlesAccounted` | server/src/handler.c:205-324 | Over any run every handle opened by an upload or download start is held by exactly one listed task or was closed exactly once, and none is held after logout or session destruction. |
| `SessionHistory.RunAuthorised` | server/src/handler.c:535-694 | Every delete, rename, edit and upload start of any run happened while the most recent successful login granted RW and on a safe path; every login granted what the user table says. |
| `SessionHistory.WritesUnderRW` | server/src/handler.c:741-777 | Bytes are only ever written through a handle that the same connection opened by an upload start while it was granted RW. |
| `SessionHistory.RoundExactly` | server/src/handler.c:215-323 | One round: a command is processed exactly while the server runs or the session is not logged in; the session goes on exactly when it is logged in afterwards or the command was a login; when it ends, no task is left. |
| `SessionHistory.NothingAfterLogout` | server/src/handler.c:315-319 | No command is processed after a logout; an unauthenticated session processes login attempts and at most one other command, which has no effect and is its last. |
| `SessionHistory.GoneStaysGone` | server/src/session.c:182-185 | A task id that is not listed any more never comes back, in any run in which the 32-bit counter does not come round. |
| `Server.CounterBound` | server/src/session.c:182-185 | Each round gives out at most one task id, so the counter comes round in no run of fewer than 2^32 rounds. |
| `TaskProgress.TaskAfter` | server/src/handler.c:741-1144 | A listed task leaves the list only by its own end or the logout; only its own data requests move its count and only its own pause and resume change its status. |
| `TaskProgress.ContentKept` | server/src/handler.c:535-800 | A command changes a file only by opening it for writing or by upload data to a task that writes to it. |
| `Pieces.WrittenBytes` | server/src/handler.c:776-777 | Pieces cut from a source and written in any order: each byte is the byte of the source where some piece covers it and zero elsewhere, up to the last covered byte. |
| `Pieces.WrittenIsSource` | server/src/handler.c:776-777 | The result is the source exactly when its last byte is covered and whatever is not covered is zero. |
| `Pieces.WrittenExactly` | server/src/handler.c:776-777 | For any pieces at all, cut from the source or not: the result is the source exactly when the last piece over each byte says that byte, bytes under no piece are zero, and the pieces reach exactly its end. |
| `Pieces.OrderIrrelevant` | server/src/handler.c:776-777 | Any order and repetition of the pieces gives the same file. |
| `Pieces.TilesWritten` | server/src/handler.c:776-786 | Pieces that tile the source, in any order, give the source, and the bytes counted are its length. |
| `Pieces.UploadFileChunked` | client/src/networkmanager.cpp:578-614 | The loop ends whatever the reads of the local file give; its frames are accepted by the server and carry non-empty pieces of at most 8 KB at the offsets of full chunks; they are byte for byte the data requests of those pieces, with sequence numbers that go up by one; and they tile the file (its size taken modulo 2^32) exactly when every read was full. |
| `Pieces.SendData` | client/src/networkmanager.cpp:154-170 | The frame of an upload data request: id, offset, length and data. |
| `Pieces.DataRoundTrip` | client/src/networkmanager.cpp:154-170 | The server reads from an upload data payload exactly the id, offset and data the client wrote. |
| `UploadRun.AcceptedExactly` | server/src/handler.c:764-784 | A piece is accepted exactly when its task is running and the device takes all of it; it is aborted, and nothing changes, exactly while the task is paused. |
| `UploadRun.UploadKeeps` | server/src/handler.c:741-868 | Over any run in which nothing else touches the file, a full device and retries included: it is what the accepted pieces, and of the refused ones the part that fitted, make of an empty file; the task has counted exactly the bytes of the accepted ones, modulo 2^32. |
| `UploadRun.UploadDelivers` | server/src/handler.c:684-914 | After any history, an upload start and any mix of data, pauses, resumes and other requests, writes that fall short included: at the end the file is the source exactly when the bytes written spell it. If all data sent was cut from the source: exactly when the last byte was written and what was not is zero; so whenever the accepted pieces cover it. If they tile it, the count reported is its length. The path still names that file unless a command that succeeded, or another session, has taken the name away. |
| `UploadRun.NameAfter` | server/src/handler.c:528-617 | A name still stands for its file after a command exactly unless the command succeeded and deleted the name, renamed it, or renamed another file to it. |
| `UploadRun.ShortPieceStays` | server/src/handler.c:776-784 | A device that takes only part of a piece: the request is refused and not counted, and exactly the part that fitted is in the file. |
| `UploadRun.TilesAreNotEnough` | server/src/handler.c:684-914 | A whole run: a new upload, the tiles of any source, all accepted, and one refused piece behind its end. The accepted pieces tile the source, the end reports its length, and the file is one byte longer. |
| `UploadRun.ClientFileArrives` | client/src/networkmanager.cpp:587-614 | From the bytes of the client to the file of the server: the frames in step with the pieces decode to exactly the data requests of those pieces, and these, at a new upload task under the id the server gave, leave what the pieces make of an empty file. It is the source exactly when they spell it, and so when they tile it; the end reports the bytes counted. |
| `UploadRun.FramesArrive` | client/src/networkmanager.cpp:154-170 | Each frame of the client is one whole frame that the server reads as the data request of its piece. |
| `UploadRun.UploadToServer` | client/src/networkmanager.cpp:578-614 | The loop of the client against the server, whatever the reads of the local file give: the file that arrives is the file of the client (its size taken modulo 2^32) exactly when the pieces sent spell it, and always when every read was full; then its size is reported. |
| `DownloadRun.NextChunk` | server/src/handler.c:995-1021 | A data request is answered exactly when the task is running, with the next chunk and the offset it starts at; otherwise it is aborted and nothing changes. |
| `DownloadRun.ChainExactly` | server/src/handler.c:1014-1020 | For a positive buffer size, every chunk starts where the earlier ones end, for all requests, exactly for files below 4 GB. |
| `DownloadRun.NonEmptyChunks` | server/src/handler.c:1016-1020 | Below 4 GB exactly the first ceil(size / buffer_size) chunks are non-empty, and after them the count is the size. |
| `DownloadRun.ReceivedExactly` | server/src/handler.c:1024-1025 | Once a chunk was requested, what the client receives is the file up to the count exactly when a full chunk, or the whole file, fits one reply of 16384 bytes. |
| `DownloadRun.DownloadKeeps` | server/src/handler.c:972-1098 | Over any run that leaves the file alone, the replies to a download task are the chunks of the file in order. |
| `DownloadRun.DownloadDelivers` | server/src/handler.c:916-1098 | After any history, a download start and any mix of data requests, pauses, resumes and other requests while the file stays: the replies are the chunks in order with chained offsets, and when they fit they add up to the file after ceil(size / buffer_size) of them. |
| `Lists.Push` | server/src/session.c:198-200 | A new head node; everything behind it is untouched. |
| `Lists.Detach` | server/src/session.c:256-273 | Redirecting one link removes exactly that node, keeps order, identity and contents of all others, and leaves no cycle. |
| `Sessions.ClientSession.FindTask` | server/src/handler.c:752-757 | Finds the first task with the id, or null exactly when none is listed. |
| `Sessions.ClientSession.AddTask` | server/src/session.c:182-206 | A running task with the next id and no bytes moved, at the head; count and counter go up by one. |
| `Sessions.ClientSession.RemoveTask` | server/src/session.c:252-275 | Unlinks exactly the first matching node, closes its file if it still has one, lowers the count by one; nothing happens without a match. |
| `Sessions.ClientSession.CleanupTasks` | server/src/session.c:300-316 | Empties the list, closing every file once, and lowers the count by the number of tasks. |
| `Handlers.HandleLogin` | server/src/handler.c:330-363 | The session takes over name and permission of the first fitting entry, or stays as it was. |
| `Handlers.HandleLogout` | server/src/handler.c:365-379 | All tasks are gone, all their files closed, and the login state is cleared. |
| `Handlers.HandleDelete` | server/src/handler.c:528-573 | In place on session and files: what `Outcomes.DeleteReplies`, `Outcomes.NamesMove` and `Outcomes.RefusalHarmless` say of a delete holds of the handler. |
| `Handlers.HandleRename` | server/src/handler.c:575-617 | Likewise for a rename, so `Outcomes.RenameReplies` and `Outcomes.NamesMove` hold of the handler. |
| `Handlers.HandleEdit` | server/src/handler.c:619-682 | Likewise for an edit, so `Outcomes.EditReplies` and `Outcomes.EditReplaces` hold of the handler: the content is replaced even when the write then falls short. |
| `Handlers.HandleUploadStart` | server/src/handler.c:684-739 | On the linked list: the replies of `Outcomes.StartReplies`, with a truncated file, a fresh handle and a node at the head, which `UploadRun.UploadDelivers` starts from. |
| `Handlers.HandleUploadData` | server/src/handler.c:741-800 | On the linked list: search, status test, write at the offset and count, the short write without progress included, as `UploadRun.AcceptedExactly` and `UploadRun.ShortPieceStays` say. |
| `Handlers.HandleDownloadStart` | server/src/handler.c:916-970 | On the linked list: the replies of `Outcomes.StartReplies`, with a reading handle and a node at the head with the size of the file, which `DownloadRun.DownloadDelivers` starts from. |
| `Handlers.HandleDownloadData` | server/src/handler.c:972-1030 | On the linked list: the chunk at the count is read and the count moves on, as `DownloadRun.NextChunk` says. |
| `Handlers.HandleStatus` | server/src/handler.c:802-868 | On the linked list, for pause and resume of either direction: the status of the found task is set, whatever it was; `TaskProgress.TaskAfter` says what that changes. |
| `Handlers.HandleEnd` | server/src/handler.c:870-914 | On the linked list: the task is unlinked and its file closed once although two places close it, as `SessionHistory.DispatchBalances` counts. |
| `Handlers.HandleRequest` | server/src/handler.c:228-313 | The switch on the linked list and the shared files computes the dispatch function of the model. |
| `Handlers.HandleClient` | server/src/handler.c:205-324 | The loop on the session object, with the other sessions changing files and counter in any way between two rounds, is the run of the model: same files, same session, same log, same handles closed at the end; so all results about runs hold of it. |
| `SessionTable.Registry.Create` | server/src/session.c:33-61 | A new head with the next id; the others stay. |
| `SessionTable.Registry.Destroy` | server/src/session.c:66-81 | Unlinks exactly the given session, by identity, and keeps order and ids of all others. |
| `SessionTable.Registry.FindById` | server/src/session.c:98-110 | Finds the first session with the id, or null. |
| `SessionTable.Registry.GetCount` | server/src/session.c:125-135 | The count is the number of sessions created and not yet destroyed. |
| `SessionTable.FoundIsOnly` | server/src/session.c:22-28 | Until the 32-bit counter comes round, the lookup finds the one session that has the id. |

## Left out

- Sockets, signals, logging, `/proc` parsing, all Qt windows and dialogs.
- Frame.RecvFrame: has no contract for announced lengths above 16384 bytes, for which the code has no limit and its buffer no room. The runs here start from whole frames.
- Interleaving inside one command: each handler is one step of its session. The handlers share files and the task id counter without a common lock, so two sessions in the same file at the same time are only covered command by command.
- The failed-creation paths of `thread_pool_create` and of the allocations in `session_create` and `session_add_task`; memory is assumed there.
- The wrap of the 32-bit task id counter after 2^32 transfers (not before: `Server.CounterBound`), and the race on it between sessions.
- Path resolution (`build_full_path`, the payload of a rename): commands carry the resolved path. The test for two dots in a row is modelled.
- Handlers.HandleDelete: acts on files; the directory that `rmdir` removes is outside the file store.
- Handlers.HandleRename: acts on files and on two resolved paths; directories and the parsing of the payload are not modelled.
- Handlers.HandleEdit: a `content_len` is taken to lie inside the frame, and so is the `data_len` of upload data; what the payload buffer still holds behind a shorter frame is not modelled.
- UploadRun.UploadDelivers: asks that meanwhile nothing else writes to the file.
- SessionHistory.GoneStaysGone: takes the task id counter as unbounded.
- DownloadRun.DownloadDelivers: asks that the file is not written meanwhile.
- UploadRun.ClientFileArrives: like `UploadRun.UploadToServer`, takes the task id from the reply of the server; the client sends its data before it has seen that reply and so under the id of the transfer before.
- Md5.EncodedIsDigest: for the remaining lengths the hashed stream is shown to differ from the padded message, and one digest to be wrong; that all of them are would be a statement about collisions.
- The end of a Qt download: the client expects a status byte in front of the data that the server does not send.
- Replies to the read-only queries other than the directory listing, timestamps, speeds and progress percentages, `session_get_active_count`.
- `[server]`, `[paths]` and `[transfer]` entries of the configuration; a `[transfer]` line without an equals sign.
- The pause, resume and end handlers of upload and download are the same code twice and are modelled once.
- Text encodings: names and passwords are sequences of bytes or of characters below 256.
