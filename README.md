# bb: the iQue Player link protocol and command layer

This project models the host side of `bb`, a Rust library that talks to an
iQue Player console over USB. A `BBPlayer` owns one opened USB handle. On
top of two primitives, "send bytes" and "receive up to n bytes", it builds:

- a link protocol (`player_comms.rs`):
  - the piecemeal byte encoding, where every group of up to three bytes is
    prefixed with a tag;
  - chunked bulk sends;
  - a ready handshake;
  - length-prefixed replies that are acknowledged;
  - an 11-byte command envelope.
- a command layer (`commands.rs`):
  - opcodes and return codes;
  - block read and write with five attempts each;
  - skipping bad blocks;
  - 8.3 filename checks;
  - the whole-device dump.
- the public session (`lib.rs`): the `is_initialised` flag, which gates
  every public operation, the `Init` sequence, `Close`, `Drop` and the
  `SetTime` byte layout.

## How the link is modelled

The link is a class, `Transport.UsbHandle`. Its state (`Transport.Wire`) has
four parts:

- the script of packets the device will hand to the next receives;
- the outcome of each next send, accepted or refused;
- whether releasing the interface fails;
- the log of every transfer the host has made.

A receive takes the next scripted packet. It fails with a timeout when the
script is empty, and with an overflow when the packet does not fit. Running
out of script is what ends the polling loops.

Every operation over the link is a `method` that carries the source's own
loops. Each method is proved equal to a pure specification function of the
form `Wire -> Step<T>`, which returns the result and the new link state. The
properties are then proved about those functions. The properties are:

- byte layout;
- which transfers appear in the log and in what order;
- how many times a frame is sent;
- which errors can arise.

Both retry loops are the same generic function, `Commands.Retry`, with
different stages, and their counting properties are proved once about it.

A Rust panic becomes `Err(Panic(..))`. The panics modelled are a failed
length assertion in decoding and out-of-range slicing or indexing.
`try_continue!` never swallows a panic, so a retry loop passes it on.

The sizes from the `constants` module are a parameter `Commands.Config`.
It requires that the chunk size divides the block size and that the spare
size is at least 6.

## Model

| member | source | states |
|---|---|---|
| Bytes.ToBeBytes | src/player_comms.rs:89-96 | `to_be_bytes` of a `u32` is four bytes |
| Bytes.NumFromArrU32 | src/lib.rs:51-57 | `num_from_arr::<u32>` of exactly four bytes is the number whose big-endian bytes they are |
| Bytes.NumFromArrI32 | src/lib.rs:51-57 | `num_from_arr::<i32>` is the two's-complement reading of the same bits: equal to the `u32` value mod 2^32, and negative exactly when the top bit is set |
| Bytes.BeDigits | src/lib.rs:51-57 | the value is b0·2^24 + b1·2^16 + b2·2^8 + b3 and its big-endian bytes are b0..b3 |
| Bytes.BeRoundTrip | src/lib.rs:51-57 | reading back the big-endian bytes of x gives x |
| Transport.Receive | src/usb.rs:76-86 | a receive logs one `In(n)`, consumes one scripted packet, and returns it only when it fits in n bytes |
| Transport.Send | src/usb.rs:70-74 | a send logs one `Out(data)`, succeeds as the script says, and reports the whole length |
| Transport.Close | src/usb.rs:61-68 | releasing the interface logs `Release` and fails exactly when the script says so |
| Transport.Delegated | src/lib.rs:88-98 | a filesystem-table call is logged once and returns the given answer |
| Transport.UsbHandle.BulkSend | src/usb.rs:70-74 | the handle's state changes as `Send` says |
| Transport.UsbHandle.BulkReceive | src/usb.rs:76-86 | the handle's state changes as `Receive` says |
| Transport.UsbHandle.CloseConnection | src/usb.rs:61-68 | the handle's state changes as `Close` says |
| Transport.UsbHandle.CallFs | src/lib.rs:88-98 | the handle's state changes as `Delegated` says |
| Framing.GroupsLength | src/player_comms.rs:56-63 | an encoding of N bytes has N + ⌈N/3⌉ bytes |
| Framing.GroupsAt | src/player_comms.rs:56-63 | the group for data position i is a tag base + k followed by the next k = min(3, rest) bytes |
| Framing.GroupsAppend | src/player_comms.rs:56-63 | the encoding of a concatenation whose first part is whole groups is the concatenation of the encodings |
| Framing.GroupsExtend | src/player_comms.rs:56-63 | taking the next chunk into a prefix that ends on a group boundary appends one tagged group to its encoding |
| Framing.EncodePiecemealData | src/player_comms.rs:56-63 | the push loop over `chunks(3)` builds exactly the tagged encoding |
| Framing.UngroupGroups | src/player_comms.rs:56-63 | removing the tags from an encoding gives the input back |
| Framing.EncodeTags | src/player_comms.rs:56-63 | group g starts at byte 4g with a tag in 0x41..0x43; the tag minus 0x40 is its length, which is 3 except for the last group |
| Framing.DecodeFrom | src/player_comms.rs:65-83 | the decoding loop fails only with `Io`, `InvalidParam` or the length panic, and a success has exactly the expected length |
| Framing.DecodePiecemealData | src/player_comms.rs:65-83 | the iterator loop computes the decoding function |
| Framing.DecodeGroups | src/player_comms.rs:65-83 | a stream grouped with receive tags 0x1D..0x1F decodes to its N bytes when N are expected, whatever follows |
| Framing.SkipGroups | src/player_comms.rs:65-83 | while no more than the groups' data is expected, decoding from any position passes over well-formed groups, appending their data, and goes on after them |
| Framing.EncodeIsNotAReply | src/player_comms.rs:56-83 | the host's encoding (base 0x40) is not a valid reply (base 0x1C): decoding it is `Io` |
| Framing.DecodeBadTag | src/player_comms.rs:68-81 | a tag outside 0x1D..0x1F where a group starts is `Io` |
| Framing.DecodeCutShort | src/player_comms.rs:68-81 | input that ends inside a group is `InvalidParam` |
| Framing.ChunkFramesShape | src/player_comms.rs:29-40 | N bytes become ⌈N/254⌉ frames `[0x63, len] ++ chunk` with 1 ≤ len ≤ 254, and the chunks concatenate to the input |
| PlayerComms.IsReadySpec | src/player_comms.rs:47-54 | one 4-byte receive; true exactly on `15 00 00 00`, false exactly on another 4-byte packet, `Io` on a shorter packet |
| PlayerComms.IsReady | src/player_comms.rs:47-54 | the method behaves as `IsReadySpec` |
| PlayerComms.WaitReadySpec | src/player_comms.rs:42-45 | the handshake fails only with a link error |
| PlayerComms.WaitReady | src/player_comms.rs:42-45 | the polling loop behaves as `WaitReadySpec` |
| PlayerComms.LeadingBusy | src/player_comms.rs:42-54 | counts the busy 4-byte packets at the front of the script |
| PlayerComms.WaitReadySkip | src/player_comms.rs:42-54 | a busy packet at the front is received and dropped, and polling goes on with the rest of the script |
| PlayerComms.WaitReadyPolls | src/player_comms.rs:42-54 | the handshake polls once per busy packet and once more; it succeeds exactly when the first packet it does not skip is the ready signal, and then it leaves the rest of the script untouched |
| PlayerComms.WaitReadyReceives | src/player_comms.rs:42-45 | the handshake only receives |
| PlayerComms.SendPiecemealData | src/player_comms.rs:85-87 | one send of the encoding |
| PlayerComms.CommandFrameBytes | src/player_comms.rs:89-96 | the command frame is `[0x43,o0,o1,o2, 0x43,o3,a0,a1, 0x42,a2,a3]` |
| PlayerComms.SendCommandSpec | src/player_comms.rs:89-96 | a command (ready wait, then the piecemeal message) fails only with a link error |
| PlayerComms.SendCommand | src/player_comms.rs:89-96 | the method behaves as `SendCommandSpec` |
| PlayerComms.SendAck | src/player_comms.rs:98-100 | one send of the byte 0x44 |
| PlayerComms.SendChunkedSpec | src/player_comms.rs:29-40 | chunked sending fails only with a link error |
| PlayerComms.SendChunkedData | src/player_comms.rs:29-40 | the chunk loop behaves as `SendChunkedSpec` |
| PlayerComms.SendChunkedFrames | src/player_comms.rs:29-40 | when every send is accepted, exactly the frames of `ChunkFrames(data)` are sent in order, and nothing is received |
| PlayerComms.SendChunkedHead | src/player_comms.rs:29-40 | one accepted chunk send takes the head chunk off the data |
| PlayerComms.ReceiveDataLengthSpec | src/player_comms.rs:102-116 | the length read fails only with a link error and yields a 24-bit value |
| PlayerComms.ReceiveDataLength | src/player_comms.rs:102-116 | the loop behaves as `ReceiveDataLengthSpec` |
| PlayerComms.LeadingReady | src/player_comms.rs:102-116 | counts the stray ready signals at the front of the script |
| PlayerComms.ReceiveDataLengthHeader | src/player_comms.rs:102-116 | stray ready signals are skipped; it succeeds exactly on a 4-byte packet tagged 0x1B, returning its low three bytes big-endian; any other packet of at most 4 bytes is `Io` |
| PlayerComms.MaskedLength | src/player_comms.rs:102-116 | masking with 0x00FFFFFF keeps the low three bytes |
| PlayerComms.ReceiveDataLengthReceives | src/player_comms.rs:102-116 | the length read only receives |
| PlayerComms.ReceivePacketsSpec | src/player_comms.rs:118-134 | the body buffer only grows and never exceeds its reserved capacity |
| PlayerComms.ReceivePacketsReceives | src/player_comms.rs:118-134 | the packet loop only receives |
| PlayerComms.ReceiveDataSpec | src/player_comms.rs:118-134 | a received body has exactly the expected length; failures are link errors or the length panic |
| PlayerComms.ReceiveData | src/player_comms.rs:118-134 | the packet, ack and decode sequence behaves as `ReceiveDataSpec` |
| PlayerComms.ReceiveReplySpec | src/player_comms.rs:136-143 | a reply has 1..max bytes |
| PlayerComms.ReceiveReply | src/player_comms.rs:136-143 | the method behaves as `ReceiveReplySpec` |
| PlayerComms.ReceiveReplyContract | src/player_comms.rs:118-143 | a declared length 0 or above max gives `InvalidParam` right after the header, with no body read and no ack; a reply has exactly the declared length, in 1..max, and was acknowledged exactly once, after its packets |
| PlayerComms.ReceiveDataQuiet | src/player_comms.rs:118-134 | reading a reply body extends the log and sends nothing but its ack |
| PlayerComms.ReceiveReplyQuiet | src/player_comms.rs:118-143 | a reply extends the log and sends nothing but acks |
| PlayerComms.LengthHeader | src/player_comms.rs:102-116 | the 4-byte header tagged 0x1B whose low three bytes give back the announced length |
| PlayerComms.ReceiveBody | src/player_comms.rs:118-134 | full 128-byte packets and then a short one are gathered into exactly that body, and no further packet is taken |
| PlayerComms.CapacityRoom | src/player_comms.rs:118-134 | the reserved capacity always exceeds the grouped length N + ⌈N/3⌉ of an N-byte reply |
| PlayerComms.ReceiveHeaderScripted | src/player_comms.rs:102-116 | a length header at the front of the script is read at once and gives the announced length |
| PlayerComms.GroupedBody | src/player_comms.rs:118-134 | a reply grouped with base 0x1C fits the reserved capacity and decodes back to itself |
| PlayerComms.ReceiveDataScripted | src/player_comms.rs:118-134 | a body that fits and decodes to c is received as c, its packets consumed, its ack accepted |
| PlayerComms.ReceiveReplyScripted | src/player_comms.rs:118-143 | a well-formed device reply of 1..max bytes is received as exactly those bytes, its packets are consumed, and its ack is accepted |
| PlayerComms.OnlyReceivesCount | src/player_comms.rs:118-143 | receives leave every send count unchanged |
| PlayerComms.SendCommandLog | src/player_comms.rs:89-96 | a command's traffic is receives and then its frame as the last transfer |
| Commands.CommandRet | src/commands.rs:47-49 | the return code is the big-endian `i32` at reply bytes 4..8, negative exactly when byte 4 has its top bit set |
| Commands.ReplyWord | src/commands.rs:143-148 | bytes 4..8 as a `u32`, or the slice panic on a reply shorter than 8 bytes |
| Commands.ReplyCode | src/commands.rs:47-49 | the return code, or the slice panic on a reply shorter than 8 bytes |
| Commands.ReceiveCodeSpec | src/commands.rs:47-49 | reading a return code fails only with a link error or the slice panic |
| Commands.ReceiveCode | src/commands.rs:47-49 | the method behaves as `ReceiveCodeSpec` |
| Commands.RequestBlockReadCodes | src/commands.rs:62-70 | a link failure is passed on; a negative code is `Command(command, ret)`; the request succeeds exactly when the code is read and is at least 0 |
| Commands.RequestBlockRead | src/commands.rs:62-70 | the method behaves as `RequestBlockReadSpec` |
| Commands.ReplyOfWithin | src/player_comms.rs:136-143 | receive_reply(max) gives 1..max bytes or a link error, on every link state |
| Commands.ChunksLength | src/commands.rs:72-78 | count replies of 1..max bytes each are appended to the buffer, which is never lost; a failure is a reply's link error |
| Commands.GetBlockLength | src/commands.rs:72-78 | a block has between blockSize / blockChunkSize and blockSize bytes, and a failed block read is a link error |
| Commands.ChunksScripted | src/commands.rs:72-78 | over a script of well-formed replies the chunk loop appends exactly those replies, in order, and leaves the rest of the script |
| Commands.GetBlockScripted | src/commands.rs:72-78 | over blockSize / blockChunkSize well-formed replies a block is their concatenation |
| Commands.GetBlockOfFourChunks | src/commands.rs:72-78 | a 16-byte block read in 4-byte chunks is the four chunks in order |
| Commands.ChunksStep | src/commands.rs:72-78 | one iteration of the chunk loop: a failed reply ends it, a received reply is appended and the loop goes on |
| Commands.GetBlock | src/commands.rs:72-78 | the extend loop behaves as `GetBlockSpec` |
| Commands.GetSpare | src/commands.rs:80-82 | one reply of at most `spareSize` bytes |
| Commands.ReadAttemptSpec | src/commands.rs:51-60 | a successful attempt gives at most `blockSize` block bytes and 1..`spareSize` spare bytes; a failed one is a link error |
| Commands.RetrySucceedsWith | src/commands.rs:51-60 | a retry loop succeeds only with a value some attempt produced |
| Commands.ReadRetriesSpec | src/commands.rs:51-60 | a successful read has the sizes of a successful attempt |
| Commands.RetryStep | src/commands.rs:51-60 | one iteration of any five-attempt loop: a failed request is returned, a retryable failure of the attempt goes on with one attempt fewer, anything else ends the loop |
| Commands.ReadRetriesStep | src/commands.rs:51-60 | one iteration: a failed request is returned, a retryable failure of `get_block` or `get_spare` goes on to the next iteration, anything else ends the loop |
| Commands.ReadAttemptCmd | src/commands.rs:55-56 | `get_block` then `get_spare`, stopping at the first failure, behave as `ReadAttemptSpec` |
| Commands.ReadBlockSpare | src/commands.rs:51-60 | the five-iteration loop with `?` and `try_continue!` behaves as `ReadBlockSpareSpec` |
| Commands.RequestBlockWrite | src/commands.rs:106-109 | the method behaves as `RequestBlockWriteSpec` |
| Commands.CheckBlockWriteCodes | src/commands.rs:111-118 | a link failure is passed on; a negative code is `CheckBlockWrite(ret)`; the check succeeds exactly when the code is read and is at least 0 |
| Commands.CheckBlockWrite | src/commands.rs:111-118 | the method behaves as `CheckBlockWriteSpec` |
| Commands.SendBlock | src/commands.rs:120-122 | the block goes out as chunked frames |
| Commands.RewriteSpare | src/commands.rs:124-131 | the spare sent is `spareSize` bytes: the first three of the input, then 0xFF |
| Commands.SendSpare | src/commands.rs:124-131 | the method behaves as `SendSpareSpec` |
| Commands.SendSpareTraffic | src/commands.rs:124-131 | receives while waiting for ready, then exactly one send, of the encoded rewritten spare, whose tags come off to give that spare |
| Commands.WriteBlockSpareSpec | src/commands.rs:84-104 | a bad block (spare byte 5 not 0xFF) is `Ok` with the link untouched; a spare too short for byte 5 panics with the link untouched |
| Commands.WriteRetriesStep | src/commands.rs:96-102 | one iteration: a retryable failure of any stage goes on to the next iteration, anything else ends the loop |
| Commands.WriteTransfer | src/commands.rs:98-100 | the block, the spare and the device's check, stopping at the first failure, behave as `WriteTransferSpec` |
| Commands.WriteBlockSpare | src/commands.rs:84-104 | the check and the five-iteration loop behave as `WriteBlockSpareSpec` |
| Commands.InitFs | src/commands.rs:133-141 | the method behaves as `InitFSSpec` |
| Commands.InitFSCodes | src/commands.rs:133-141 | a link failure is passed on; a negative code is `InitFS(ret)`; `init_fs` succeeds exactly when the code is read and is at least 0 |
| Commands.GetNumBlocksCmd | src/commands.rs:143-148 | the method behaves as `GetNumBlocksSpec` |
| Commands.GetNumBlocksErrors | src/commands.rs:143-148 | `get_num_blocks` fails only with a link error or the slice panic |
| Commands.IgnoredReplyErrors | src/commands.rs:150-154 | `set_seqno` and `set_led` ignore the reply's content: they fail only with a link error |
| Commands.SetSeqNo | src/commands.rs:150-154 | the method behaves as `CommandIgnoringReplySpec` with `SetSeqNo` |
| Commands.SetLed | src/commands.rs:204-208 | the method behaves as `CommandIgnoringReplySpec` with `SetLED` |
| Commands.SetTimeTraffic | src/commands.rs:210-221 | the first four bytes travel in the command frame; the last four are sent, piecemeal, exactly when the code is not negative; a negative code is `SetTime(ret)` |
| Commands.SetTimeCmd | src/commands.rs:210-221 | the method behaves as `SetTimeSpec` |
| Commands.GetBBIDSpec | src/commands.rs:223-232 | an identifier is below 2^31 |
| Commands.GetBBIDIsCode | src/commands.rs:223-232 | a negative code is `GetBBID(ret)`; otherwise the identifier is the code itself |
| Commands.GetBbid | src/commands.rs:223-232 | the method behaves as `GetBBIDSpec` |
| Commands.SendFilenameTraffic | src/commands.rs:161-195 | a refused name fails before any transfer; an accepted one sends `FileChksum` with the NUL-inclusive length, then after a ready wait the padded name, which is the last transfer |
| Commands.SendFilename | src/commands.rs:161-195 | the method behaves as `SendFilenameSpec` |
| Commands.SendParamsSpec | src/commands.rs:197-202 | the checksum goes in the opcode slot and the size in the argument; the answer is true exactly when the code is 0, and errors are those of reading the code |
| Commands.SendParamsAndReceiveReply | src/commands.rs:197-202 | the method behaves as `SendParamsSpec` |
| Commands.FileChecksumCmp | src/commands.rs:156-159 | the method behaves as `FileChecksumCmpSpec`: the name, then the parameters |
| Commands.ReadAll | src/commands.rs:234-244 | a successful read of blocks next..num gives one result per block |
| Commands.DumpIsReadsInOrder | src/commands.rs:234-244 | the dump's outputs are the in-order concatenations of the block reads; it fails, with the same error and link state, exactly when one of them fails |
| Commands.DumpSizes | src/commands.rs:234-244 | a dump of n blocks has at most n·blockSize block bytes and between n and n·spareSize spare bytes |
| Commands.ReadAllSizes | src/commands.rs:234-244 | the size bounds of each read add up over the dump |
| Commands.DumpNandAndSpare | src/commands.rs:234-244 | the block loop behaves as `DumpNandAndSpareSpec` |
| Commands.ReadSingleBlock | src/commands.rs:246-248 | one `read_block_spare` |
| Commands.WriteSingleBlock | src/commands.rs:250-257 | one `write_block_spare` |
| FileNames.Split | src/commands.rs:161-195 | `split` yields at least one piece |
| FileNames.SplitFirst | src/commands.rs:161-195 | the first piece is the text up to the first separator, and the other pieces are the split of what follows it |
| FileNames.SplitJoin | src/commands.rs:161-195 | joining the pieces with the separator gives the input back |
| FileNames.SplitPiecesClean | src/commands.rs:161-195 | no piece contains the separator |
| FileNames.NameAndExtMeaning | src/commands.rs:161-195 | the name is the text before the first '.', or all of it; the extension is the text after that '.' up to the next '.' or the end, or empty without a '.' |
| FileNames.FileNameError | src/commands.rs:161-195 | the only refusals are `FileNameTooLong` and `FileNameCString` of that name |
| FileNames.FileNameErrorCases | src/commands.rs:161-195 | a name is accepted exactly when name ≤ 8, extension ≤ 3 and there is no NUL; the length error takes precedence |
| FileNames.Padding | src/commands.rs:161-195 | fewer than four pad bytes make the length a multiple of four |
| FileNames.FileNamePayload | src/commands.rs:161-195 | the payload is the name, then a NUL, then fewer than four zero bytes, and its length is a multiple of four |
| FileNames.SplitAtFirst | src/commands.rs:161-195 | at the first separator, the split divides there |
| FileNames.SplitNone | src/commands.rs:161-195 | text without a separator is one piece |
| FileNames.AutoexecAccepted | src/commands.rs:161-195 | "AUTOEXEC.CFG" splits into "AUTOEXEC" and "CFG" and is accepted |
| FileNames.AutoexecuteRejected | src/commands.rs:161-195 | "AUTOEXECUTE.CFG" has an 11-byte name and is refused as too long |
| FileNames.NameAndExtOf | src/commands.rs:161-195 | for a name, a dot and an extension followed by nothing or another dot, those are the name and extension checked |
| FileNames.LaterPiecesUnchecked | src/commands.rs:161-195 | only the first two pieces are checked: a valid name and extension followed by a dot and anything at all is accepted |
| Retries.CommandFrameNotAck | src/player_comms.rs:89-100 | a command frame is 11 bytes starting with 0x43, never the ack |
| Retries.SendCommandCount | src/player_comms.rs:89-96 | a command adds at most one send of its own frame, exactly one on success, and no send of any other frame |
| Retries.ReceiveCodeQuiet | src/commands.rs:47-49 | reading a code sends no frame other than the ack |
| Retries.RequestBlockReadCount | src/commands.rs:62-70 | the read request sends its frame at most once, exactly once on success, and no other frame |
| Retries.ChunksQuiet | src/commands.rs:72-78 | a chunk loop whose replies send nothing but acks sends nothing but acks |
| Retries.ReceiveReplyAcks | src/player_comms.rs:118-143 | a reply received adds exactly one ack to the log |
| Retries.ChunksAdd | src/commands.rs:72-78 | a completed chunk loop of count replies, each adding one ack, adds count acks |
| Retries.GetBlockAcks | src/commands.rs:72-78 | a block read acknowledges exactly blockSize / blockChunkSize replies when it succeeds, and sends nothing but acks |
| Retries.ReadAttemptQuiet | src/commands.rs:51-60 | the retried part of a read sends nothing but acks |
| Retries.RetryAtMost | src/commands.rs:34-44 | when each iteration sends a frame at most once, the loop sends it at most once per attempt |
| Retries.RetryRequests | src/commands.rs:51-60 | when the request sends the frame once on success and the retried part never sends it, giving up means exactly one send per attempt, and success means at least one |
| Retries.ReadRequestCounts | src/commands.rs:62-70 | the read request sends its frame at most once, exactly once on success, and never fails with `ReadBlock` |
| Retries.ReadAttemptCounts | src/commands.rs:51-60 | the retried part of a read never sends the read frame and never fails with `ReadBlock` |
| Retries.ReadRetriesCount | src/commands.rs:51-60 | at most one read request per attempt; exactly one per attempt when the loop gives up with `ReadBlock(n)`; at least one on success |
| Retries.ReadBlockSpareCount | src/commands.rs:51-60 | `read_block_spare` sends at most five requests, exactly five when it gives up with `ReadBlock(n)`, and at least one on success |
| Retries.ReadRequestNotRetried | src/commands.rs:51-60 | a failed request, including a negative code, ends `read_block_spare` at once with that error |
| Retries.EncodeByte5 | src/commands.rs:124-131 | byte 5 of an encoding is the fourth data byte |
| Retries.SpareFrameIsNotWriteFrame | src/commands.rs:124-131 | the encoded spare never equals a write command frame |
| Retries.SendChunkedQuiet | src/player_comms.rs:29-40 | chunked sends send no frame that does not start with 0x63 |
| Retries.RequestBlockWriteCount | src/commands.rs:106-109 | the write request sends the write frame at most once and no other frame |
| Retries.SendSpareQuiet | src/commands.rs:124-131 | `send_spare` sends nothing but the encoded spare |
| Retries.TransferQuiet | src/commands.rs:98-100 | the block, the spare and the check send only chunk frames and the encoded spare, so any other frame's count is unchanged |
| Retries.WriteTransferQuiet | src/commands.rs:96-103 | after the request, an iteration never sends the write frame again |
| Retries.WriteAttemptCount | src/commands.rs:96-103 | an iteration sends the write frame at most once |
| Retries.WriteAttemptCounts | src/commands.rs:96-103 | the iteration as a stage sends the write frame at most once; nothing happens before it |
| Retries.WriteRetriesCount | src/commands.rs:96-104 | the loop sends the write frame at most once per attempt |
| Retries.WriteBlockSpareCount | src/commands.rs:84-104 | `write_block_spare` announces the write at most five times; a bad block leaves the link untouched and is `Ok` |
| Retries.WriteAttemptErrors | src/commands.rs:96-103 | no stage of an iteration fails with `WriteBlock` |
| Retries.RetryGivesUpOnly | src/commands.rs:34-44 | if no stage fails with an error of some kind, an error of that kind from the loop is its give-up error |
| Retries.WriteGivesUp | src/commands.rs:96-104 | a `WriteBlock` error of `write_block_spare` is `WriteBlock(n)` |
| Session.WeekdayNumber | src/lib.rs:113-128 | the weekday is below 7, Monday is 0 and Sunday is 6 |
| Session.YearRem | src/lib.rs:113-128 | Rust's `year % 100`: the last two digits with the sign of the year |
| Session.AsU8 | src/lib.rs:113-128 | `as u8` keeps the value mod 256 and leaves a byte value unchanged |
| Session.TimeData | src/lib.rs:113-128 | the time data is eight bytes, with the weekday at byte 3 and a zero at byte 4 |
| Session.TimeDataLayout | src/lib.rs:113-128 | in chrono's ranges, with a year from 0 on, the array is `[year%100, month, day, weekday, 0, hour, minute, second]` |
| Session.NegativeYearWraps | src/lib.rs:113-128 | a year before 0 wraps to 0 or to 256 minus the last two digits of its magnitude |
| Session.SetTimeArgument | src/lib.rs:113-128 | the `SetTime` argument packs year, month, day and weekday, most significant first |
| Session.InitStepsFsCalls | src/lib.rs:88-98 | `Init` calls the filesystem table at most twice |
| Session.InitStepsSequence | src/lib.rs:88-98 | `Init` succeeds exactly when every step does and the current-fs check answers true; false gives `FS`; with two table calls, the deletion of "temp.tmp" comes last and decides the result; with none, the error is that of one of the first two commands |
| Session.InitFsCalls | src/lib.rs:88-98 | `Init` calls the filesystem table at most twice |
| Session.InitErrorsBeforeFs | src/lib.rs:88-98 | a failure before any table call is a link error or the slice panic |
| Session.InitFsAfter | src/lib.rs:88-98 | without a table call the `current_fs` fields are unchanged |
| Session.BBPlayer.constructor | src/lib.rs:73-81 | a new player is not initialised, with index 0, no block and an empty spare |
| Session.InitSpecSteps | src/lib.rs:88-98 | `Init` stage by stage: at each exit, its result, its link state and how many filesystem-table calls it made |
| Session.InitLink | src/lib.rs:88-98 | the five steps, stopping at the first failure, behave as `InitSpec`, and report how many filesystem-table calls they made |
| Session.BBPlayer.Init | src/lib.rs:88-98 | the link changes as `InitSpec` says; the flag becomes true exactly on success and otherwise keeps its value; the `current_fs` fields are those the table left |
| Session.BBPlayer.GetBBID | src/lib.rs:101-103 | without init, `NoConsole` and no traffic; with init, `get_bbid` |
| Session.BBPlayer.SetLED | src/lib.rs:106-108 | without init, `NoConsole` and no traffic; with init, `set_led` |
| Session.BBPlayer.SetTime | src/lib.rs:113-128 | without init, `NoConsole` and no traffic; with init, `set_time` of the time data |
| Session.BBPlayer.ListFileBlocks | src/lib.rs:131-135 | without init, `NoConsole` and no traffic; with init, one table call |
| Session.BBPlayer.ListFiles | src/lib.rs:138-140 | without init, `NoConsole` and no traffic; with init, one table call |
| Session.BBPlayer.DumpCurrentFS | src/lib.rs:143-145 | without init, `NoConsole` and no traffic; with init, one table call |
| Session.BBPlayer.DumpNAND | src/lib.rs:148-150 | without init, `NoConsole` and no traffic; with init, `dump_nand_and_spare` |
| Session.BBPlayer.ReadSingleBlock | src/lib.rs:153-155 | without init, `NoConsole` and no traffic; with init, `read_single_block` |
| Session.BBPlayer.WriteSingleBlock | src/lib.rs:160-169 | without init, `NoConsole` and no traffic; with init, `write_single_block` |
| Session.BBPlayer.ReadFile | src/lib.rs:172-174 | without init, `NoConsole` and no traffic; with init, one table call |
| Session.BBPlayer.WriteFile | src/lib.rs:177-181 | without init, `NoConsole`, no traffic and no field change; with init, one table call; the flag is kept |
| Session.BBPlayer.DeleteFile | src/lib.rs:184-188 | without init, `NoConsole`, no traffic and no field change; with init, one table call; the flag is kept |
| Session.BBPlayer.GetStats | src/lib.rs:191-193 | without init, `NoConsole` and no traffic; with init, one table call |
| Session.BBPlayer.Close | src/lib.rs:196-205 | without init, `NoConsole` and no traffic; with init, the interface is released and the flag is cleared exactly when that succeeds |
| Session.BBPlayer.Drop | src/lib.rs:208-221 | releases the interface only when initialised, and clears the flag exactly when that succeeds |

## Left out

- `src/usb.rs` (opening the device, descriptor checks, kernel-driver detach
  and attach) is only the two transfer primitives and a close that may fail,
  in `Transport`. `new` starts from an already opened handle, whose opening
  errors are not modelled.
- Device enumeration (`get_players`) is USB plumbing and is not modelled.
- The `fs` module is not part of this model. It provides `get_current_fs`,
  `delete_file_and_update`, `list_files`, `read_file`, `write_file`,
  `list_file_blocks`, `dump_current_fs` and `get_stats`. Each call is one
  `Delegate` entry in the log. Its answer, and what it leaves in the
  `current_fs` fields, are parameters. Its own traffic is not modelled.
- The `constants` module is not part of this model: the sizes are the
  `Config` parameter.
- How chrono derives the calendar fields is not modelled: `SetTime` takes
  them as integers.
- Timeouts, the `indicatif` progress bar and `eprintln!` output have no
  effect on results and are left out.
- `SignHash` and `GetSeqNo` are listed as opcodes only, since nothing
  sends them.
- `Drop` is an ordinary method, with no automatic destruction.
- Rust panics are errors (`Err(Panic(..))`) that the retry loops pass on,
  not process aborts.
- `Vec::with_capacity` is taken to reserve exactly what it is asked. The
  receive size of each packet is therefore computed from that capacity.
- A successful bulk send is taken to write all of its bytes.
- The opcode parameter of `send_command` is a `u32`. This follows the
  callers, which pass raw values (including a checksum), rather than the
  declared `Command` type.
- Filenames are their UTF-8 bytes, which is what `str::len` and
  `split('.')` measure and cut.
- PlayerComms.Outs: states only that there is one send per frame; it is
  the list of those sends, in order.
- Retries.WriteBlockSpareCount: a bound of at most five write requests, not
  an exact count, because an iteration whose ready wait fails sends no
  frame.
- Retries.WriteGivesUp: states only that a `WriteBlock` error names the
  block being written, not how many attempts led to it.
- Session.BBPlayer.Init: the `current_fs` fields are assigned once the link
  steps are done, from the count of table calls they made, rather than in
  the middle of those steps. The table's answers are parameters of the
  model and do not depend on those fields, so the order changes nothing
  the model observes.
