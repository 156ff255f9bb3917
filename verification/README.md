# Verification of the wire stack

This project models how the game's client and server exchange messages, and proves it. Three layers are modelled in the
form the sources have, and composed:

1. **Receiving**, at the client (`RecvBuffer.dfy`, `Framing.dfy`, `Packets.dfy`, `Parsers.dfy`, `Reads.dfy`,
   `Session.dfy`) and at the server (`ServerReceive.dfy`). TCP hands over arbitrary chunks; a flat array with two
   cursors collects them and is compacted in place; `OnRecv` cuts out frames `[size(2)][id(2)][payload]`; the packet
   manager parses each frame, which may throw, and queues the packets.
2. **Sending**, from the client (`SendBuffers.dfy`, `Arena.dfy`, `SendPath.dfy`, `Session.dfy`) and from the server
   (`ServerSend.dfy`). `MakeMessage` frames a message inside a chunk that other segments alias; `Send`, `RegisterSend`,
   `OnSendCompleted`, `Disconnect` and `Clear` run on any number of threads.
3. **The message codec** (`Varint.dfy`, `Utf8.dfy`, `Wire.dfy`, `Reader.dfy`, `Messages.dfy`, `MessageObjects.dfy`,
   `Dialects.dfy`). The generated C++ and C# readers, writers, size methods and merges of the messages, over varints and
   tagged records (Protocol Buffers Encoding, sections "Base 128 Varints", "Message Structure", "Length-Delimited
   Records" and "Last One Wins").

`EndToEnd.dfy` puts them together in both directions: stones go from the client's send path to the server's queue,
logins from the server's send path through the client to the game. `Bytes.dfy` holds what all share. `dafny verify
dfyconfig.toml` checks everything.

## How the model is built

Each step-by-step source method is a method over the same fields or array, proved against a function of the old state;
the laws are then proved of those functions. Concurrency is a state machine (`SendPath.Step`): an adversarial scheduler
picks which thread moves, what `SendAsync` does (completes later, completes at once, fails after some bytes, throws) and
when the socket transmits; everything under the lock is one step per observable point, while the disconnect flag is read
and exchanged without it. The methods of `Sessions.Session` are the uninterrupted calls; `SendIsARun` and
`OnSendCompletedIsARun` show that each is a run of the machine. The receiving side has a machine of its own
(`Reads.RecvStep`): completions of the posted read, failures, and other threads' `Disconnect`.

The server sends by another algorithm, with an atomic flag that says whether some thread is responsible for the queue
and with `RegisterSend` outside the lock; `ServerSend.Step` is its machine, whose WSASend takes, refuses, transmits or
breaks batches. The server receives on an object (`ServerReceive.Session`) whose invariant ties its queue and buffer to
all bytes that ever arrived. `Arena.Step` is the machine of the threads that make messages. What arrives at the client
is stated for any sender that brings frames (`EndToEnd.Brings`), and `ServerBrings` shows that the server's machine is
one.

The two protobuf runtimes are two *dialects*: the C++ one reads tags and lengths of at most five bytes and dispatches on
the field number, then on the low byte of the tag; the C# one reads ten-byte varints everywhere and dispatches on the
whole tag. One generic read loop (`Wire.ParseLoop`) carries the laws that hold for any message.

## What the proofs turned up

- `MakePacket` hands its parser the frame's *array* at index 4, not at the frame's offset
  (UnityScript/Network/Packet/ClientPacketManager.cs:95). A read that completes two frames can give the second packet
  the first one's payload (`SecondFrameGetsFirstPayload`). `MakePacketRightIff` says when that is harmless for one
  frame, and `CutIsRightIff` for a whole run of reads: for given ids, frame sizes and cut, the parsers are shown the
  right bodies whatever the payloads if and only if in every read each registered frame after the first is nothing but a
  header.
- When the wrong body does not parse, the parser's exception leaves `OnRecv`, skips `OnRead` and is swallowed in
  `OnRecvCompleted` without another read being posted (UnityScript/Network/Session.cs:225-228): the session stays
  connected and is deaf for good (`ThrowDeafens`). `CutPairDeafens` shows that any two registered frames do it when they
  arrive together and the second is the shorter one: a game's start and its first stone, if the enemy's name has three
  bytes (`StartThenStoneDeafens`, `StartIsLonger`), or a stone and the opponent's departure, unless no field of the
  stone is set (`PlayThenLeaveIff`). `ClientTakesIff` says exactly which bodies each registered parser takes.
  `ReadsOnIff` says exactly when a run of reads goes on, whatever the parsers are.
- When the server's WSASend refuses a batch with an error that `HandleError` only logs, the batch is thrown away and the
  session goes on (ServerCore/Session.cpp:197-206): the next Send transmits what came after (`DroppedThenSent`).
  `WireIsPrefixIff` says exactly when the wire is still the first accepted bytes, and `WireCarriesSurvivors` what it is
  otherwise. The same branch strands what other threads queued meanwhile until somebody sends again (`StrandedIff`,
  `StrandingRun`, `NextSendRevives`). The client's send path has neither: there a failed send is the last
  (`FailedSendIsLast`), and nothing gets stuck before one (`NothingIsStuck`).
- A disconnected session of the server sends at most the one batch that was already drained (`OneBatchAfterDisconnect`),
  and it is disconnected exactly when somebody asked for it, the connection was lost or a batch broke
  (`ServerSend.DisconnectedIff`).
- In the server's receive path neither overflow branch is ever taken, and the ranges given to memcpy never overlap
  (`ServerReceive.Session.ProcessRecv`). A read that WSARecv refuses with another error leaves the session connected
  without a read (`ServerReceive.Session.RegisterRecv`). Its loop, too, spins on a size of zero (`ServerLoopEndsIff`).
- The client's `Disconnect` leaves the lists as they are exactly when `RemoteEndPoint` or `Shutdown` throws
  (`DisconnectOnce`).
- A size field of zero can make `OnRecv` spin. With a packet handler that returns, the loop ends on exactly the buffers
  of `ReceiveLoopEndsIff`; with the client's handler, which may throw, on exactly those of `ClientLoopEndsIff`: it spins
  when the id that stands behind a reached zero size is unregistered (`ZeroSizeSpinsIff`).
- A throwing `SendAsync` leaves its batch pending with no completion to come; the session never sends again
  (`ThrowSilences`).
- `RecvBuffer.OnRead` takes negative arguments; the contract says exactly when that breaks the cursors.
- `MakeMessage` reserves 4096 bytes but frames longer messages too, as long as the chunk happens to have room; the
  contract says exactly when it throws.
- A nested message's length prefix is the number its last `ByteSizeLong` stored: `CachedPrefixRightIff` says exactly
  when the written bytes are right, and `SerializeToArray` always sizes first.
- The C++ parser refuses a written name that is not UTF-8: the round trips of messages with names are stated as
  if-and-only-ifs. What counts as UTF-8 is proved to be the encodings of sequences of Unicode scalar values
  (`ValidUtf8Iff`), for the state table of the runtime's scan as well (`IsStructurallyValidUtf8`). The scan says yes to
  everything until static initialization has run; that is left out.
- Some byte strings are read by C# and refused by C++ (`SixByteTag`); the `...AgreementIff` lemmas say exactly which,
  nested messages included.

## Assumptions

- Both hosts are little-endian. A successful completion transmits the whole batch, and so does a server's completion of
  more than zero bytes; `OnSend` only logs and cannot re-enter.
- Frames of a stream that is received cover their own header (size field at least 4), which every frame made by
  `MakeMessage` and `MakeSendBuffer` does (`FrameRoundTrip`).
- The C# protobuf runtime is not part of the repository. Its varints and its skipping of unknown fields and groups are
  taken from the encoding specification, and `ParseFrom` is taken to throw on a negative length.
- Where a name is not UTF-8, the C# reader is taken to refuse it (the parsers registered in `Packets.CLIENT`, the C#
  methods of `MessageObjects`). What is proved of packet managers and reads does not rest on this, since it holds for
  any parsers, nor do the agreement lemmas, which hold for any way of decoding names that leaves UTF-8 alone.

## Model

ServerCore/Session.cpp and ServerCore/RecvBuffer.cpp are not UTF-8 text. A row about one of them names its lines in the
last column, and cites the file that declares the buffer or the event, or that is called for each packet.

| member | source | states |
|---|---|---|
| `Parsers.ClientTakesIff` | UnityScript/Network/Packet/ClientPacketManager.cs:46-62 | the client registers exactly the ids 1, 3, 5, 6, 8, 9 and 10, and for any bytes each parser takes them if and only if they are records to the end, nested messages are, and their names are UTF-8 |
| `Parsers.ClientRefusesCuts` | UnityScript/Network/Packet/ClientPacketManager.cs:93-95 | no parser of a registered id takes a nonempty proper prefix of a written record |
| `Parsers.ClientTakesWritten` | UnityScript/Network/Packet/ClientPacketManager.cs:93-95 | each parser takes every message of its type that the server writes with UTF-8 names |
| `Parsers.LoopTakesIff` | UnityScript/Network/Protocol/Struct.cs:287-310 | a generated reader that decides record by record takes exactly the bytes that are good records to the end |
| `Parsers.ScalarIsTaken` | UnityScript/Network/Protocol/Protocol.cs:693-710 | a written enumeration or bool is taken and read as the number written |
| `Parsers.StartIsTaken` | UnityScript/Network/Protocol/Protocol.cs:1077-1096 | a written S_StartGame is taken and read as the enemy written |
| `Reads.CutPairDeafens` | UnityScript/Network/Session.cs:219-232 | any two registered frames in one read, the first one record that its parser takes, the second shorter: the first packet is made, the second parser throws, and no read is posted |
| `Reads.PlayThenLeaveIff` | UnityScript/Network/Session.cs:219-232 | an S_PlayStone and an S_LeaveGame in one read: a read is posted again if and only if the stone has no field set; otherwise the client is deaf |
| `Reads.PlayThenLeaveBytes` | Server/ServerPacketHandler.cpp:131-157 | the two frames byte by byte for the stone (1, 1, 1): 12 0 8 0 10 6 8 1 16 1 24 1 and 6 0 6 0 8 1 |
| `Reads.LeaveBodyIsRefused` | UnityScript/Network/Packet/ClientPacketManager.cs:93-95 | the body that S_LeaveGame is parsed from there, 10 6, is refused |
| `Reads.DisconnectedIff` | UnityScript/Network/Session.cs:204-234 | in every run of the receiving side the session is disconnected if and only if a read failed or some thread set the flag |
| `Reads.OneReadAfterDisconnect` | UnityScript/Network/Session.cs:179-202 | once the flag is set only the read already posted can complete, and none is posted after it |
| `Utf8.ValidUtf8Iff` | Libraries/Include/google/protobuf/stubs/structurally_valid.cc:557-564 | bytes count as UTF-8 if and only if they are the encodings of some sequence of Unicode scalar values, the encoding being computed from the code points |
| `Utf8.AcceptsIff` | Libraries/Include/google/protobuf/stubs/structurally_valid.cc:125-314 | the state table accepts exactly these bytes: no overlong forms, no surrogates, nothing above 10FFFF |
| `Utf8.IsStructurallyValidUtf8` | Libraries/Include/google/protobuf/stubs/structurally_valid.cc:387-565 | the scan, first over ASCII and then byte by byte through the table, returns true on exactly these bytes |
| `Utf8.StepOfEncode` | Libraries/Include/google/protobuf/stubs/structurally_valid.cc:125-314 | an encoded code point is recognised with its whole length, whatever follows |
| `Utf8.KoreanName` | Libraries/Include/google/protobuf/stubs/structurally_valid.cc:557-564 | the three bytes EA B0 80 are the encoding of code point AC00 and count as UTF-8 |
| `ServerSend.NothingAfterDisconnect` | ServerCore/IocpEvent.h:14-31 | (ServerCore/Session.cpp, lines 160-163) once disconnected with no batch drained or in the socket, no run sends another batch, whatever is queued |
| `ServerSend.OneBatchAfterDisconnect` | ServerCore/IocpEvent.h:14-31 | (ServerCore/Session.cpp, lines 160-208) from any reachable disconnected state at most one more batch is decided, the one that was already drained |
| `ServerSend.StepKeepsDisconnected` | ServerCore/IocpEvent.h:14-31 | (ServerCore/Session.cpp, lines 45-48) the exchange in Disconnect disconnects, nothing else does, and no step connects again |
| `ServerSend.DisconnectedIff` | ServerCore/IocpEvent.h:14-31 | (ServerCore/Session.cpp, lines 45-57) when every call is back and nothing is in flight, the session is disconnected if and only if somebody called Disconnect, WSASend reported a lost connection, or a batch broke |
| `Arena.OpensBehindTheLast` | UnityScript/Network/SendBuffer.cs:15-24 | while at least 4096 bytes of its chunk are free a thread opens right behind the last segment of that chunk; otherwise, and only then, at the front of a new one |
| `Framing.HeaderBytes` | UnityScript/Network/Packet/ClientPacketManager.cs:118-124 | the header byte by byte, lower halves first: the length is byte 0 plus 256 times byte 1, the id byte 2 plus 256 times byte 3, and the payload follows |
| `SendPath.FailsBehindAnyByte` | UnityScript/Network/Session.cs:165-176 | a send may fail behind any byte of its batch: the wire then ends there |
| `Varint.ReadsIff` | Libraries/Include/google/protobuf/parse_context.h:521-552 | a number can be read exactly when one of its first ten bytes ends it |
| `Varint.EnumIsLowHalf` | Server/Struct.pb.cc:304-309 | of any 64-bit number an enumeration keeps the low 32 bits |
| `Wire.TagsIff` | Libraries/Include/google/protobuf/parse_context.cc:340-349 | a tag can be read exactly when one of its first five bytes, in C# ten, ends it |
| `Wire.LengthLimits` | Libraries/Include/google/protobuf/parse_context.cc:351-369 | C++ takes lengths up to 2147483631, C# up to 2147483647 |
| `Wire.FixedWidths` | Libraries/Include/google/protobuf/wire_format_lite.h:104-113 | fields of fixed width take eight and four bytes |
| `Messages.BoolIsNonzero` | Server/Protocol.pb.cc:412-430 | a bool is true for every number but zero |
| `Messages.EnemyLayout` | Server/Struct.pb.cc:831-860 | the bytes of the writer for EnemyInfo, tag by tag |
| `Messages.RoomLayout` | Server/Struct.pb.cc:1063-1095 | the same for GameRoomInfo |
| `Messages.LoginLayout` | Server/Protocol.pb.cc:464-496 | the same for S_Login: success is written as 08 01 |
| `EndToEnd.MessagesArrive` | UnityScript/Network/Session.cs:14-234 | server to client: for every list of messages, every schedule of the server's threads and every cutting of the transmitted bytes, the frames received are the first of those in batches that WSASend did not refuse, in order, with their ids and payloads; reading goes on if and only if every registered body, made from the front of its array, parses; then, once the network brought everything, all of them are received, and all messages if none was refused and none waits |
| `EndToEnd.MessagesRead` | UnityScript/Network/Session.cs:14-234 | the same from the bytes brought on, for any sender whose wire carries the frames of these messages |
| `EndToEnd.PacketsArrive` | UnityScript/Network/Packet/ClientPacketManager.cs:65-101 | when in every read each registered frame after the first is nothing but a header and the payloads parse, the client reads on and queues exactly the packets of the messages received |
| `EndToEnd.GameGets` | UnityScript/Network/Packet/PacketQueue.cs:12-42 | however pushes and pops interleave, under that condition what the game pops is the first of what was brought and what waits comes next; all of it once the network brought everything |
| `EndToEnd.UnregisteredNeverDeafen` | UnityScript/Network/Packet/ClientPacketManager.cs:65-82 | messages for whose ids the client has no parser never stop it from reading on |
| `EndToEnd.MessagesReachServer` | Server/GameSession.cpp:21-25 | (ServerCore/Session.cpp, lines 231-258) client to server: whatever the schedule of the client's threads and socket and however the bytes were cut into the server's reads, the server's packet queue holds the first of the messages sent, in order, with their ids and payloads; all of them once everything was transmitted and arrived |
| `EndToEnd.LoopGets` | Server/GameSession.cpp:21-25 | (ServerCore/Session.cpp, lines 325-348) the server's loop ends on any prefix of a stream of frames, delivers a prefix of the messages, and all of them with no residue from the whole stream |
| `EndToEnd.ClientBrings` | UnityScript/Network/Session.cs:126-176 | what arrives is always a prefix of the frames handed to Send, and all of them when nothing failed and nothing waits |
| `EndToEnd.StonesArrive` | UnityScript/Network/Packet/PacketHandler.cs:119-125 | every frame in the server's queue has id 7 and reads, in either language, as the stone that was played at that position, under every schedule of the client and every cutting into the server's reads; all of them once everything was transmitted and arrived |
| `EndToEnd.ReceiveStones` | Server/GameSession.cpp:21-25 | (ServerCore/Session.cpp, lines 231-258) the reads of a server session, run one after the other: it stays connected with a read posted, and its queue holds the stones that were played |
| `EndToEnd.LoginsReachTheGame` | Server/ServerPacketHandler.cpp:90-109 | S_Login written by the C++ side comes out of the client's packet queue and C# reader as it went in, with protocol 1, for every schedule of the server's threads and every cut in which later frames of a read are nothing but headers: the i-th popped is the login at the i-th kept place; exactly those in refused batches are missing, and none if WSASend refused none |
| `EndToEnd.ServerBrings` | ServerCore/IocpEvent.h:14-31 | (ServerCore/Session.cpp, lines 160-208) under every schedule the wire carries the messages at the kept places, in order and whole up to a batch that broke; the kept places grow, and are all places when WSASend refused nothing and nothing waits |
| `EndToEnd.PrefixDelivered` | UnityScript/Network/Session.cs:14-42 | reading any prefix of a stream of whole packets hands over a prefix of those packets; well-formedness of the reads is derived, not assumed |
| `EndToEnd.ReceiveStream` | UnityScript/Network/Session.cs:179-234 | a fresh client to which part of what the server transmitted is brought has received a prefix of the messages that were not refused; it has a read posted, with room for at least one byte, if and only if all bodies parsed and the connection did not close |
| `EndToEnd.MakeSendBuffer` | Server/ServerPacketHandler.cpp:90-109 | MakeSendBuffer of ServerPacketHandler.h (lines 43-57), called here: with its casts to uint16, the buffer is exactly header and serialized S_Login up to 65531 bytes; from 65536 bytes on it is a frame of the shortened size without the payload; exactly where the cast leaves more than 65531 the sum wraps around and the header is written past the buffer |
| `ServerSend.StepKeepsInv` | ServerCore/IocpEvent.h:14-31 | (ServerCore/Session.cpp, lines 20-57) every step of a thread or the socket keeps the invariant: one thread or the socket is responsible for the queue, the flag is set meanwhile, and every accepted segment is in a decided batch, in the batch in hand or in the queue, in order |
| `ServerSend.RunKeepsInv` | ServerCore/IocpEvent.h:14-31 | (ServerCore/Session.cpp, lines 160-208) every reachable state satisfies it |
| `ServerSend.OneBatch` | ServerCore/IocpEvent.h:14-31 | (ServerCore/Session.cpp, lines 160-208) under every schedule at most one batch is between the drain and the end of its completion, and one thread or the socket has it |
| `ServerSend.Conserves` | ServerCore/IocpEvent.h:14-31 | (ServerCore/Session.cpp, lines 20-38) accepted segments are those of the decided batches, then the batch in hand, then the queue; until a batch is refused or breaks, the accepted bytes are the wire, then that batch, then the queue |
| `ServerSend.AcceptedIsHanded` | ServerCore/IocpEvent.h:14-31 | (ServerCore/Session.cpp, lines 20-28) the history of accepted segments is exactly the arguments of the Send calls in the order in which they got the lock |
| `ServerSend.WireAtPositions` | ServerCore/IocpEvent.h:14-31 | (ServerCore/Session.cpp, lines 185-208) the transmitted bytes are the bytes of the decided batches at growing positions |
| `ServerSend.InOrderIff` | ServerCore/IocpEvent.h:14-31 | (ServerCore/Session.cpp, lines 196-208) these positions are the first ones, none left out, if and only if no byte followed a batch that did not reach the wire completely |
| `ServerSend.WireIsPrefixIff` | ServerCore/IocpEvent.h:14-31 | (ServerCore/Session.cpp, lines 196-208) in every run the wire carries the first accepted bytes with none left out if and only if no byte followed a nonempty batch that WSASend refused |
| `ServerSend.DroppedThenSent` | ServerCore/IocpEvent.h:14-31 | (ServerCore/Session.cpp, lines 296-309) two segments are sent; WSASend refuses the first batch with an error that is only logged; the session stays connected and the wire is the second segment |
| `ServerSend.KeptAt` | ServerCore/IocpEvent.h:14-31 | (ServerCore/Session.cpp, lines 202-205) the segments that were not refused are those at growing places of the segment list |
| `ServerSend.AllKept` | ServerCore/IocpEvent.h:14-31 | (ServerCore/Session.cpp, lines 196-208) without a refused batch these are all places in order |
| `ServerSend.WireCarriesSurvivors` | ServerCore/IocpEvent.h:14-31 | (ServerCore/Session.cpp, lines 185-208) the wire is the segments that were not refused, whole and in order, up to a batch that broke |
| `ServerSend.BrokenIsLast` | ServerCore/IocpEvent.h:14-31 | (ServerCore/Session.cpp, lines 262-271) after a batch that broke in the socket nothing is sent |
| `ServerSend.StrandedIff` | ServerCore/IocpEvent.h:14-31 | (ServerCore/Session.cpp, lines 202-205) a step strands segments if and only if it is the reset of the flag behind a refused batch and others queued in between; only a Send ends that |
| `ServerSend.StrandedWait` | ServerCore/IocpEvent.h:14-31 | (ServerCore/Session.cpp, lines 30-38) in every run without a Send stranded segments stay where they are and nothing is sent |
| `ServerSend.WaitingIsServedOrStranded` | ServerCore/IocpEvent.h:14-31 | (ServerCore/Session.cpp, lines 282-293) while connected and unbroken, a waiting segment is stranded exactly when neither a thread nor the socket is responsible |
| `ServerSend.NextSendRevives` | ServerCore/IocpEvent.h:14-31 | (ServerCore/Session.cpp, lines 20-38) the next Send takes everything stranded along, in order |
| `ServerSend.StrandingRun` | ServerCore/IocpEvent.h:14-31 | (ServerCore/Session.cpp, lines 202-205) a run that strands a segment of a connected session with every thread gone |
| `ServerReceive.ServerLoopEndsIff` | Server/GameSession.cpp:21-25 | (ServerCore/Session.cpp, lines 325-348) the server's loop ends on exactly the buffers in which no reached size field is zero |
| `ServerReceive.CutIsFrames` | Server/GameSession.cpp:21-25 | (ServerCore/Session.cpp, lines 332-339) on well-formed streams the server's loop, which waits for four header bytes, delivers what the client's, which waits for two, does |
| `ServerReceive.CutConcat` | Server/GameSession.cpp:21-25 | (ServerCore/Session.cpp, lines 325-348) cutting commutes with appending to the residue, so it does not matter how reads split a stream; a zero size is met in the one exactly when in the other |
| `ServerReceive.CutKeepsAll` | Server/GameSession.cpp:21-25 | (ServerCore/Session.cpp, lines 325-348) the delivered frames and the residue are the input, and the residue is less than its frame and below 65535 bytes |
| `ServerReceive.RecvBuffer.constructor` | ServerCore/RecvBuffer.h:7-30 | (ServerCore/RecvBuffer.cpp, lines 8-12) ten times the size of one read, cursors at zero |
| `ServerReceive.RecvBuffer.Clean` | ServerCore/RecvBuffer.h:7-30 | (ServerCore/RecvBuffer.cpp, lines 18-36) the unread bytes stay; a residue of up to nine reads leaves room for a whole read; the ranges given to memcpy must not overlap, which the session proves at its call |
| `ServerReceive.RecvBuffer.OnRead` | ServerCore/RecvBuffer.h:7-30 | (ServerCore/RecvBuffer.cpp, lines 38-45) refused exactly above the data size; otherwise the front of the unread bytes is gone |
| `ServerReceive.RecvBuffer.OnWrite` | ServerCore/RecvBuffer.h:7-30 | (ServerCore/RecvBuffer.cpp, lines 47-54) refused exactly above the free size; otherwise the new bytes are appended |
| `ServerReceive.Session.OnRecv` | Server/GameSession.cpp:21-25 | (ServerCore/Session.cpp, lines 325-348) the loop queues exactly the frames of the data and returns how many bytes they have |
| `ServerReceive.Session.OnRecvPacket` | Server/GameSession.cpp:21-25 | a copy of the frame is queued |
| `ServerReceive.Session.Consume` | Server/GameSession.cpp:21-25 | (ServerCore/Session.cpp, lines 247-253) the frames are queued, the cursor moves behind them, and the overflow test never fails |
| `ServerReceive.Session.Disconnect` | Server/GameSession.cpp:21-25 | (ServerCore/Session.cpp, lines 45-57) only the first call queues the empty packet that tells the game |
| `ServerReceive.Session.RegisterRecv` | Server/GameSession.cpp:21-25 | (ServerCore/Session.cpp, lines 135-158) a read is posted exactly when connected and not refused; only two refusals disconnect |
| `ServerReceive.Session.ProcessRecv` | Server/GameSession.cpp:21-25 | (ServerCore/Session.cpp, lines 231-260) the session's invariant is kept: the queue holds the frames of all bytes that ever arrived, the buffer their residue, and there is room for 64 KB; for what a read can bring neither overflow branch is taken |
| `ServerReceive.Session.Arrive` | Server/GameSession.cpp:21-25 | (ServerCore/Session.cpp, lines 231-260) the same for a chunk that the kernel puts behind the write cursor |
| `ServerReceive.Session.ReceiveAll` | Server/GameSession.cpp:21-25 | (ServerCore/Session.cpp, lines 231-260) a stream cut into reads of at most 64 KB is received completely |
| `ServerReceive.GotGrows` | Server/GameSession.cpp:21-25 | (ServerCore/Session.cpp, lines 231-260) one read more, seen from all bytes that arrived and all packets queued |
| `Arena.StepKeepsInv` | UnityScript/Network/Packet/ClientPacketManager.cs:110-130 | opening, the three writes, a throwing copy and closing keep the invariant: each making thread has a chunk of its own, and published segments hold their frames |
| `Arena.SegmentsHoldTheirFrames` | UnityScript/Network/SendBuffer.cs:9-58 | under every schedule of any number of threads every published segment holds its frame, no two share a byte, and all keep their bytes however the run goes on |
| `Arena.CloseKeepsInv` | UnityScript/Network/SendBuffer.cs:26-29 | Close publishes what this thread opened and wrote, although it reads the thread's chunk anew |
| `Arena.GivenUpIff` | UnityScript/Network/Packet/ClientPacketManager.cs:110-130 | a message in the making can always go on; it is given up exactly when it ends behind byte 65535 of its chunk, never with a payload of up to 4092 bytes |
| `SendPath.DisconnectOnce` | UnityScript/Network/Session.cs:109-122 | OnDisconnected runs at most once in any run; when every caller is back it ran exactly once with the lists wiped, unless RemoteEndPoint or Shutdown threw, and the lists are wiped exactly when none did |
| `SendPath.FailedSendIsLast` | UnityScript/Network/Session.cs:165-176 | after a send that failed the wire does not change in any run |
| `SendPath.NothingIsStuck` | UnityScript/Network/Session.cs:126-176 | from every reachable state that is connected with nothing failed or thrown there is a continuation after which everything accepted is on the wire |
| `Reads.StartThenStoneDeafens` | UnityScript/Network/Session.cs:219-232 | an S_StartGame and an S_PlayStone with the shorter payload, read together: the first packet is made, the second body is a cut-off record, its parser throws, and no read is posted |
| `Reads.StartIsLonger` | Server/ServerPacketHandler.cpp:120-129 | an enemy name of three bytes makes S_StartGame the longer one for every stone on the board |
| `Wire.CutRecordIsRefused` | Server/Struct.pb.cc:244-296 | no proper prefix of a written record is read as a record by either dialect |
| `EndToEnd.LoginsParse` | UnityScript/Network/Packet/ClientPacketManager.cs:65-101 | written logins are bodies that the client's parser takes |
| `EndToEnd.AcceptedIsHanded` | UnityScript/Network/Session.cs:84-107 | the history of accepted segments is exactly the arguments of the Send calls in the order in which they got the lock |
| `EndToEnd.UnframedFramed` | UnityScript/Network/Packet/ClientPacketManager.cs:65-130 | framing then reading the header and payload back is the identity on lists of messages |
| `EndToEnd.MakeCPlayStone` | UnityScript/Network/Packet/PacketHandler.cs:119-125 | the segment holds the frame of the serialized stone with id 7, so its first four bytes are its length, 0, 7, 0; bytes published earlier do not change |
| `EndToEnd.SendMessage` | UnityScript/Network/Session.cs:99-107 | for every id and payload: writing a new message into the arena leaves segments still queued in the session intact, and the session's history gains exactly the new frame; when making the message throws, which it never does for payloads of up to 4092 bytes, the session is as before |
| `EndToEnd.SendStone` | UnityScript/Network/Session.cs:99-107 | the same for a played stone, which always fits and is framed with id 7 |
| `Framing.FramesDecompose` | UnityScript/Network/Session.cs:14-42 | what OnRecv delivers and leaves are whole packets and less than one packet, which put together are the input |
| `Framing.FramesUnique` | UnityScript/Network/Session.cs:14-42 | there is only one way to cut bytes into whole packets and a residue, and it is the one the loop finds |
| `Framing.FramesConcat` | UnityScript/Network/Session.cs:14-42 | parsing a + b is parsing a, then parsing the residue of a followed by b |
| `Framing.FramesPrefix` | UnityScript/Network/Session.cs:14-42 | a prefix of a well-formed stream is well formed and delivers a prefix of its frames |
| `Framing.ResidueIsShort` | UnityScript/Network/Session.cs:22-28 | the residue is shorter than its own frame, hence at most 65534 bytes |
| `Framing.WellFormedStops` | UnityScript/Network/Session.cs:19-36 | on well-formed input the loop ends |
| `Framing.FrameRoundTrip` | UnityScript/Network/Packet/ClientPacketManager.cs:110-130 | a written frame is a packet of length payload + 4, and id and payload are read back from it |
| `Framing.StreamOfPackets` | UnityScript/Network/Session.cs:13-42 | a stream of whole packets is parsed into exactly those packets with nothing left |
| `RecvBuffers.RecvBuffer.constructor` | UnityScript/Network/RecvBuffer.cs:27-30 | both cursors at 0, nothing unread, the capacity asked for |
| `RecvBuffers.RecvBuffer.Clean` | UnityScript/Network/RecvBuffer.cs:32-48 | the overlapping copy to the front leaves the unread bytes as they are, readPos becomes 0 and the free size capacity minus data size |
| `RecvBuffers.RecvBuffer.OnRead` | UnityScript/Network/RecvBuffer.cs:50-57 | refuses if and only if more than the data size; otherwise drops a prefix; a negative argument keeps the cursors in order if and only if it rewinds at most to 0 |
| `RecvBuffers.RecvBuffer.OnWrite` | UnityScript/Network/RecvBuffer.cs:59-66 | accepts if and only if the argument fits the free space; then appends the bytes behind the write cursor |
| `Packets.MakePacketRightIff` | UnityScript/Network/Packet/ClientPacketManager.cs:85-101 | for frames at a given offset MakePacket gives the frame's own payload for every array if and only if the offset is 0 or the payload is empty |
| `Packets.WrongArray` | UnityScript/Network/Packet/ClientPacketManager.cs:93-95 | a concrete array for every other offset and size on which it does not |
| `Packets.SecondFrameGetsFirstPayload` | UnityScript/Network/Packet/ClientPacketManager.cs:93-95 | two frames of equal length in one read: both packets carry the first payload |
| `Packets.SingleFrameIsRight` | UnityScript/Network/Packet/ClientPacketManager.cs:85-101 | a read that completes at most one frame makes the right packet |
| `Packets.PacketQueue.constructor` | UnityScript/Network/Packet/PacketQueue.cs:7-10 | the queue starts empty |
| `Packets.PacketQueue.Push` | UnityScript/Network/Packet/PacketQueue.cs:12-18 | appends |
| `Packets.PacketQueue.Pop` | UnityScript/Network/Packet/PacketQueue.cs:20-29 | removes and returns the first packet, or nothing when empty |
| `Packets.PacketQueue.PopAll` | UnityScript/Network/Packet/PacketQueue.cs:31-42 | the draining loop returns all packets in order and leaves none |
| `Packets.PoppedThenWaiting` | UnityScript/Network/Packet/PacketQueue.cs:12-42 | over any interleaving of Push, Pop and PopAll: the popped packets followed by the waiting ones are the pushed ones in order |
| `Framing.ReceiveLoopEndsIff` | UnityScript/Network/Session.cs:19-36 | for an OnRecvPacket that returns, with no assumption on the bytes: the loop ends if and only if it meets no size field of zero |
| `Framing.ZeroSizeNeverStops` | UnityScript/Network/Session.cs:26-35 | for an OnRecvPacket that returns: once a zero size is reached no number of turns ends the loop |
| `Framing.TwoZeroBytesSpin` | UnityScript/Network/Session.cs:26-35 | for an OnRecvPacket that returns: two zero bytes are a concrete input on which the loop never ends |
| `Packets.ClientLoopEndsIff` | UnityScript/Network/Session.cs:19-36 | with the client's OnRecvPacket, on any bytes: the loop ends, by a break or by an exception, if and only if it reaches no size field of zero with an unregistered id behind it |
| `Packets.ZeroSizeSpinsIff` | UnityScript/Network/Packet/ClientPacketManager.cs:65-83 | at a size field of zero the loop ends if and only if the id behind it lies outside the array or is registered, whose parser then gets a negative length |
| `Sessions.Session.constructor` | UnityScript/Network/Session.cs:49-56 | an empty, connected session with a buffer of 65535 bytes and no read posted yet |
| `Sessions.Session.OnRecv` | UnityScript/Network/Session.cs:14-42 | over the array and the advancing segment: hands over the frames of the data up to the first whose parser throws, queues the packets made before it; if none throws, all frames, and returns their summed length; ends on every well-formed buffer |
| `Sessions.Session.OnRecvPacket` | UnityScript/Network/ServerSession.cs:22-25 | one frame is handed over and, if its id is registered, its packet is pushed or its parser throws |
| `Sessions.Session.RegisterRecv` | UnityScript/Network/Session.cs:179-198 | with synchronous completions: a disconnected session reads nothing; otherwise the chunks are taken one read each up to the one that throws; a read stays posted if and only if none threw and the connection did not close |
| `Sessions.Session.OnRecvCompleted` | UnityScript/Network/Session.cs:200-234 | a read that respects the segment never takes a disconnecting branch; a failed, empty or oversized one disconnects and changes no data; after an exception the data stays unread, nothing is disconnected and no read is posted |
| `Sessions.Session.Consume` | UnityScript/Network/Session.cs:207-221 | OnWrite, OnRecv and OnRead together: frames received, residue unread, packets queued; an exception skips OnRead |
| `Reads.ChunkIndependence` | UnityScript/Network/Session.cs:14-42 | however a well-formed stream is cut into reads that fit, the frames over the whole run and the final residue are those of parsing it in one go |
| `Reads.StreamRead` | UnityScript/Network/Session.cs:184-229 | reads of a well-formed stream that fit the write segments hand over the first frames of the stream; all of them as long as no parser throws |
| `Reads.NeverStalls` | UnityScript/Network/Session.cs:179-186 | from any residue a well-formed stream can always be read to its end |
| `Reads.AlwaysRoom` | UnityScript/Network/Session.cs:52 | after any reads the residue is below the capacity, so the next write segment has at least one byte |
| `Reads.ReadsOnIff` | UnityScript/Network/Session.cs:200-229 | a run of reads goes on to its end if and only if every registered body, made from the front of its array, parses; otherwise it stops with the packets made before the first that does not |
| `Reads.ThrowDeafens` | UnityScript/Network/Session.cs:214-229 | after a read in which a body does not parse, in every further run nothing is received: no read is posted, the data stays unread, and the session stays connected until some thread disconnects it |
| `Reads.NothingWithoutRead` | UnityScript/Network/Session.cs:179-198 | without a posted read the only event that can happen is that the disconnect flag is set |
| `Reads.ReadAllIsARun` | UnityScript/Network/Session.cs:179-234 | the reads of a session are a run of the receiving machine, up to the read that throws |
| `Reads.CutIsRightIff` | UnityScript/Network/Packet/ClientPacketManager.cs:85-101 | for the ids, frame sizes and cut of a run of reads, the bodies shown to the parsers are the frames' own payloads whatever those are, if and only if in every read each registered frame after the first is nothing but a header |
| `Reads.ShapeFixesReads` | UnityScript/Network/Session.cs:14-42 | the ids and sizes of the frames and the lengths of the chunks alone decide which frames each read completes |
| `Reads.Spoil` | UnityScript/Network/Packet/ClientPacketManager.cs:93-95 | when the condition fails, payloads of the same sizes on which some body is wrong, also when the frame began in an earlier read |
| `Reads.OneFrameRepeats` | UnityScript/Network/Packet/ClientPacketManager.cs:85-101 | one frame per read makes every body its frame's own payload |
| `Packets.FrontOnlyIsRight` | UnityScript/Network/Packet/ClientPacketManager.cs:85-101 | in one read: if each registered frame after the first is nothing but a header, every body is its frame's own payload |
| `Packets.PacketManager.constructor` | UnityScript/Network/Packet/ClientPacketManager.cs:38-62 | exactly the ids 1, 3, 5, 6, 8, 9 and 10 are registered, each with its parser; Parsers.ClientTakesIff says what each of them takes |
| `Packets.PacketManager.Register` | UnityScript/Network/Packet/ClientPacketManager.cs:46-62 | adds the seven server message ids with their types |
| `Packets.PacketManager.MakePacket` | UnityScript/Network/Packet/ClientPacketManager.cs:85-101 | the packet has the frame's id and a body that starts at index 4 of the array, whatever the offset; the parser throws if and only if the C# reader of that type refuses the body |
| `Packets.PacketManager.OnRecvPacket` | UnityScript/Network/Packet/ClientPacketManager.cs:65-83 | a registered frame's packet is pushed, or its parser throws and nothing is pushed; any other frame is dropped |
| `SendBuffers.SendBuffer.constructor` | UnityScript/Network/SendBuffer.cs:39-42 | an empty chunk of the size asked for |
| `SendBuffers.SendBuffer.Open` | UnityScript/Network/SendBuffer.cs:44-50 | nothing if and only if the reserve exceeds the free size; otherwise the segment behind the used part |
| `SendBuffers.SendBuffer.Close` | UnityScript/Network/SendBuffer.cs:52-57 | returns the segment and advances the used size by its length |
| `SendBuffers.SendBufferHelper.Open` | UnityScript/Network/SendBuffer.cs:15-24 | never null for a reserve that fits a chunk; replaces the chunk when too little is free; all published segments stay pairwise disjoint |
| `SendBuffers.SendBufferHelper.Renew` | UnityScript/Network/SendBuffer.cs:17-21 | a fresh chunk for the thread; published segments keep their chunk |
| `SendBuffers.SendBufferHelper.Close` | UnityScript/Network/SendBuffer.cs:26-29 | the new segment is disjoint from every published one, within its chunk |
| `SendBuffers.SendBufferHelper.PublishedBehind` | UnityScript/Network/SendBuffer.cs:44-57 | whatever was cut from the current chunk lies before its free part |
| `SendBuffers.HeaderOverwrite` | UnityScript/Network/Packet/ClientPacketManager.cs:117-125 | the four-byte size, the id over its upper half and the payload together are the frame |
| `SendBuffers.WriteFrame` | UnityScript/Network/Packet/ClientPacketManager.cs:117-125 | the three writes put the frame at the segment and change nothing before it; copying the payload throws if and only if it runs past the chunk |
| `SendBuffers.MakeMessage` | UnityScript/Network/Packet/ClientPacketManager.cs:110-130 | for every payload: throws if and only if the frame exceeds the room that the thread's chunk has after Open(4096), never for payloads up to 4092 bytes, and on a thread's first chunk never up to 65531; otherwise the segment holds the frame; every published segment keeps its bytes, also across chunk rollover |
| `SendPath.StepKeepsInv` | UnityScript/Network/Session.cs:66-177 | the invariant over threads, lock, lists, batch in flight and wire holds after every step of any thread or of the socket |
| `SendPath.RunKeepsInv` | UnityScript/Network/Session.cs:66-177 | and so in every reachable state |
| `SendPath.SendConserves` | UnityScript/Network/Session.cs:66-177 | in every run: until lists are wiped, a send fails or SendAsync throws, accepted bytes are transmitted, then in flight, then queued, in order; always the transmitted bytes are a prefix of the accepted ones |
| `SendPath.OneBatchAndNoneStranded` | UnityScript/Network/Session.cs:84-177 | a batch is handed to the socket only when nothing is pending or in flight; while the lock is free and the session connected, a waiting segment has a pending batch ahead of it that will be completed, unless SendAsync threw |
| `SendPath.ThrowSilences` | UnityScript/Network/Session.cs:138-148 | after SendAsync threw, no run transmits another byte |
| `SendPath.NothingAfterDisconnect` | UnityScript/Network/Session.cs:109-129 | once disconnected, with no thread past the flag check and no batch inside the socket, no run transmits another byte |
| `SendPath.FlagStopsRegisterSend` | UnityScript/Network/Session.cs:126-129 | a thread that reads the flag after it was set returns without any I/O |
| `SendPath.CallsLeadToDisconnect` | UnityScript/Network/Session.cs:109-122 | after a call of Disconnect somebody is on the way through it or the flag is set |
| `SendPath.SendIsARun` | UnityScript/Network/Session.cs:84-107 | an uninterrupted Send is a run of the machine that ends with the lock free |
| `SendPath.OnSendCompletedIsARun` | UnityScript/Network/Session.cs:151-177 | so is an uninterrupted OnSendCompleted on an I/O thread, for every result and whether or not the flag is set |
| `SendPath.RegisterIsARun` | UnityScript/Network/Session.cs:126-149 | so is RegisterSend, with its synchronous completion |
| `Sessions.Session.Send` | UnityScript/Network/Session.cs:84-107 | both overloads: every segment is queued in order with the bytes it holds now; the lists and history become those of the specification; no other segment appears |
| `Sessions.Session.RegisterSend` | UnityScript/Network/Session.cs:126-149 | with the re-entrant completion under the same lock; ends for every outcome, by the length of the queue |
| `Sessions.Session.DrainQueue` | UnityScript/Network/Session.cs:131-136 | the loop moves the whole queue, in order, behind the pending list |
| `Sessions.Session.OnSendCompleted` | UnityScript/Network/Session.cs:151-177 | success empties the pending list and sends what waits; failure disconnects |
| `Sessions.Session.Disconnect` | UnityScript/Network/Session.cs:109-122 | notifies and wipes the first time, does nothing afterwards |
| `Sessions.Session.Clear` | UnityScript/Network/Session.cs:66-73 | empties both lists |
| `Varint.GroupsOfEncode` | Libraries/Include/google/protobuf/io/coded_stream.h:899-921 | reading what was written gives the number back and stops right after it, whatever follows |
| `Varint.GroupsExtend` | Libraries/Include/google/protobuf/parse_context.cc:308-338 | bytes behind a complete varint do not change it |
| `Varint.GroupsLenient` | Libraries/Include/google/protobuf/parse_context.cc:308-338 | a reader that allows more bytes reads the same |
| `Varint.ReadsOfEncode` | Libraries/Include/google/protobuf/parse_context.h:537-552 | 64-bit and 32-bit reads of a written number |
| `Varint.EnumRoundTrip` | Server/Struct.pb.cc:304-309 | every int32, negative ones as sign-extended ten-byte varints, comes back from the wire |
| `Varint.EnumSize` | Server/Struct.pb.cc:338-342 | an enum value takes one to five bytes, a negative one ten |
| `Varint.VarintSizeIsLength` | Libraries/Include/google/protobuf/io/coded_stream.h:1728-1752 | the formula (log2 * 9 + 73) / 64 is the encoded length for every 64-bit number |
| `Varint.ReadVarint64` | Libraries/Include/google/protobuf/parse_context.cc:327-338 | the loop of wrapping additions of (byte - 1) shifted computes the groups' value modulo 2^64 and refuses exactly what has no end within ten bytes |
| `Varint.ReadVarint32` | Libraries/Include/google/protobuf/parse_context.cc:308-325 | the same modulo 2^32, skipping the high groups |
| `Varint.SkipHighGroups` | Libraries/Include/google/protobuf/parse_context.cc:315-324 | groups from the sixth on do not change the value modulo 2^32 |
| `Varint.AddGroups` | Libraries/Include/google/protobuf/parse_context.cc:308-338 | the loop itself: ended, still going on, or out of bytes, with the sum so far |
| `Varint.WriteVarint` | Libraries/Include/google/protobuf/io/coded_stream.h:899-921 | writing each byte whole and switching the continuation bit on afterwards writes exactly the varint and changes nothing else |
| `Wire.ReadRecordOfEmit` | Server/Struct.pb.cc:244-329 | either reader gets back one written record and stops right after it |
| `Wire.ParseOfEmit` | Server/Struct.pb.cc:244-329 | for any message type: reading written records is applying them one by one |
| `Wire.ParseConcat` | Server/Struct.pb.cc:244-296 | for any message type and any bytes: reading a + b is reading a, then b from there |
| `Wire.ReadRecordExtend` | Server/Struct.pb.cc:244-296 | bytes behind a record do not change it |
| `Wire.FoldPermutation` | Server/Struct.pb.cc:244-296 | records that commute pairwise give the same message in every order |
| `Wire.ParseLenient` | Server/Struct.pb.cc:244-296 | what the C++ reader accepts, the C# reader reads the same, skipped groups included |
| `Wire.StrictAcceptsIff` | Libraries/Include/google/protobuf/parse_context.cc:340-369 | where C# accepts, C++ accepts if and only if every tag and length, also inside skipped groups, is one it takes |
| `Wire.ReadersAgreeIff` | Libraries/Include/google/protobuf/parse_context.cc:340-369 | for two readers that differ only on records failing a test: on bytes that the C# one accepts, the C++ one agrees if every header fits and every record passes, and refuses otherwise |
| `Reader.ReadTagAt` | Libraries/Include/google/protobuf/parse_context.cc:340-349 | the five-byte tag loop against the tag's meaning, in either dialect |
| `Reader.ReadSizeCpp` | Libraries/Include/google/protobuf/parse_context.cc:351-369 | four groups, then a fifth byte below 8 and room for the slop region: accepts exactly the lengths up to 2^31 - 17 |
| `Reader.FifthByte` | Libraries/Include/google/protobuf/parse_context.cc:358-368 | what the fifth byte makes of the sum of four groups |
| `Reader.ReadSizeAt` | Libraries/Include/google/protobuf/parse_context.cc:351-369 | lengths in either dialect |
| `Reader.ReadBlockAt` | Libraries/Include/google/protobuf/parse_context.cc:279-286 | a length-delimited value lies within the buffer or is refused |
| `Reader.Read32IsLow` | Libraries/Include/google/protobuf/parse_context.h:537-552 | the 32-bit read consumes the same bytes as the 64-bit one and keeps the low half |
| `Reader.SkipField` | Libraries/Include/google/protobuf/parse_context.h:835-880 | an unknown field is skipped by its wire type, a group up to its end tag |
| `Reader.SkipGroupAt` | Libraries/Include/google/protobuf/unknown_field_set.cc:300-346 | the records of a group are skipped, nested groups included, up to the end tag of the same field; a wrong or missing end tag is refused |
| `Reader.HandleUnusual` | Server/Struct.pb.cc:272-284 | end tags and tag zero make the reader refuse, other unexpected fields are skipped |
| `Reader.WriteRecord` | Server/Struct.pb.cc:298-329 | tag and value, or tag, length and bytes, at the target and nowhere else |
| `Reader.WriteWhen` | Server/Struct.pb.cc:303-321 | an optional field is appended to what is already written, or nothing is |
| `Messages.DispatchAgrees` | Server/Struct.pb.cc:249-271 | field number then low byte chooses the same records as the whole tag, for every 32-bit tag |
| `Messages.StoneMergeLaw` | Server/Struct.pb.cc:244-383 | reading a written StoneInfo into any message is merging it in |
| `Messages.PlayerMergeLaw` | Server/Struct.pb.cc:498-670 | the same for PlayerInfo; the C++ reader refuses it if and only if the name is not UTF-8 |
| `Messages.EnemyMergeLaw` | Server/Struct.pb.cc:783-908 | the same for EnemyInfo |
| `Messages.RoomMergeLaw` | Server/Struct.pb.cc:1008-1150 | the same for GameRoomInfo |
| `Messages.LoginMergeLaw` | Server/Protocol.pb.cc:410-553 | the same for S_Login: nested player information merges into what is there, present in either, both or neither |
| `Messages.PlayMergeLaw` | Server/Protocol.pb.cc:1600-1696 | the same for C_PlayStone |
| `Messages.StoneRoundTrip` | Server/Struct.pb.cc:244-329 | every StoneInfo comes back, in both languages |
| `Messages.PlayerRoundTripIff` | Server/Struct.pb.cc:498-605 | a PlayerInfo comes back if and only if its name is UTF-8, which Utf8.ValidUtf8Iff spells out |
| `Messages.EnemyRoundTripIff` | Server/Struct.pb.cc:783-860 | an EnemyInfo comes back if and only if its name is UTF-8 |
| `Messages.RoomRoundTrip` | Server/Struct.pb.cc:1008-1095 | every GameRoomInfo comes back |
| `Messages.LoginRoundTripIff` | Server/Protocol.pb.cc:410-496 | an S_Login comes back if and only if its player's name is UTF-8 |
| `Messages.PlayRoundTrip` | Server/Protocol.pb.cc:1600-1656 | every C_PlayStone comes back |
| `Messages.StoneConcatIsMerge` | Server/Struct.pb.cc:365-383 | two written messages back to back read as the first with the second merged in |
| `Messages.PlayerConcatIsMerge` | Server/Struct.pb.cc:649-670 | the same for PlayerInfo |
| `Messages.EnemyConcatIsMerge` | Server/Struct.pb.cc:893-908 | the same for EnemyInfo |
| `Messages.RoomConcatIsMerge` | Server/Struct.pb.cc:1132-1150 | the same for GameRoomInfo |
| `Messages.LoginConcatIsMerge` | Server/Protocol.pb.cc:534-553 | the same for S_Login, with nested player information |
| `Messages.PlayConcatIsMerge` | Server/Protocol.pb.cc:1683-1696 | the same for C_PlayStone, with a nested stone |
| `Messages.PlayerDialects` | Server/Struct.pb.cc:498-561 | every byte string that C++ reads as a PlayerInfo, C# reads the same; not only written ones |
| `Messages.LoginDialects` | Server/Protocol.pb.cc:410-462 | the same for S_Login with its nested reader |
| `Messages.StoneSize` | Server/Struct.pb.cc:331-356 | the size method gives the written length, though it adds in another order |
| `Messages.PlayerSize` | Server/Struct.pb.cc:607-640 | the same for PlayerInfo |
| `Messages.EnemySize` | Server/Struct.pb.cc:862-884 | the same for EnemyInfo |
| `Messages.RoomSize` | Server/Struct.pb.cc:1097-1123 | the same for GameRoomInfo |
| `Messages.LoginSize` | Server/Protocol.pb.cc:498-525 | the same for S_Login |
| `Messages.PlaySize` | Server/Protocol.pb.cc:1658-1674 | the same for C_PlayStone, at most 25 bytes |
| `Messages.CachedPrefixRightIff` | Server/Protocol.pb.cc:483-488 | with a given cached prefix the writer puts out the right S_Login if and only if there is no player or the prefix is the player's current size |
| `Messages.StoneLayout` | UnityScript/Network/Protocol/Struct.cs:200-216 | the bytes of the C# writer, tag by tag, are those of the C++ writer |
| `Messages.PlayerLayout` | UnityScript/Network/Protocol/Struct.cs:482-502 | the same for PlayerInfo |
| `Dialects.StoneAnyOrder` | UnityScript/Network/Protocol/Struct.cs:288-309 | every permutation of a StoneInfo's written fields, read into any message, merges that StoneInfo in, in both languages |
| `Dialects.PlayerAnyOrder` | UnityScript/Network/Protocol/Struct.cs:584-609 | the same for PlayerInfo |
| `Dialects.EnemyAnyOrder` | UnityScript/Network/Protocol/Struct.cs:818-836 | the same for EnemyInfo |
| `Dialects.RoomAnyOrder` | UnityScript/Network/Protocol/Struct.cs:1077-1098 | the same for GameRoomInfo |
| `Dialects.LoginAnyOrder` | UnityScript/Network/Protocol/Protocol.cs:304-328 | the same for S_Login, with the nested player's fields in any order as well |
| `Dialects.PlayAnyOrder` | UnityScript/Network/Protocol/Protocol.cs:1464-1480 | the same for C_PlayStone, with the nested stone's fields in any order |
| `Dialects.StoneAgreementIff` | UnityScript/Network/Protocol/Struct.cs:288-309 | on bytes that C# accepts the two readers agree if and only if no tag or length is too long for C++, which refuses otherwise |
| `Dialects.PlayerAgreementIff` | UnityScript/Network/Protocol/Struct.cs:584-609 | for any C# treatment of names that keeps UTF-8: the two readers agree if and only if headers fit and every name is UTF-8; otherwise C++ refuses |
| `Dialects.LoginAgreementIff` | UnityScript/Network/Protocol/Protocol.cs:304-328 | the same for S_Login: its own headers, and the headers and names of every nested player |
| `Dialects.PlayAgreementIff` | UnityScript/Network/Protocol/Protocol.cs:1464-1480 | the same for C_PlayStone: its own headers and those of every nested stone |
| `Dialects.SixByteTag` | Libraries/Include/google/protobuf/parse_context.cc:340-349 | a concrete input that C# reads and C++ refuses |
| `MessageObjects.StoneInfo.constructor` | Server/Struct.pb.cc:203-213 | all fields at their defaults |
| `MessageObjects.StoneInfo.ParseField` | Server/Struct.pb.cc:246-284 | one turn of the C++ read loop: cursor and fields as the specification says, or refused exactly where it refuses |
| `MessageObjects.StoneInfo.InternalParse` | Server/Struct.pb.cc:244-296 | the C++ read loop computes the specified message, or fails exactly when there is none |
| `MessageObjects.StoneInfo.InternalSerialize` | Server/Struct.pb.cc:298-329 | the writer puts exactly the serialized message at the target and nothing else |
| `MessageObjects.StoneInfo.ByteSizeLong` | Server/Struct.pb.cc:331-356 | returns and stores the written length |
| `MessageObjects.StoneInfo.MergeImpl` | Server/Struct.pb.cc:365-383 | the receiver becomes the merge of both messages |
| `MessageObjects.StoneInfo.MergeField` | UnityScript/Network/Protocol/Struct.cs:291-307 | one turn of the C# read loop |
| `MessageObjects.StoneInfo.InternalMergeFrom` | UnityScript/Network/Protocol/Struct.cs:288-309 | the C# read loop |
| `MessageObjects.StoneInfo.MergeFrom` | UnityScript/Network/Protocol/Struct.cs:240-254 | the C# merge, null-safe |
| `MessageObjects.StoneInfo.CalculateSize` | UnityScript/Network/Protocol/Struct.cs:221-236 | the C# size is the written length |
| `MessageObjects.StoneInfo.InternalWriteTo` | UnityScript/Network/Protocol/Struct.cs:200-216 | the C# writer appends exactly the serialized message |
| `MessageObjects.PlayerInfo.constructor` | Server/Struct.pb.cc:450-465 | all fields at their defaults |
| `MessageObjects.PlayerInfo.ParseField` | Server/Struct.pb.cc:500-557 | one turn of the C++ read loop, with the UTF-8 check of the name |
| `MessageObjects.PlayerInfo.InternalParse` | Server/Struct.pb.cc:498-561 | the C++ read loop |
| `MessageObjects.PlayerInfo.InternalSerialize` | Server/Struct.pb.cc:563-605 | the C++ writer |
| `MessageObjects.PlayerInfo.ByteSizeLong` | Server/Struct.pb.cc:607-640 | the C++ size, name first; stores it |
| `MessageObjects.PlayerInfo.MergeImpl` | Server/Struct.pb.cc:649-670 | the C++ merge |
| `MessageObjects.PlayerInfo.MergeField` | UnityScript/Network/Protocol/Struct.cs:587-607 | one turn of the C# read loop |
| `MessageObjects.PlayerInfo.InternalMergeFrom` | UnityScript/Network/Protocol/Struct.cs:584-609 | the C# read loop |
| `MessageObjects.PlayerInfo.MergeFrom` | UnityScript/Network/Protocol/Struct.cs:529-546 | the C# merge |
| `MessageObjects.PlayerInfo.CalculateSize` | UnityScript/Network/Protocol/Struct.cs:507-525 | the C# size |
| `MessageObjects.PlayerInfo.InternalWriteTo` | UnityScript/Network/Protocol/Struct.cs:482-502 | the C# writer |
| `MessageObjects.SLogin.ParseField` | Server/Protocol.pb.cc:412-458 | one turn of the C++ read loop; the nested player is created on first use and read in place |
| `MessageObjects.SLogin.InternalParse` | Server/Protocol.pb.cc:410-462 | the C++ read loop |
| `MessageObjects.SLogin.ByteSizeLong` | Server/Protocol.pb.cc:498-525 | the size, storing the nested size that the writer will use |
| `MessageObjects.SLogin.InternalSerialize` | Server/Protocol.pb.cc:464-496 | writes the nested message behind its cached size, whatever that is |
| `MessageObjects.SLogin.SerializeToArray` | Libraries/Include/google/protobuf/message_lite.cc:471-487 | sizes, then writes: exactly the serialized message if and only if it fits, otherwise nothing |
| `MessageObjects.SLogin.MergeImpl` | Server/Protocol.pb.cc:534-553 | the merge, creating the nested player when absent |
| `MessageObjects.SLogin.MergeField` | UnityScript/Network/Protocol/Protocol.cs:307-326 | one turn of the C# read loop |
| `MessageObjects.SLogin.InternalMergeFrom` | UnityScript/Network/Protocol/Protocol.cs:304-328 | the C# read loop |
| `MessageObjects.WriteSubmessage` | Server/Protocol.pb.cc:483-488 | tag, cached size and nested message |
| `MessageObjects.CPlayStone.ParseField` | Server/Protocol.pb.cc:1602-1631 | one turn of the C++ read loop |
| `MessageObjects.CPlayStone.InternalParse` | Server/Protocol.pb.cc:1600-1635 | the C++ read loop |
| `MessageObjects.CPlayStone.MergeImpl` | Server/Protocol.pb.cc:1683-1696 | the merge |
| `MessageObjects.CPlayStone.CalculateSize` | UnityScript/Network/Protocol/Protocol.cs:1411-1420 | the C# size is the written length, at most 25 |
| `MessageObjects.CPlayStone.ToByteArray` | UnityScript/Network/Protocol/Protocol.cs:1398-1407 | the bytes of the C# writer |

## Left out

- Sockets, SocketAsyncEventArgs, Connector, listeners: the operating system appears only as chunk contents, completion results and scheduling. Sends that report success for part of a batch are not modelled.
- A throwing ReceiveAsync: RegisterRecv catches and logs it, and no read is posted, as after a throwing parser.
- Received frames with a size field below 4: a precondition of the receiving methods; what the loop does on any bytes is characterised by ClientLoopEndsIff.
- HandlePacket, the handlers, game rooms, UI, managers and databases: they act on messages after the queue.
- The server's connecting, reconnecting and socket reuse (RegisterConnect, ProcessConnect, RegisterDisconnect), IocpCore and Service: a session is modelled from the moment it is connected, and its events are dispatched one by one.
- The server's packet queue is shared by all sessions; ServerReceive.Session keeps one session's part of it, and what the game does with it is left out.
- The server's BufferReader and BufferWriter, and SendBuffer as an object of its own: EndToEnd.MakeSendBuffer has its array.
- ServerReceive.Session.ProcessRecv: streams in which the loop would reach a size field of zero are excluded, since it does not return on them; ServerReceive.ServerLoopEndsIff says which they are. Posting a read takes the flag as it stands then; a Disconnect by another thread is before or after the call.
- EnemyInfo and GameRoomInfo as objects, the C# MergeFrom, CalculateSize and InternalWriteTo of S_Login, and the messages with one scalar field: the same code shapes again; EnemyInfo and GameRoomInfo are modelled as values.
- Reader.HandleUnusual: unknown fields are skipped and not kept, so a message does not write them back.
- MessageObjects.StoneInfo.ParseField: unknown fields are skipped and not kept.
- MessageObjects.StoneInfo.InternalParse: unknown fields are skipped and not kept.
- MessageObjects.StoneInfo.MergeField: unknown fields are skipped and not kept.
- MessageObjects.StoneInfo.InternalMergeFrom: unknown fields are skipped and not kept.
- MessageObjects.PlayerInfo.ParseField: unknown fields are skipped and not kept.
- MessageObjects.PlayerInfo.InternalParse: unknown fields are skipped and not kept.
- MessageObjects.PlayerInfo.MergeField: unknown fields are skipped and not kept.
- MessageObjects.PlayerInfo.InternalMergeFrom: unknown fields are skipped and not kept.
- MessageObjects.SLogin.ParseField: unknown fields are skipped and not kept.
- MessageObjects.SLogin.InternalParse: unknown fields are skipped and not kept.
- MessageObjects.SLogin.MergeField: unknown fields are skipped and not kept.
- MessageObjects.SLogin.InternalMergeFrom: unknown fields are skipped and not kept.
- MessageObjects.CPlayStone.ParseField: unknown fields are skipped and not kept.
- MessageObjects.CPlayStone.InternalParse: unknown fields are skipped and not kept.
- Reader.SkipField: groups may nest to any depth, where the runtimes stop at their recursion limits.
- Reader.SkipGroupAt: the same.
- Wire.ReadPayload: the same.
- Names are their UTF-8 bytes, not UTF-16 strings.
- Arenas, reflection and descriptors of the protobuf runtimes.
- SendBuffers.MakeMessage: one uninterrupted call on the heap; interleavings of the steps of any number of calls are proved on the state machine of Arena.
- Sessions.Session.Disconnect: RemoteEndPoint and Shutdown do not throw in the method; SendPath has the step in which they do.
- Sessions.Session.Send: the method is one uninterrupted call; interleavings are proved on the state machine of SendPath.
- Sessions.Session.RegisterRecv: the receive side runs on one thread at a time, as its single outstanding ReceiveAsync makes it; the flag is read as it stands when the call starts, and other threads setting it are events of the machine in Reads.
