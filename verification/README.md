# A verified model of the mms media server

The server takes in live streams over RTMP, fans them out to RTMP and HTTP-FLV players and
to browsers over WebRTC. This project models the parts of it where several pieces of state
have to fit together, and proves what they promise, for all inputs, runs or reachable states.

- **RTMP chunking** (`RtmpChunkStream`, `RtmpChunkSender`, `RtmpServerSender`,
  `RtmpChunkProtocol`, `RtmpMessageWriter`). The receive loop as a function on bytes; a
  sender that interleaves chunk streams and compresses headers as it likes, which the
  receiver simulates up to the first message that the session behind it refuses; the server's own sender; and the objects of the program, with moved
  messages and recycled chunks, which refine the functions. The last step is a session end
  to end over both objects.
- **The send lock** (`RtmpSendLock`). Synchronous senders that poll a flag and an
  asynchronous queue with the drain it spawns, as steps between suspension points.
- **Fan-out** (`MediaFanOut`). The packet ring, the choice of a join point and readers that
  are woken, over an unbounded log.
- **DTLS** (`DtlsHandshake`, `DtlsHonestRuns`, `DtlsSession`, `DtlsRecord`, `TlsPrf`). The
  handshake as a function of the arriving record, all runs with an honest client, which has
  its own key derivation, over an unreliable network, the session object that refines the function, protected records and
  the key derivation.
- **AMF0** (`Amf0`), **STUN** (`Stun`) with its CRC (`Crc32`), and the **FLV muxer**
  (`FlvMux`).

`Bytes` holds big-endian numbers and two's complement. Hash functions, HMAC, AES and RSA are
function values that the model is given. Two laws are assumed of them where a statement says
so: decryption undoes encryption, and the hash tells two given transcripts apart. Their keys
and all random bytes are parameters too. Sockets are a number of bytes that will be accepted,
or steps that may fail.

## Findings

Some promises turn out to hold only under a condition. The exact condition is proved in each
case.

- A type-1 chunk header that changes the length of a message under construction can make the
  receiver write outside its buffer, and so does every chunk read with a chunk size that a
  Set Chunk Size message made negative (`FaultIff`, `FaultAnywhereIff`; witnesses
  `LengthChangeFaults`, `NegativeChunkSizeFaults`).
- Chunk stream identifiers from 64 up are read as chunk stream 0 (`BasicHeaderExact`), and
  extended timestamps are written and read in different places (`FirstHeaderExact`,
  `ContinuationExact`, `ContinuationDataIff`).
- The message stream identifier is written and read with its highest byte first; section 5.3.1.2.5
  of the RTMP specification 1.0 has the lowest first. The two agree exactly when the four bytes
  are a palindrome (`StreamIdPrescribedIff`, witness `StreamOneMisread`).
- A type-3 header that starts a new message repeats the timestamp; section 5.3.1.2.4 of the
  RTMP specification 1.0 would add the delta again. The model follows the code; the two agree
  exactly when the delta is 0 (`PrescribedIff`, witness `RepeatedDeltaIsLost`).
- Packets that do not decode are stored but wake nobody, so enough of them in a row overtake
  every reader (`JunkOvertakesIff`).
- A new video reader that finds no keyframe two seconds old has no defined start
  (`NoStartIff`, witness `NoStartYet`).
- A DTLS record of more than 65483 bytes has a wrong length field (`LengthFieldIff`); a
  premaster secret of fewer than 48 bytes is reported as success (`KeyExchangeIff`, witness
  `EmptySecretAccepted`).
- AMF0 keys are copied without asking for room (`OverrunIff`, witness `ShortBufferOverrun`),
  and an object at the end of the data needs no end marker (`CutDecodesIff`, witness
  `MarkerAlone`).
- STUN user names with colons are not recovered (`UserReadBackIff`); the padding of a user name
  is stepped over unchecked, so that a buffer ending there is overrun (`EncodeOutcome`); and
  eight attribute types are never stepped over by the decoder (`NeverEndsIff`, witness
  `ResponseAddressNeverEnds`).
- The FLV muxer drops its flag behind a batch without looking at the queue again, so messages
  queued meanwhile wait for the next activation (`WaitingIff`, witness `ActivationLost`).
- The CRC of an empty buffer is all ones rather than zero (`GetCrc32`).

## Model

| member | source | states |
|---|---|---|
| RtmpChunkStream.FaultAnywhereIff | src/server/rtmp/rtmp_protocol/rtmp_chunk_protocol.cpp:200-364 | in every state whatever, a chunk writes outside its buffer if and only if its headers are read and either the chunk size is negative or the message it continues does not fit its buffer |
| RtmpChunkStream.FaultIff | src/server/rtmp/rtmp_protocol/rtmp_chunk_protocol.cpp:200-364 | as long as every buffer has the announced length, that is if and only if a type-1 header changes the length of a message under construction so that its bytes do not fit, or the chunk size in force is negative |
| RtmpChunkStream.LengthChangeFaults | src/server/rtmp/rtmp_protocol/rtmp_chunk_protocol.cpp:292-364 | a wire, from the start of a connection, on which a changed length leads outside the buffer |
| RtmpChunkStream.NegativeChunkSizeFaults | src/server/rtmp/rtmp_protocol/rtmp_chunk_protocol.cpp:408-416 | a wire, from the start of a connection, on which a Set Chunk Size of 0x80000000 does |
| RtmpChunkStream.ThreeByteForm | src/server/rtmp/rtmp_protocol/rtmp_chunk_protocol.cpp:219-226 | the three-byte basic header of section 5.3.1.1 of the RTMP specification is read as its chunk stream, for every identifier from 64 to 65599 |
| RtmpChunkStream.StreamIdPrescribedIff | src/server/rtmp/rtmp_protocol/rtmp_chunk_protocol.cpp:271-279 | the message stream identifier of a type-0 header is the little-endian number of section 5.3.1.2.5 of the RTMP specification if and only if its four bytes read the same in both directions |
| RtmpChunkStream.StreamOneMisread | src/server/rtmp/rtmp_protocol/rtmp_chunk_protocol.cpp:271-279 | a header for message stream 1 that is read as 0x1000000 |
| RtmpChunkStream.LengthLimit | src/server/rtmp/rtmp_protocol/rtmp_chunk_protocol.cpp:351-353 | a first chunk is refused with -14 if and only if it announces 2 MiB or more |
| RtmpChunkStream.AbortDropsMessage | src/server/rtmp/rtmp_protocol/rtmp_chunk_protocol.cpp:418-429 | a wire, from the start of a connection, whose Abort drops a half-received message: nothing is delivered and the chunk stream is gone |
| RtmpChunkStream.StepKeepsBuffers | src/server/rtmp/rtmp_protocol/rtmp_chunk_protocol.cpp:200-394 | a chunk that keeps announced lengths, read with a chunk size that is not negative, never writes outside its buffer and keeps the buffer invariant |
| RtmpChunkStream.RunKeepsBuffers | src/server/rtmp/rtmp_protocol/rtmp_chunk_protocol.cpp:200-394 | the same over every run of such chunks |
| RtmpChunkStream.ChunkIsLocal | src/server/rtmp/rtmp_protocol/rtmp_chunk_protocol.cpp:205-364 | a chunk is read the same way whatever follows it on the wire |
| RtmpChunkStream.OtherStreamUnchanged | src/server/rtmp/rtmp_protocol/rtmp_chunk_protocol.cpp:228-364 | a chunk of one chunk stream changes nothing in another and delivers nothing on it, apart from an Abort message naming it |
| RtmpChunkStream.Independence | src/server/rtmp/rtmp_protocol/rtmp_chunk_protocol.cpp:200-429 | what is delivered on a chunk stream, in a run over any bytes, is what the chunk stream's own items give by themselves: interleaving with other chunk streams cannot be observed |
| RtmpChunkStream.SameItemsSameDeliveries | src/server/rtmp/rtmp_protocol/rtmp_chunk_protocol.cpp:200-429 | two wires that agree on one chunk stream deliver the same messages on it |
| RtmpChunkSender.HeaderReadBack | src/server/rtmp/rtmp_protocol/rtmp_chunk_protocol.cpp:246-343 | each of the four header forms is read back as the full header it abbreviates |
| RtmpChunkSender.StepSimulates | src/server/rtmp/rtmp_protocol/rtmp_chunk_protocol.cpp:200-394 | simulation: whatever chunk an interleaving sender emits, the receiver moves to the mirror image of the sender's next state and delivers exactly what was finished, or stops with -18 when the session refuses it |
| RtmpChunkSender.InterleavedRoundTrip | src/server/rtmp/rtmp_protocol/rtmp_chunk_protocol.cpp:200-394 | over every run of an interleaving sender that mixes chunk streams and header forms, and whatever the session behind the receiver accepts, the receiver delivers the finished messages in order up to the first one refused, and ends with -18 there or with -1 at the end, in the mirror state of that moment |
| RtmpChunkSender.Conservation | src/server/rtmp/rtmp_protocol/rtmp_chunk_protocol.cpp:200-394 | on every chunk stream, delivered plus in flight equals in flight before plus started: no message is lost, doubled or reordered |
| RtmpChunkSender.DeliveredPerStream | src/server/rtmp/rtmp_protocol/rtmp_chunk_protocol.cpp:200-394 | on a chunk stream without aborts, in a session that refuses nothing, the delivered messages are exactly the started ones |
| RtmpChunkSender.DecompressionPreservesMeaning | src/server/rtmp/rtmp_protocol/rtmp_chunk_protocol.cpp:292-343 | a run with compressed headers and the same run with every header written in full have the same outcome, whatever the session accepts |
| RtmpChunkSender.HeaderInForce | src/server/rtmp/rtmp_protocol/rtmp_chunk_protocol.cpp:292-343 | after any run of compressed headers the timestamp is the base plus the sum of the deltas, and length and type are the last explicit ones |
| RtmpChunkSender.PrescribedIff | src/server/rtmp/rtmp_protocol/rtmp_chunk_protocol.cpp:338-343 | over every run, the messages of a chunk stream have the timestamps that section 5.3.1.2.4 of the RTMP specification prescribes if and only if no type-3 header starts a message while a delta other than 0 is in force |
| RtmpChunkSender.RepeatedDeltaIsLost | src/server/rtmp/rtmp_protocol/rtmp_chunk_protocol.cpp:338-343 | a run whose third message is delivered at 40 where 80 is prescribed |
| RtmpServerSender.BasicHeaderExact | src/server/rtmp/rtmp_protocol/rtmp_chunk_protocol.cpp:103-128 | the basic header the server writes is read back as its chunk stream if and only if the identifier is 2..63; from 64 on it is read as chunk stream 0 |
| RtmpServerSender.FirstHeaderExact | src/server/rtmp/rtmp_protocol/rtmp_chunk_protocol.cpp:129-180 | the header of a first chunk is read back if and only if its timestamp is below 0xffffff, or is extended and has all of its low 24 bits set |
| RtmpServerSender.ContinuationExact | src/server/rtmp/rtmp_protocol/rtmp_chunk_protocol.cpp:171-180 | the header of a continuation chunk leaves the state alone if and only if there is no extended timestamp |
| RtmpServerSender.ContinuationDataIff | src/server/rtmp/rtmp_protocol/rtmp_chunk_protocol.cpp:171-184 | a continuation chunk adds the right bytes to the message if and only if, read without its extended timestamp, it begins with them |
| RtmpServerSender.SingleChunkExact | src/server/rtmp/rtmp_protocol/rtmp_chunk_protocol.cpp:73-193 | a message sent in one chunk is recovered by the peer if and only if its timestamp is readable |
| RtmpServerSender.MessageRun | src/server/rtmp/rtmp_protocol/rtmp_chunk_protocol.cpp:73-193 | the bytes written for a message are a run of the interleaving sender |
| RtmpServerSender.SessionRoundTrip | src/server/rtmp/rtmp_protocol/rtmp_chunk_protocol.cpp:73-193 | any sequence of messages the server sends is recovered by the peer, in order, with nothing left over; a peer that refuses one has been given all up to that one and stops with -18 |
| RtmpServerSender.ChunkSizeHandOver | src/server/rtmp/rtmp_session.cpp:116-130 | the reply to connect announces a chunk size in chunks already cut to it; for every size from 5 up the peer, starting at 128, recovers the two messages before it and everything after, up to the first one it refuses |
| RtmpServerSender.SetChunkSizeReadBack | src/server/rtmp/rtmp_message/chunk_message/rtmp_set_chunk_size_message.hpp:40-60 | the Set Chunk Size payload carries its argument through encode and decode |
| RtmpChunkProtocol.RtmpMessage.Append | src/server/rtmp/rtmp_protocol/rtmp_define.hpp:194-219 | bytes go behind those already in the buffer, inside its bounds |
| RtmpChunkProtocol.RtmpChunk.MoveFrom | src/server/rtmp/rtmp_protocol/rtmp_define.hpp:229-243 | the assignment of chunks moves the message over and leaves its source without one |
| RtmpChunkProtocol.RtmpChunk.ReadFull | src/server/rtmp/rtmp_protocol/rtmp_chunk_protocol.cpp:246-291 | a type-0 header read into a cleared chunk object gives the header that `ReadHeader` gives |
| RtmpChunkProtocol.RtmpChunk.ReadCompressed | src/server/rtmp/rtmp_protocol/rtmp_chunk_protocol.cpp:292-343 | the compressed headers take over the previous chunk's fields and message, or fail with the source's codes |
| RtmpChunkProtocol.Protocol.constructor | src/server/rtmp/rtmp_protocol/rtmp_chunk_protocol.hpp:83-90 | a new protocol object shows the initial receiver |
| RtmpChunkProtocol.Protocol.TakeChunk | src/server/rtmp/rtmp_protocol/rtmp_chunk_protocol.cpp:228-244 | the chunk object for a chunk stream comes cleared from the cache or is new, and is in nobody else's hands |
| RtmpChunkProtocol.Protocol.Install | src/server/rtmp/rtmp_protocol/rtmp_chunk_protocol.cpp:344-349 | the new chunk object is in use and the replaced one is in no table |
| RtmpChunkProtocol.Protocol.Recycle | src/server/rtmp/rtmp_protocol/rtmp_chunk_protocol.cpp:344-349 | the replaced object is cleared and cached without changing what the protocol shows |
| RtmpChunkProtocol.Protocol.ReadPayloadOf | src/server/rtmp/rtmp_protocol/rtmp_chunk_protocol.cpp:351-364 | reading a payload into the heap buffers does what `ReadPayload` says |
| RtmpChunkProtocol.Protocol.FinishMessage | src/server/rtmp/rtmp_protocol/rtmp_chunk_protocol.cpp:366-429 | chunk control and Abort are carried out, other messages handed up, and a refusal ends the loop, as `Finish` says |
| RtmpChunkProtocol.Protocol.RecvChunk | src/server/rtmp/rtmp_protocol/rtmp_chunk_protocol.cpp:200-394 | one turn of the receive loop over heap objects, with moved messages and recycled chunks, refines `Step` |
| RtmpChunkProtocol.Protocol.CycleRecv | src/server/rtmp/rtmp_protocol/rtmp_chunk_protocol.cpp:200-394 | the receive loop delivers, ends and reports exactly as `Run` says |
| RtmpMessageWriter.Connection.Send | src/base/network/tcp_socket.cpp:31-43 | a send writes all its bytes, or some first part of them and fails |
| RtmpMessageWriter.Writer.SendRtmpMessage | src/server/rtmp/rtmp_protocol/rtmp_chunk_protocol.cpp:73-193 | on success exactly the bytes of `ChunkBytes` are appended, on failure a prefix of them; the previous message of the chunk stream is remembered |
| RtmpMessageWriter.Session | src/server/rtmp/rtmp_protocol/rtmp_chunk_protocol.cpp:73-394 | end to end over both objects: everything is written if and only if the connection takes that many bytes, and then the peer's object hands up exactly the messages, up to the first one refused, and reports -1 or -18 accordingly |
| RtmpSendLock.StepSafe | src/server/rtmp/rtmp_protocol/rtmp_chunk_protocol.cpp:45-66 | every step of every sender, poller and drain keeps: at most one inside, the flag tells, FIFO, no lost wake-up, whole messages on the wire |
| RtmpSendLock.EveryRunSafe | src/server/rtmp/rtmp_protocol/rtmp_chunk_protocol.cpp:45-198 | the same in every interleaving, at every scheduling point |
| RtmpSendLock.RunAccounts | src/server/rtmp/rtmp_protocol/rtmp_chunk_protocol.cpp:45-198 | the same accounts between any two states of a run |
| RtmpSendLock.NothingMissing | src/server/rtmp/rtmp_protocol/rtmp_chunk_protocol.cpp:45-198 | in every run, the messages handed to the queue are exactly those drained plus those waiting, in order, every synchronous call has its task, and the log is made of both and nothing else |
| RtmpSendLock.WorkHasAHolder | src/server/rtmp/rtmp_protocol/rtmp_chunk_protocol.cpp:45-66 | queued work always has somebody able to take a step for it, unless the drain's send failed |
| RtmpSendLock.HolderMakesProgress | src/server/rtmp/rtmp_protocol/rtmp_chunk_protocol.cpp:45-66 | each such step brings the queue closer to empty |
| RtmpSendLock.QueueDrains | src/server/rtmp/rtmp_protocol/rtmp_chunk_protocol.cpp:45-66 | from every reachable state there is a run of the holder alone that empties the queue, in order |
| RtmpSendLock.PeerRecoversLog | src/server/rtmp/rtmp_protocol/rtmp_chunk_protocol.hpp:45-62 | whenever nobody is in the middle of a message, a peer recovers exactly the messages logged as sent, in that order, up to the first one it refuses |
| MediaFanOut.HeldIff | src/base/sequence_pkt_buf.hpp:15-25 | a ring slot holds the packet asked for if and only if fewer than a ring's worth have been published since |
| MediaFanOut.SequencePktBuf.AddPkt | src/base/sequence_pkt_buf.hpp:15-20 | the unbounded log grows by the packet and the index is its number |
| MediaFanOut.SequencePktBuf.GetPkt | src/base/sequence_pkt_buf.hpp:22-25 | a read returns the newest packet of its slot |
| MediaFanOut.EveryFeed | src/core/rtmp_media_source.hpp:37-94 | after any packets, the remembered keyframe numbers, the video timestamp, both sequence headers and the readiness are those read off the whole log |
| MediaFanOut.KeyNumbersAre | src/core/rtmp_media_source.hpp:73-75 | the keyframe numbers of a log are in ascending order and are those of exactly the decoded video packets that are keyframes and not sequence headers |
| MediaFanOut.HeadersFromLog | src/core/rtmp_media_source.hpp:122-132 | what a ready source sends first is the metadata and the last sequence header of each medium it has, and none is missing |
| MediaFanOut.WakeRate | src/core/rtmp_media_source.hpp:56-61 | a decoded packet wakes the readers always from number 300 on, and before that exactly one number in any five does; other packets never do |
| MediaFanOut.JoinPoint | src/core/rtmp_media_source.hpp:122-176 | the join point of a new reader is a keyframe of the log; it is given first if and only if the ring still holds it, and then it is the newest remembered one at least two seconds older than the last video packet of the log |
| MediaFanOut.NoStartIff | src/core/rtmp_media_source.hpp:135-148 | a new video reader has no keyframe to start from if and only if none that is remembered is old enough |
| MediaFanOut.NoStartYet | src/core/rtmp_media_source.hpp:135-148 | a ready source for which that is so |
| MediaFanOut.ReadExactIff | src/core/rtmp_media_source.hpp:122-176 | a read returns the packets asked for if and only if the first of them is still in the ring |
| MediaFanOut.RtmpMediaSource.OnPacket | src/core/rtmp_media_source.hpp:37-94 | publishing stores the packet, notes keyframes, sequence headers and the video timestamp so that they are those of the log, and wakes readers when the source does |
| MediaFanOut.RtmpMediaSource.GetPkts | src/core/rtmp_media_source.hpp:122-176 | what a new or continuing reader is given and where it goes on |
| MediaFanOut.RtmpMediaSink.Active | src/core/rtmp_media_sink.cpp:6-22 | an activation reads a batch and sends it on up to the first message that is not accepted |
| MediaFanOut.ActivationGaplessIff | src/core/rtmp_media_sink.cpp:6-22 | an activation keeps the reader gap-free if and only if it finds at most a ring's worth unread |
| MediaFanOut.NeverOvertaken | src/core/rtmp_media_source.hpp:37-176 | over every run, whatever is delayed and whatever fails to decode, a reader has been given a gap-free, duplicate-free piece of the unbounded log if and only if no activation found more than a ring's worth unread |
| MediaFanOut.SteadyReaderNeverOvertaken | src/core/rtmp_media_source.hpp:37-176 | a reader that joins inside the ring and is activated at least once for every ten packets, decoded or not, is given such a piece for ever, starting at a keyframe, and is never further behind than the ring |
| MediaFanOut.PromptReaderNeverOvertaken | src/core/rtmp_media_source.hpp:37-176 | the source's own rule for waking readers, carried out promptly, is enough for that |
| MediaFanOut.Follow | src/core/rtmp_media_sink.cpp:6-22 | the source and sink objects driven through any run end as the run says, and a steady run leaves sent on exactly the piece of the log from the keyframe on |
| MediaFanOut.JunkOvertakesIff | src/core/rtmp_media_source.hpp:37-94 | packets that do not decode are stored without waking anyone: after m of them a reader with u unread is still served if and only if u + m fits the ring |
| TlsPrf.Prf | src/server/dtls/tls_prf.cpp:17-32 | the loop returns the first n bytes of P_SHA256 of section 5 of RFC 5246, for every n |
| TlsPrf.TwoBlocks | src/server/dtls/tls_prf.cpp:17-32 | its first 64 bytes written out as in section 5 of RFC 5246 |
| TlsPrf.AnyEnoughBlocks | src/server/dtls/tls_prf.cpp:17-32 | those bytes do not depend on how many blocks are computed |
| TlsPrf.ShorterIsPrefix | src/server/dtls/tls_prf.cpp:17-32 | a shorter output is a prefix of a longer one |
| TlsPrf.CipherSuite.Init | src/server/dtls/dtls_define.cpp:531-552 | six adjacent slices of lengths 20, 20, 16, 16, 16, 16 cover the key block of section 6.3 of RFC 5246 without gap or overlap |
| TlsPrf.SplitSrtp | src/server/webrtc/dtls/dtls_session.cpp:416-435 | the SRTP block is the two keys and then the two salts; each direction gets its own key followed by its own salt |
| DtlsHandshake.FirstWanted | src/server/webrtc/dtls/dtls_session.cpp:137-159 | the search finds the first queued record of the wanted type, and none before it is of that type |
| DtlsHandshake.InsertKeeps | src/server/webrtc/dtls/dtls_session.cpp:96-99 | early records are kept in ascending order of their numbers, and a second one with the same number is dropped |
| DtlsHandshake.DrainNeverRejects | src/server/webrtc/dtls/dtls_session.cpp:101-114 | whatever the early records do, the datagram is not refused because of them |
| DtlsHandshake.KeyExchangeIff | src/server/webrtc/dtls/dtls_session.cpp:350-441 | a key exchange is reported as a success without effect if and only if the secret decrypts to fewer than 48 bytes, refused if and only if it does not decrypt or has another version, and carried out otherwise |
| DtlsHandshake.StillWaitingIff | src/server/webrtc/dtls/dtls_session.cpp:350-441 | so a waiting session accepts the record and still waits for the same number if and only if the secret is too short |
| DtlsHandshake.EmptySecretAccepted | src/server/webrtc/dtls/dtls_session.cpp:362-368 | an empty secret is such a case |
| DtlsHonestRuns.SameKeys | src/server/webrtc/dtls/dtls_session.cpp:376-435 | the session's master secret, cipher suite keys and SRTP keys are those a client derives from sections 8.1 and 6.3 of RFC 5246 and section 4.2 of RFC 5764 |
| DtlsHonestRuns.SameFinished | src/server/webrtc/dtls/dtls_session.cpp:471-544 | and so are the verify data of both Finished messages (section 7.4.9 of RFC 5246) |
| DtlsSession.Session.ProcessClientHello | src/server/webrtc/dtls/dtls_session.cpp:161-200 | the first hello is answered under the current number and the cookie stage takes over |
| DtlsSession.Session.ProcessClientHelloWithCookie | src/server/webrtc/dtls/dtls_session.cpp:226-324 | three recorded messages go out under consecutive numbers and the key exchange stage takes over |
| DtlsSession.Session.ProcessClientKeyExchange | src/server/webrtc/dtls/dtls_session.cpp:350-441 | master secret, cipher suite keys and SRTP keys are derived, or the session is left alone with the source's verdict; `SameKeys` ties them to the client's own derivation |
| DtlsSession.Session.ProcessChangeCipherSpec | src/server/webrtc/dtls/dtls_session.cpp:462-469 | the cipher state changes and the last stage takes over |
| DtlsSession.Session.RequireRecord | src/server/webrtc/dtls/dtls_session.cpp:443-460 | the wanted record is taken out of the queue, which is otherwise unchanged |
| DtlsSession.Session.DrainQueue | src/server/webrtc/dtls/dtls_session.cpp:101-114 | the loop over early records does what `Drain` says |
| DtlsSession.Session.NoteHandshake | src/server/webrtc/dtls/dtls_session.cpp:56-79 | the first handshake message of each type enters the transcript |
| DtlsSession.Session.ProcessPlain | src/server/webrtc/dtls/dtls_session.cpp:46-114 | an epoch-0 record is dropped, handled or queued by its number |
| DtlsSession.Session.ProcessFinished | src/server/webrtc/dtls/dtls_session.cpp:471-544 | the verify data is compared over the transcript so far and both replies go out |
| DtlsSession.Session.ProcessDtlsPacket | src/server/webrtc/dtls/dtls_session.cpp:40-135 | the object's loop over the parsed records of a datagram refines `Deliver` |
| DtlsSession.Converse | src/server/webrtc/dtls/dtls_session.cpp:40-135 | a session object driven through any run with an honest client has run its stages in order, holds the expected transcript, the client's keys and the right numbers |
| DtlsHonestRuns.EveryStep | src/server/webrtc/dtls/dtls_session.cpp:40-135 | from each of the expected states, each record the honest client can have sent leads to an expected state with the stated verdict |
| DtlsHonestRuns.EveryRun | src/server/webrtc/dtls/dtls_session.cpp:40-135 | over a network that loses, repeats, reorders and packs records freely, the session is always in one of the expected states; this asks nothing of the hash as long as Finished is delivered at most once |
| DtlsHonestRuns.SafeRun | src/server/webrtc/dtls/dtls_session.cpp:40-135 | in every such run the stages run in order and each at most once, the transcript is a whole number of the messages of section 4.2.6 of RFC 6347 until Finished is accepted, the SRTP and cipher suite keys are those the client derives for itself, record numbers of epoch 0 are 0, 1, 2, ... and message numbers count handshake messages from 0, so that the constant 4 of the Finished message is the number already sent |
| DtlsHonestRuns.NeverRefused | src/server/webrtc/dtls/dtls_session.cpp:471-479 | nothing an honest client sends is refused or read as a message of another type; its Finished record, computed by the client for itself, is accepted the first time and only repetitions are turned away, without effect |
| DtlsHonestRuns.RepeatedFinishedIff | src/server/webrtc/dtls/dtls_session.cpp:471-479 | a repeated Finished record is accepted again if and only if the hash does not tell the two transcripts apart |
| DtlsHonestRuns.AlwaysCompletes | src/server/webrtc/dtls/dtls_session.cpp:40-135 | however a run has gone, delivering the five records once more in order completes the handshake |
| DtlsRecord.HeaderRoundTrip | src/server/dtls/dtls_define.cpp:92-193 | a record header comes back with every field cut to its width |
| DtlsRecord.UnpackLayout | src/server/dtls/dtls_define.h:252-289 | the receiver takes every plaintext laid out by the sender apart into its content and MAC |
| DtlsRecord.UnpackIff | src/server/dtls/dtls_define.h:252-289 | exactly which plaintexts are taken apart into given parts |
| DtlsRecord.FillPlaintext | src/server/dtls/dtls_define.h:454-491 | the buffer filled from the end is content, 20-byte MAC and 1..16 equal padding bytes, a multiple of 16 (section 6.2.3.2 of RFC 5246) |
| DtlsRecord.LengthFieldIff | src/server/dtls/dtls_define.h:454-462 | the length field tells the real length if and only if the content has at most 65483 bytes |
| DtlsRecord.MacCovers | src/server/dtls/dtls_define.h:274-280 | the MAC covers epoch and sequence number, type, version, length and content, cut out of the header as it is on the wire (section 4.1.2.1 of RFC 6347) |
| DtlsRecord.RecordRoundTrip | src/server/dtls/dtls_define.h:386-503 | a sealed record, followed by anything, opens under the same keys to the same header and content and consumes exactly its own bytes |
| Amf0.RoundTrip | src/server/rtmp/amf0/amf0_object.cpp:17-170 | every nested object, in every enumeration order of its properties and followed by any bytes, decodes to the same value and consumes exactly its encoding |
| Amf0.WireForms | src/server/rtmp/amf0/amf0_def.hpp:4-21 | the encodings of one value of each kind, byte for byte |
| Amf0.OrderIrrelevant | src/server/rtmp/amf0/amf0_object.cpp:131-170 | two enumerations of the same properties mean the same object |
| Amf0.ReorderedMeansSame | src/server/rtmp/amf0/amf0_object.cpp:131-170 | trees that differ in the order of properties at any depth mean the same value |
| Amf0.AnyOrderSameValue | src/server/rtmp/amf0/amf0_object.cpp:17-170 | encodings that differ in order at any depth decode to the same value |
| Amf0.CutDecodesIff | src/server/rtmp/amf0/amf0_object.cpp:17-129 | a first part of an encoding still decodes if and only if it is all of it or ends where some open object looks for its next property: end markers may be missing |
| Amf0.MarkerAlone | src/server/rtmp/amf0/amf0_object.cpp:17-129 | the marker of an object alone is an empty object |
| Amf0.LastWins | src/server/rtmp/amf0/amf0_object.cpp:108-126 | a repeated key has the value of its last occurrence |
| Amf0.DecodeTotal | src/server/rtmp/amf0/amf0_object.cpp:17-129 | on any bytes decoding gives a code from -4 to -1 or a count inside the bytes given |
| Amf0.EncodeExact | src/server/rtmp/amf0/amf0_object.cpp:131-170 | encoding succeeds if and only if the buffer has `size()` bytes, and fills exactly those |
| Amf0.OverrunIff | src/server/rtmp/amf0/amf0_object.cpp:131-170 | a short buffer is overrun if and only if it ends inside the text of a key, at any depth |
| Amf0.ShortBufferOverrun | src/server/rtmp/amf0/amf0_object.cpp:139-153 | such a buffer |
| Amf0.SizeIsLength | src/server/rtmp/amf0/amf0_object.hpp:114-123 | `size()` is the length of the encoding |
| Amf0.SizeOf | src/server/rtmp/amf0/amf0_object.hpp:114-123 | the loop computes that length |
| Amf0.Encode | src/server/rtmp/amf0/amf0_object.cpp:131-170 | the encoding loop, with its error codes; it succeeds and overruns exactly as stated above |
| Amf0.Decode | src/server/rtmp/amf0/amf0_object.cpp:17-129 | the decoding loop refines `DecodeObject` |
| Amf0.EcmaRoundTrip | src/server/rtmp/amf0/amf0_ecma_array.hpp:44-148 | every well-formed array of scalars, keys repeated or not, decodes to its last values |
| Amf0.DecodeArray | src/server/rtmp/amf0/amf0_ecma_array.hpp:44-148 | the counting loop refines `DecodeEcma`, with all its error codes |
| Crc32.EveryEntry | src/base/utils/utils.cpp:92-125 | all 256 table entries are eight bit steps of their index |
| Crc32.TableStepIsByte | src/base/utils/utils.cpp:134-137 | one table round is the same as feeding the byte's eight bits, lowest first |
| Crc32.GetCrc32 | src/base/utils/utils.cpp:127-142 | the table-driven loop computes the bit-at-a-time reflected CRC-32 of every non-empty buffer; the empty one gives all ones |
| Crc32.CheckValue | src/base/utils/utils.cpp:127-142 | the reference CRC of the digits 1 to 9 is 0xcbf43926, the check value of CRC-32 |
| Stun.Split | src/base/utils/utils.cpp:11-30 | the loop returns the non-empty stretches between colons |
| Stun.UserReadBackIff | src/server/stun/protocol/stun_username_attr.cpp:6-78 | a user name survives if and only if neither half has a colon and a remote half does not stand alone |
| Stun.AttrRead | src/server/stun/protocol/stun_msg.cpp:66-217 | every attribute, the two ICE tie-breakers included, is read back from its standard form, whatever follows |
| Stun.StandardAttrs | src/server/stun/protocol/stun_define.hpp:55-87 | the attributes byte for byte: types, lengths and field order |
| Stun.StandardHeaders | src/server/stun/protocol/stun_msg.h:54-80 | the magic cookie and transaction identifier in their places, and the headers of user name, integrity and fingerprint (sections 6 and 15 of RFC 5389) |
| Stun.CutAttrCodes | src/server/stun/protocol/stun_msg.cpp:66-217 | an attribute that is cut off in its header is reported with the code of its type |
| Stun.ProduceAndCheck | src/server/stun/protocol/stun_msg.cpp:54-375 | a message that fits takes `size(true, true)` bytes, a multiple of 4 that its length field agrees with; it is read back and both checks succeed, whatever lay in the padding |
| Stun.TakeIntegrity | src/server/stun/protocol/stun_message_integrity_attr.cpp:69-85 | the length field is overwritten, the HMAC of section 15.4 of RFC 5389 taken, and the buffer left as it was |
| Stun.CheckMsgIntegrity | src/server/stun/protocol/stun_message_integrity_attr.cpp:138-159 | the check decides integrity and leaves the buffer as it was |
| Stun.CheckFingerPrint | src/server/stun/protocol/stun_fingerprint_attr.h:96-101 | the check decides the CRC of section 15.5 of RFC 5389, and a message without one passes |
| Stun.FingerprintExample | src/server/stun/protocol/stun_fingerprint_attr.h:96-101 | the fingerprint of the digits 1 to 9: the CRC check value, exclusive-or 0x5354554e |
| Stun.Encode | src/server/stun/protocol/stun_msg.cpp:275-357 | into a buffer of any size: the message is produced when there is room, a shorter buffer is answered with the source's code, and one that ends in the padding of the user name is overrun; padding bytes and what lies behind stay as they were |
| Stun.DecodeMessage | src/server/stun/protocol/stun_msg.cpp:54-247 | the attribute loop refines `Decode`, with its error codes and the attributes it never steps over |
| Stun.NeverEndsIff | src/server/stun/protocol/stun_msg.cpp:66-233 | decoding never ends if and only if the first attribute that is not stepped over has one of eight types |
| Stun.ResponseAddressNeverEnds | src/server/stun/protocol/stun_msg.cpp:84-87 | such a message |
| FlvMux.PrefixParses | src/protocol/flv/flv_define.hpp:78-119 | however much of a file has arrived, a reader of Annex E of the FLV specification finds its first tags, with every previous-size field right, and no others |
| FlvMux.StepKeeps | src/server/http/http_flv.cpp:16-81 | queueing, activation, the swap and each of the three sends of a tag, failing or not, keep order, a single sender and the stream invariant |
| FlvMux.QueuedIsHanded | src/server/http/http_flv.cpp:16-20 | in every run the messages taken in are exactly those handed over, in order |
| FlvMux.MuxPreservesStream | src/server/http/http_flv.cpp:16-99 | after every run the bytes written are a first part of the file of all messages handed over and are read back as the first of them, in order, at least those sent |
| FlvMux.BatchDrains | src/server/http/http_flv.cpp:52-78 | a batch that has been started is sent to its end and the flag is free again, if no send fails |
| FlvMux.WaitingIff | src/server/http/http_flv.cpp:42-81 | exactly the steps that leave messages waiting with nobody sending: one queued while nobody sends, and the last send of a batch during which messages were queued |
| FlvMux.WaitsForActivation | src/server/http/http_flv.cpp:42-81 | they wait until the next activation, which starts a send task, and nothing is written meanwhile |
| FlvMux.ActivationLost | src/server/http/http_flv.cpp:42-81 | a run in which the activation of the second message is lost |

## Left out

- RTMP byte handshake, command messages, publish and play sessions, configuration and routing: single-map or single-branch facts.
- Fmt choice from the previous chunk in the RTMP sender: the program computes it and then always writes a full header, which is what the model writes.
- Threads: a connection, a media source and a session each run on one worker, so a step is what happens between two suspension points; the ring's lock is left out.
- RtmpServerSender.SessionRoundTrip: is for messages with identifiers 2..63, timestamps below 0xffffff and a non-empty payload below 2 MiB, the largest the receiver takes. Outside, the exactness lemmas beside it are about a basic header, a header, a message of one chunk, and the data of one continuation chunk.
- MediaFanOut.RtmpMediaSource.GetPkts: takes the metadata message as present, which the source sets before it becomes ready.
- DTLS timer retransmission: the session has none, so a client record keeps its number in every copy.
- DTLS Finished before the key exchange: the session would decrypt with keys it does not have; the model calls this undefined and the honest runs exclude it.
- DtlsHonestRuns.SafeRun: assumes, only for runs that deliver the Finished record more than once, that the hash tells the transcripts before and after it apart; what happens otherwise is stated by `RepeatedFinishedIff`, and `SomeHonestClient` shows that the assumptions can be met.
- DtlsSession.Session.ProcessDtlsPacket: takes records that are parsed and opened; a protected record that fails to open, after which the program steps back over the error code, is left out.
- DTLS message bodies and certificates: the encodings of the server's own messages are a function of kind and message number.
- TlsPrf.Prf: is for a length that is not negative; with a negative one the loop of the program does not end.
- AMF0 dates, references, strict arrays and JSON: not decoded inside objects by the program.
- Amf0.Encode: yields the bytes written instead of writing through a pointer; a key that does not fit is an outcome of its own.
- AMF0 objects that were partly filled when decoding failed: the model keeps the error code only.
- Stun.Encode: is for messages that fit their 16-bit length field; ICE-CONTROLLED and ICE-CONTROLLING are decoded from their standard form but not part of an encoded message, since the program writes them longer than it counts them. What a failing call leaves in the buffer is not stated.
- STUN messages without a user name: position and size disagree there on the encoding side.
- FlvMux.MuxPreservesStream: is for payloads below 2^24 bytes, the width of the size field, and leaves out the HTTP response header.
- SDP, RTP, SRTP, ICE candidates, HTTP and WebSocket parsing: they would add members without state that spans calls.
