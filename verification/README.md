# FMXP session protocol: a Dafny model

FMXP carries requests and responses as length-prefixed, sequence-numbered frames
over a byte stream. A client opens a session by sending an RSA-sealed AES key in
the clear; everything after that is AES-256-GCM. This project models the frame
codec, the incremental parser, both ends of a session, the cross-thread
hand-off, the thread pool, the server's connection table, the router and the
byte buffer, and proves what holds of every input and every run.

Verify with `dafny verify dfyconfig.toml`.

## How the model is laid out

| module | what it holds |
|---|---|
| `Encoders`, `Crypto`, `Frames` | big-endian integers, the AES packet layout over abstract primitives, the frame codec |
| `Parsing` | the parse loop as a function, and the one-frame-at-a-time reference parser-validator |
| `ServerSpec`, `ServerConnection` | the server end as functions on values, and the class whose methods are proved to compute them |
| `ServerLaws`, `ServerTheorems`, `Cutting`, `Notifications` | what every run of the server end keeps, how its reads may be cut, how often it notifies |
| `ClientSpec`, `ClientObject`, `ClientLaws` | the same for the client end |
| `Session` | both ends joined by two FIFO byte streams |
| `HandOff`, `ThreadPool` | interleaving models with any number of producers and workers |
| `ConnectionTable`, `ServerObject` | the connection index and command queue; the class `Server` over connection objects |
| `ServerRuns` | whole runs of the server with a client: what becomes of an answer |
| `Router`, `ByteBuffers` | request routing; the growable array |

What the environment decides is a parameter: how `recv` cuts the stream, what
each `send` accepts, the clock, the random IV, key and session id, the
descriptors `accept` returns, and the interleaving of threads. Every theorem
quantifies over all of them. `Crypto.Suite` holds the AES and RSA primitives as
arbitrary functions; only the theorems about honest peers ask for the inverse and
length laws (`Lawful`, which `Crypto.LawfulSuiteExists` shows can be met).

The server's `closeConnection` and `sendFrame` call each other without a bound.
The model gives the nested sends a finite list of attempts; when the list runs
out the connection is `crashed`, which stands for the exhausted stack. Every law
holds for every list, so for every depth.

A client `throwErr` that nothing catches is the outcome `aborted`
(core/errors.cpp:10-12 throws `std::runtime_error`; client/Connection.cpp:133
catches only `FMXPException`).

## Where the code differs from what one may expect

The model follows the code in each case.

- A frame costs 29 bytes plain and 57 sealed (core/frame.hpp:22-26); the repository's README.md:17-18
  says 28 and 56. `Frames.SealedRoundTrip` states 57.
- The offset comment at core/frame.cpp:113-127 is stale; the getters at
  core/frame.cpp:32-64 are what encoder and decoder use. `Frames.BodyFields`
  states the offsets.
- The freshness test at server/structures.cpp:191 accepts timestamps up to 60 s
  *ahead* of the server clock, not 60 s old as the repository's README.md:266 says.
  `ServerTheorems.TimelyIff` states the accepted set and
  `ServerTheorems.AgedHandshakeIsRefused` that a handshake which ages one second
  is refused.
- A refused handshake has no key to seal the farewell with, so the close/send
  recursion never ends: `ServerLaws.CloseWithoutKey`,
  `ServerTheorems.HandshakeAcceptsIff`.
- `_onClose` is meant to be called once; it is called once per farewell attempt,
  and again after a failed handshake reply. `ServerLaws.NotifiesOnceIff` gives the
  exact condition for one close, `Notifications.NotifiedOnceIff` for a whole run.
- A command for a connection that is gone goes to the error handler, which by
  default throws (server/Server.cpp:38-42, 74-76, 270-272), and nothing catches
  it: the loop ends with the rest of the queue unhandled.
  `ServerRuns.LostClientEndsTheLoop` is such a run, and
  `ConnectionTable.DrainEmptiesIff` says exactly when a drain completes.
- A client that meets the end of the stream before the handshake is over has set
  CLOSED when it parses (client/Connection.cpp:269-284), so it takes what arrived
  for responses under session id 0: `ClientLaws.EndInHandshakeDelivers`
  (of a `close()` that returns; see Left out).
  `ClientLaws.DeliveryFollowsReference` says exactly when that delivers more than
  it should.
- `_setAesKey` sets ACTIVE even if its send closed the connection, so CLOSED can
  be left: `ServerTheorems.ActiveWithoutSocketIff` says exactly when.
- Requests dispatched do depend on how the stream is cut into reads when a parse
  error follows good frames, since the good frames of that read are dropped:
  `Cutting.CutProofIff` says exactly which streams are safe for an open session and
  `Cutting.FreshCutProofIff` from the handshake on, with
  `Cutting.CutSensitiveStream` a family that is not;
  `ClientLaws.ClientCutProofIff` is the client's condition.
- A request popped before CONNECTED is dropped although `send` returned true
  (client/Connection.cpp:213-214): `Session.EveryRequestIsAccountedFor`.
- A request built before CONNECTED carries session id 0; sent once connected, it
  ends every session with another id: `Session.EarlyRequestCloses`.
  `Session.EndToEnd` says that the server closes iff such a request was sent, and
  `Session.PatientClientIsNeverRefused` is the law for a client that waits.
- `ensureCapacity` loops forever for requests above 2^63:
  `ByteBuffers.GrowthEndsIff`.

## Model

| member | source | states |
|---|---|---|
| `Encoders.ValueOfBigEndian` | core/encoders.cpp:17-52 | reading the n-byte big-endian form of any value that fits n bytes gives the value back, for every n |
| `Encoders.BigEndianOfValue` | core/encoders.cpp:66-80 | every byte string is the big-endian form of the value it reads as, so the encoding is onto |
| `Encoders.BigEndianDigit` | core/encoders.cpp:47-52 | byte i of the big-endian form is the value shifted right by 8(n-1-i), modulo 256 |
| `Encoders.U16ToStr` | core/encoders.cpp:17-22 | the two shift-and-mask bytes are the 2-byte big-endian form |
| `Encoders.U32ToStr` | core/encoders.cpp:30-37 | the four shift-and-mask bytes are the 4-byte big-endian form |
| `Encoders.U64ToStr` | core/encoders.cpp:47-52 | the byte-writing loop computes the 8-byte big-endian form |
| `Encoders.ReadersShift` | core/encoders.cpp:66-80 | the big-endian value of a prefix is the sum of shifted bytes the pointer readers compute, for 2, 4 and 8 bytes |
| `Encoders.ReadBack` | core/encoders.cpp:66-80 | each pointer reader undoes its writer |
| `Encoders.WriteBack` | core/encoders.cpp:17-52 | each writer undoes its pointer reader |
| `Crypto.AesEncrypt` | core/enc/aes.cpp:26-84 | succeeds iff the key has 32 bytes and an IV could be drawn; every failure is a runtime_error |
| `Crypto.AesDecrypt` | core/enc/aes.cpp:85-134 | succeeds only with a 32-byte key and at least 28 packet bytes; every failure is a runtime_error |
| `Crypto.AesRoundTrip` | core/enc/aes.cpp:26-134 | with the IV, tag, ciphertext layout, decrypting an encryption restores the plaintext, and the packet is 28 bytes longer |
| `Crypto.AesLayout` | core/enc/aes.cpp:26-134 | a packet is the 12-byte IV, the 16-byte tag, then the ciphertext, and is opened with the same split |
| `Frames.EncodeFrame` | core/frame.cpp:86-110 | growing header and body buffers computes the encoding, replaced frame id and encryption failure included |
| `Frames.EncodingStarts` | core/frame.cpp:86-110 | every encoding starts with the bytes of "fmxp" and version 1, and has 29 bytes besides path and data |
| `Frames.EncodeFailsIff` | core/frame.cpp:104-104 | sealing a frame fails iff the key has not 32 bytes or no IV could be drawn |
| `Frames.DecodeFailsIff` | core/frame.cpp:128-182 | sealed decoding fails with a runtime_error iff the header is in order and the body does not decrypt |
| `Frames.BodyFields` | core/frame.cpp:93-102 | where every field of an encoded body lies, path length modulo 65536, and that path and data follow |
| `Frames.HeaderReads` | core/frame.cpp:16-30 | the getters read magic, version and body size back from header plus body |
| `Frames.Carried` | core/frame.cpp:86-182 | what survives the wire: path ++ data always; the whole frame, with its wire frame id, when the path is below 65536 bytes |
| `Frames.BodyRoundTrip` | core/frame.cpp:128-182 | decoding an encoded body gives the carried frame, for every frame |
| `Frames.PlainRoundTrip` | core/frame.cpp:86-182 | decoding a plain encoding gives the carried frame, for every body below 2^32 bytes |
| `Frames.SealedRoundTrip` | core/frame.cpp:86-182 | the same through encryption, and a sealed frame is 57 bytes plus path and data |
| `Frames.BodyCanonical` | core/frame.cpp:128-182 | every body the decoder accepts re-encodes to itself |
| `Frames.OuterCanonical` | core/frame.cpp:16-30 | every accepted outer header is the one the encoder writes for that length |
| `Frames.PlainCanonical` | core/frame.cpp:86-182 | every byte string plain decoding accepts re-encodes to itself byte for byte |
| `Frames.SameFront` | core/frame.cpp:128-182 | two accepted strings that both start the same byte string are equal, whatever keys or modes accepted them |
| `Frames.SelfDelimiting` | core/frame.cpp:128-182 | no accepted string is a proper prefix of another |
| `Frames.UniqueSplit` | core/frame.cpp:128-182 | a concatenation of accepted strings splits in only one way |
| `Parsing.ParseOne` | server/structures.cpp:73-103 | a frame taken lies within buffer and size limit, is at least a header long, and is what decoding exactly those bytes gives |
| `Parsing.FrontDecides` | server/structures.cpp:74-79 | fewer than 29 bytes always wait; with 29, not starting with "fmxp" is the protocol fault, and only that |
| `Parsing.ParseOneStable` | server/structures.cpp:73-114 | a frame found or an error found stays the same whatever bytes follow |
| `Parsing.StrictPrefixNeedsMore` | server/structures.cpp:74-89 | every proper prefix of a readable frame asks for more bytes, never an error |
| `Parsing.ParseAllConserves` | server/structures.cpp:71-116 | consumed raw frames plus residual equal the input, and each raw frame decodes to the frame returned |
| `Parsing.ParseAllStops` | server/structures.cpp:71-116 | the loop stops where one more step needs bytes or fails, and without failure fewer than max(29, maxFrameSize) bytes remain |
| `Parsing.ParseAllResumes` | client/Connection.cpp:93-138 | parsing all at once equals parsing, appending and resuming, errors included |
| `Parsing.Accepted` | server/structures.cpp:118-124 | validation keeps a prefix of the frames, and the frame after it, if any, is not fresh after its last one; with AcceptedOrdered, the longest valid prefix |
| `Parsing.AcceptedOrdered` | server/structures.cpp:118-124 | accepted frames carry the session id and strictly increasing frame ids above the last |
| `Parsing.OrderedBound` | server/structures.cpp:118-124 | at most 2^32 - 1 - last frames can be so ordered |
| `Parsing.ReferenceResumes` | server/structures.cpp:71-124 | the one-frame-at-a-time reference on b ++ x is its verdict on b, resumed on the residual ++ x, and a final verdict never changes |
| `Parsing.ReferenceMonotone` | server/structures.cpp:71-124 | more bytes never take back a dispatched frame |
| `Parsing.BatchMatchesReference` | server/structures.cpp:178-210 | parse-everything-then-validate refines the reference: same frames, same end, same residual and last id |
| `Parsing.ReferenceOrdered` | server/structures.cpp:118-124 | the reference itself is replay safe |
| `Parsing.CutStream` | client/Connection.cpp:93-138 | any prefix of a stream of readable packets parses, without error, to the first k packets, residual and later bytes being exactly the others |
| `Parsing.SealedIsReadable` | core/frame.cpp:86-182 | a sealed frame within the receiver's limit is readable as one packet |
| `Parsing.PlainIsReadable` | core/frame.cpp:86-182 | likewise a plain frame |
| `ServerSpec.Pushed` | server/structures.cpp:136-147 | partial writes push exactly what send is ready to take before it first fails, up to the frame's length |
| `ServerSpec.SecuredText` | server/structures.cpp:52-53 | the handshake reply is the text "Connection secured" |
| `ServerConnection.ClientConnection.constructor` | server/structures.cpp:19-27 | a fresh connection in HANDSHAKE, with the next id |
| `ServerConnection.ClientConnection.WriteAll` | server/structures.cpp:136-147 | the write loop puts exactly a prefix of the encoding on the wire, as long as the accepted writes allow |
| `ServerConnection.ClientConnection.SendFrame` | server/structures.cpp:132-152 | the whole new state is the specified send, encryption failure and write failure closing recursively |
| `ServerConnection.ClientConnection.CloseConnection` | server/structures.cpp:31-45 | the whole new state is the specified close, farewell and recursion included |
| `ServerConnection.ClientConnection.NextFrame` | server/structures.cpp:73-103 | one iteration's checks compute ParseOne in the mode of the state |
| `ServerConnection.ClientConnection.ParseFrames` | server/structures.cpp:71-116 | the loop returns the frames and leaves the state of the specified parse, one frame only in HANDSHAKE |
| `ServerConnection.ClientConnection.ValidateFrame` | server/structures.cpp:118-124 | true iff session id matches and frame id is above the last; otherwise closes with INVALID_REQUEST |
| `ServerConnection.ClientConnection.InstallKey` | server/structures.cpp:49-56 | key and session id set, "Connection secured" sent, ACTIVE afterwards whatever the send did |
| `ServerConnection.ClientConnection.DoHandshake` | server/structures.cpp:182-200 | every failure of the payload closes with ENCRYPTION_ERROR and false; otherwise the key is installed |
| `ServerConnection.ClientConnection.DispatchAll` | server/structures.cpp:201-209 | the loop computes the specified dispatch |
| `ServerConnection.ClientConnection.Drain` | server/structures.cpp:157-177 | the receive loop appends exactly the chunks, in order |
| `ServerConnection.ClientConnection.Receive` | server/structures.cpp:154-211 | readFd computes the specified read, end-of-file and socket errors included |
| `ServerLaws.SendQuiet` | server/structures.cpp:132-152 | at any depth a send touches neither session, input, receipts nor dispatched requests, and loses the descriptor only by closing |
| `ServerLaws.CloseQuiet` | server/structures.cpp:31-45 | the same of a close, and one that returns leaves CLOSED with descriptor -1 |
| `ServerLaws.CloseAfterKFarewells` | server/structures.cpp:31-45 | if the k-th farewell is the first to get out, close ends CLOSED, descriptor -1, k frame ids used, after exactly k notifications: for each failed farewell, innermost first, ENCRYPTION_ERROR iff it could not be sealed and SOCKET_ERROR iff its write fell short, and last the reason asked for |
| `ServerLaws.CloseNeverCompletes` | server/structures.cpp:132-152 | if no farewell gets out, no depth suffices: state and descriptor unchanged, nobody notified |
| `ServerLaws.CloseWithoutKey` | server/structures.cpp:31-45 | without a 32-byte key, every unrolling returns to the same state with only the frame id advanced, for every depth |
| `ServerLaws.NotifiesOnceIff` | server/structures.cpp:42-44 | close returns having notified exactly once, with its own reason, iff the first farewell gets out |
| `ServerLaws.CloseCrashesIff` | server/structures.cpp:31-45 | a close that says goodbye completes, CLOSED without descriptor, iff some farewell gets out; otherwise nothing but the frame id has changed |
| `ServerLaws.SendFailureCloses` | server/structures.cpp:132-152 | a send whose own frame fails closes; the last reason notified is its own, ENCRYPTION_ERROR without a 32-byte key or an IV and SOCKET_ERROR otherwise, after those of the farewells that failed |
| `ServerLaws.SendWithoutSocketCloses` | server/structures.cpp:132-152 | the same without a descriptor: that one notification, nothing written |
| `ServerLaws.SecondFarewellNotifiesTwice` | server/structures.cpp:42-44 | a first farewell without an IV and a second that gets out notify ENCRYPTION_ERROR and then the reason asked for |
| `ServerLaws.DispatchIs` | server/structures.cpp:201-209 | dispatching equals delivering the accepted prefix, then closing if anything was left |
| `ServerLaws.StepKeepsInv` | server/structures.cpp:31-211 | every operation keeps the connection in step with the reference parser on all bytes of the session |
| `ServerLaws.RunKeepsInv` | server/structures.cpp:31-211 | so does every run |
| `ServerLaws.DispatchFollowsReference` | server/structures.cpp:71-211 | for any bytes, malformed included, any chunking and any interleaved sends and closes, dispatched requests are a prefix of the reference's on the whole stream; while ACTIVE the reference resumes exactly from the residual buffer |
| `ServerLaws.ReplaySafe` | server/structures.cpp:118-124 | in every run dispatched frame ids strictly increase under one session id, and fewer than 2^32 are dispatched |
| `ServerTheorems.EmissionIsNumbered` | server/structures.cpp:126-152 | over every run: every packet is the sealing of its frame, id included, under the session's key; with fewer than 2^32 sends, whatever order responses were built in, ids strictly increase within the call numbers, and are 1, 2, 3, ... if every call encodes; if every write completed the wire is the concatenation of the packets |
| `ServerTheorems.RunNumbered` | server/structures.cpp:132-152 | frame ids count send calls modulo 2^32, the wire is the written parts of the packets in order, each packet seals its frame, and without a key nothing is emitted, over every run |
| `ServerTheorems.WrittenWhole` | server/structures.cpp:136-147 | completed writes concatenate to the stream of packets |
| `ServerTheorems.DeadStaysDead` | server/structures.cpp:31-45 | once closed without a descriptor, or crashed, no run dispatches, receives, writes or notifies again |
| `Cutting.OneRead` | server/structures.cpp:154-211 | what one read does in terms of the reference: drop on a fault, dispatch the reference's frames otherwise, close on a rejected frame |
| `Cutting.CutReads` | server/structures.cpp:154-211 | any cutting into reads dispatches between nothing and the reference's frames, and exactly those if the stream parses and there is a read at all |
| `Cutting.CutAt` | server/structures.cpp:71-116 | every frame boundary is a place to cut the stream |
| `Cutting.CutProofIff` | server/structures.cpp:154-211 | for every open session, whatever it has buffered: dispatched requests are independent of the cutting iff the buffer is faulty already, or the reference dispatches nothing, or buffer and stream parse without fault and the stream is not empty |
| `Cutting.FreshCutProofIff` | server/structures.cpp:92-102 | from the handshake on, with the same clock, ids and sends: independent of the cutting iff the bytes open no session or the reference dispatches nothing after the handshake frame, since what follows it in its own read waits for the next |
| `Cutting.ShakingRuns` | server/structures.cpp:154-211 | any reads from the handshake on dispatch within the reference on what follows the handshake frame, and nothing unless it opens a session |
| `Cutting.OpeningRead` | server/structures.cpp:178-200 | one read in HANDSHAKE waits, opens the session with the rest of the bytes left in the buffer, or leaves a connection that reads nothing more; it dispatches nothing |
| `Cutting.DropsInOneRead` | server/structures.cpp:178-210 | a faulty stream in one read dispatches nothing |
| `Cutting.KeepsInTwoReads` | server/structures.cpp:178-210 | a stream with acceptable frames, cut at a place the lemma finds, dispatches some |
| `Cutting.CutSensitiveStream` | server/structures.cpp:182-209 | any fresh sealed frame followed by 29 bytes without the magic depends on the cutting |
| `ServerTheorems.FaultReason` | server/structures.cpp:76-114 | a faulty read drops the batch, returns true, and closes for REQUEST_TOO_LONG iff the residual starts a frame over the limit, INVALID_REQUEST otherwise, after the reports of the farewells that failed; if none gets out it never returns |
| `ServerTheorems.RefusalReason` | server/structures.cpp:118-124 | a read with a foreign or stale frame dispatches the frames before it and closes for INVALID_REQUEST |
| `ServerTheorems.RecvErrorReason` | server/structures.cpp:166-172 | a recv error closes for SOCKET_ERROR with nothing dispatched, whatever arrived before it |
| `ServerTheorems.NoSocketReason` | server/structures.cpp:157-172 | reading without a descriptor closes for SOCKET_ERROR, nothing sent, received or dispatched |
| `ServerTheorems.NoSessionIdReason` | server/structures.cpp:196-200 | a random generator that throws after a good payload closes for ENCRYPTION_ERROR, the farewell sealed under the new key |
| `ServerTheorems.ReplyFailureReason` | server/structures.cpp:49-56 | a handshake reply that fails is notified like any failed send, and the state is ACTIVE without a descriptor |
| `ServerTheorems.FarewellSays` | server/structures.cpp:34-36 | the last packet of a connection closed with a farewell is an empty frame with status 1, flags 0, rid 0 and the session's id |
| `ServerTheorems.ReplySays` | server/structures.cpp:49-56 | the handshake reply is one packet with the text "Connection secured", status 1, flags 0, rid 0 and the new session's id |
| `ServerTheorems.EofClosesSilently` | server/structures.cpp:160-164 | end-of-file closes NATURAL, sends nothing, and leaves bytes of that read unparsed |
| `ServerTheorems.TimelyIff` | server/structures.cpp:190-194 | a timestamp passes iff it is 0 to 60 seconds ahead of the server clock, modulo 2^32 |
| `ServerTheorems.AgedHandshakeIsRefused` | server/structures.cpp:190-194 | a handshake of age a passes iff a is 0 or within 60 of 2^32 |
| `ServerTheorems.HandshakeAcceptsIff` | server/structures.cpp:182-200 | ACTIVE only for a payload that opens to 36 timely bytes; with one, ACTIVE under its key unless the reply never returns; without one, the close never returns |
| `ServerTheorems.ActiveWithoutSocketIff` | server/structures.cpp:49-56 | installing a key returns iff the reply or some farewell after it gets out; the state is ACTIVE then, and without a descriptor iff it was not the reply |
| `ServerTheorems.HandshakeReadIs` | server/structures.cpp:154-200 | a read before the key is set waits or opens and returns true, closes and returns false, or never returns, each told exactly by the bytes, the clock and which sends get out; a malformed frame, a bad payload and a socket error never return |
| `ServerTheorems.OkUnlessClosed` | server/structures.cpp:154-211 | readFd returns false only having closed the connection |
| `Notifications.SendCounts` | server/structures.cpp:132-152 | a send notifies once for each send failing in it, at any depth, and closes iff one does |
| `Notifications.CloseCounts` | server/structures.cpp:31-45 | a close notifies once more than sends fail in it |
| `Notifications.StepTally` | server/structures.cpp:31-211 | one step of a live connection keeps notifications equal to failed sends, and if it closes adds one more when it is a read or an announced close |
| `Notifications.RunTally` | server/structures.cpp:31-211 | the notifications of a whole run are those up to its one closing step |
| `Notifications.NotifiedOnceIff` | server/structures.cpp:42-44 | a connection that ends CLOSED was notified exactly once iff no send failed up to its closing step, except that step's own if it closed without announcing |
| `Notifications.FailedReplyNotifiesAgain` | server/structures.cpp:49-56 | once the handshake reply has failed, whatever closes the connection notifies a second time |
| `ServerTheorems.ReadContinues` | server/structures.cpp:154-211 | once out of HANDSHAKE a read never changes key or session id nor returns there; it only ever gives its descriptor up, only extends dispatched requests, and dispatches nothing when it starts in HANDSHAKE |
| `ClientObject.Connection.constructor` | client/Connection.cpp:140-146 | a client that has sent nothing |
| `ClientObject.Connection.SendRequest` | client/Connection.cpp:161-180 | refused unless running; otherwise the built frame is queued |
| `ClientObject.Connection.CloseClient` | client/Connection.cpp:182-204 | notifies, shuts and stops, at most once |
| `ClientObject.Connection.Handle` | client/Connection.cpp:206-230 | the plaintext handshake once, other commands dropped in HANDSHAKE, then sealed frames numbered as sent; failures abort |
| `ClientObject.Connection.DrainCommands` | client/Connection.cpp:247-250 | the drain loop pops and handles until the queue is empty or handling throws |
| `ClientObject.Connection.StartHandshake` | client/Connection.cpp:140-146 | key and timestamp sealed and sent as the plaintext frame |
| `ClientObject.Connection.NextFrame` | client/Connection.cpp:96-116 | one iteration's checks compute ParseOne in sealed mode |
| `ClientObject.Connection.ParseFrames` | client/Connection.cpp:93-138 | the loop computes the specified parse, handshake reply and uncaught throw included |
| `ClientObject.Connection.ValidateFrame` | client/Connection.cpp:153-159 | true iff session id matches and frame id is above the last; otherwise closes |
| `ClientObject.Connection.DeliverFrames` | client/Connection.cpp:285-289 | the loop computes the specified delivery |
| `ClientObject.Connection.Drain` | client/Connection.cpp:265-283 | the receive loop appends exactly the chunks, in order |
| `ClientObject.Connection.OnReadable` | client/Connection.cpp:262-290 | a readable socket computes the specified step, also after end-of-file or error |
| `ClientLaws.DeliverAllIs` | client/Connection.cpp:285-289 | delivering equals taking the accepted prefix, then closing if anything was left |
| `ClientLaws.ParseBufferIs` | client/Connection.cpp:93-138 | outside the handshake the loop is the shared parse, its fault aborting iff it is a runtime_error and closing otherwise |
| `ClientLaws.SettleConnected` | client/Connection.cpp:284-289 | parse and delivery while CONNECTED equal the reference on the buffer, or abort |
| `ClientLaws.SettleShaking` | client/Connection.cpp:93-138 | the same across the handshake frame, CONNECTED iff the reference has found the session id |
| `ClientLaws.OneArrival` | client/Connection.cpp:262-290 | one read takes the client to what the reference says of all bytes received |
| `ClientLaws.CutArrivals` | client/Connection.cpp:262-290 | so does any sequence of reads, however the stream was cut |
| `ClientLaws.ChunkingIndependence` | client/Connection.cpp:93-138 | on every stream that does not abort the client, two cuttings end with the same responses, phase, session id, last id and residual buffer |
| `ClientLaws.ClientCutProofIff` | client/Connection.cpp:111-137 | delivered responses are independent of the cutting iff the stream does not abort or has nothing to deliver |
| `ClientLaws.LastReadIs` | client/Connection.cpp:266-289 | a read ending in end-of-file or error closes once and still parses: in CONNECTED it delivers what the reference does, in HANDSHAKE the frames fresh for session id 0, within the reference iff the end is harmless |
| `ClientLaws.HarmlessEndIff` | client/Connection.cpp:266-289 | what an end in HANDSHAKE delivers is a prefix of the reference's iff the first frame is not fresh for session id 0, or is a reply sent twice |
| `ClientLaws.EndInHandshakeDelivers` | client/Connection.cpp:266-289 | any sealed frame with session id 0 and a nonzero frame id, read with the end of the stream in HANDSHAKE, is delivered though the reference delivers nothing |
| `ClientLaws.DeliveryFollowsReference` | client/Connection.cpp:93-289 | over every run of requests, pops, closes, reads and ends of stream, deliveries are a prefix of the reference's iff the stream did not end in HANDSHAKE or ended harmlessly, and exactly the reference's while running |
| `ClientLaws.DeliveryIsReplaySafe` | client/Connection.cpp:153-159 | in every run, end-of-file included, delivered ids strictly increase under one session id and fewer than 2^32 are delivered |
| `ClientLaws.SinglePlaintextFrame` | client/Connection.cpp:206-225 | in every run the first emission is the plain encoding of its frame and the only one in the clear; later ones are their frames sealed under the session's key, outside HANDSHAKE, numbered 1, 2, 3, ...; the wire is what the sends took of them, whole iff each took everything |
| `ClientLaws.OnWireWholeIff` | client/Connection.cpp:217-225 | what single sends took is the concatenation of the packets iff each took all of its packet |
| `ClientLaws.DrainIsPops` | client/Connection.cpp:248-250 | draining the queue, no CLOSE in it, is popping command by command, so the laws of runs hold of the loop |
| `ClientLaws.RequestIffRunning` | client/Connection.cpp:161-180 | send returns true iff the client runs and is not closed, and then queues one frame with the path and data given, status 0, flags 0 and the session id of the moment; else nothing changes |
| `ClientLaws.SingleSend` | client/Connection.cpp:221-225 | a popped request is sent once under the next frame id: the wire grows by as much as that send took; one that cannot be sealed throws with nothing sent |
| `ClientLaws.OtherCommands` | client/Connection.cpp:206-230 | CLOSE closes; SEND without a frame throws |
| `ClientLaws.CallsStop` | client/Connection.cpp:182-204 | close and a hang-up stop a running client, telling its owner once, and leave a stopped one alone |
| `ClientLaws.HandshakeFailures` | client/Connection.cpp:140-146 | a key or sealed payload that cannot be made ends the loop with nothing sent |
| `ClientLaws.ClientIsToldOnce` | client/Connection.cpp:182-188 | in every run _onClose has been called once if the client has stopped and never if not |
| `Session.SendSucceeds` | server/structures.cpp:132-152 | a send with completing writes emits one packet a client can read, with the next frame id |
| `Session.PopSucceeds` | client/Connection.cpp:213-225 | a popped request becomes one packet the server can read, with the next frame id |
| `Session.ConsecutiveAccepted` | server/structures.cpp:118-124 | of consecutively numbered frames the server stops only at one with a foreign session id |
| `Session.HandshakePayload` | client/Connection.cpp:140-146 | the server opens the sealed payload to the client's key and timestamp |
| `Session.ServerTakesHandshake` | server/structures.cpp:182-200 | however the handshake frame arrives, the joint invariant is kept as the session opens |
| `Session.ServerReadsOn` | server/structures.cpp:154-211 | every read in ACTIVE keeps the joint invariant |
| `Session.ClientConnects` | client/Connection.cpp:117-125 | every read in HANDSHAKE keeps it, whether or not the reply is complete |
| `Session.ClientReadsOn` | client/Connection.cpp:262-290 | every read in CONNECTED keeps it |
| `Session.StepGood` | client/Connection.cpp:148-289 | every step of either end keeps the joint invariant |
| `Session.PlayGood` | server/structures.cpp:71-211 | so does every run |
| `Session.EndToEnd` | server/structures.cpp:71-211 | after any interleaving and chunking: dispatched requests are a prefix of those sent, replay safe, all of them once the stream is read in ACTIVE; the server is closed only at a request with a foreign session id, and once the stream is read iff one was sent; CONNECTED means equal key and session id, and holds once the server's bytes are read; deliveries are a prefix of the responses sent, all of them once the stream is read |
| `Session.PatientClientIsNeverRefused` | client/Connection.cpp:148-225 | if every request is built after CONNECTED the server never closes; what was asked for, with rids 2, 3, 4, ..., is what was sent and then what is queued, and dispatched requests are a prefix of it, all of it once nothing is queued or in flight |
| `Session.EarlyRequestCloses` | client/Connection.cpp:148-225 | for every request that fits and every nonzero session id: asked for in HANDSHAKE and sent once connected, it makes the server close for INVALID_REQUEST with nothing dispatched |
| `Session.PlayTakes` | client/Connection.cpp:161-225 | over every run, requests dropped, then sent, then queued grow by exactly what is asked for, path, data and consecutive rids, in order |
| `Session.EveryRequestIsAccountedFor` | client/Connection.cpp:148-151 | from the start of a session, over every run: what is asked for, with rids 2, 3, 4, ... modulo 2^32 in the order asked, is what is dropped, then sent, then queued; fewer than 2^32 requests have different rids; nothing is dropped iff no request is popped before CONNECTED |
| `Session.CanFinish` | server/structures.cpp:154-211 | from every state of the joint invariant before the server closes, reading what is in flight is allowed, leaves nothing in flight and both ends past the handshake |
| `Session.RequestGetsThrough` | client/Connection.cpp:161-225 | any request that fits, asked for in an open session, popped and read, is the last one dispatched, with its path, data, rid and the session's id |
| `Session.AllGetThrough` | server/structures.cpp:201-209 | so is any list of requests, in order |
| `Session.SessionCanOpen` | client/Connection.cpp:117-146 | from the very start some run reaches CONNECTED and ACTIVE |
| `Session.SessionCanCarry` | server/structures.cpp:71-211 | for every list of requests within the limit, fewer than 2^32, some run opens the session and dispatches exactly that list |
| `HandOff.ConcurrentQueue.constructor` | core/ConcurrentQueue.hpp:8-12 | a queue starts empty |
| `HandOff.ConcurrentQueue.Push` | core/ConcurrentQueue.hpp:15-18 | appends at the back |
| `HandOff.ConcurrentQueue.TryPop` | core/ConcurrentQueue.hpp:20-27 | takes the front iff there is one, leaves the argument alone otherwise |
| `HandOff.ConcurrentQueue.Clear` | core/ConcurrentQueue.hpp:29-32 | leaves nothing |
| `HandOff.ApplyKeepsInv` | server/Server.cpp:197-205 | every step, a throwing command included, keeps: a queued command has a positive counter, a loop at work or ended, or a producer about to wake it; commands leave in push order, each once |
| `HandOff.RunKeepsInv` | server/Server.cpp:97-110 | so does every interleaving of any number of producers |
| `HandOff.NoLostCommand` | server/Server.cpp:51-54 | when the loop blocks with no producer in flight, the queue is empty and everything pushed has left it in order |
| `HandOff.LoopProgress` | server/Server.cpp:197-205 | the loop has a step of its own iff it is neither blocked nor ended, and every such step lessens the work |
| `HandOff.LoopCatchesUp` | client/Connection.cpp:243-251 | from every state the invariant allows with no producer in flight, a bounded number of loop steps handles the queue in order up to the first command that throws: all of it iff none does, else the loop has ended with the rest queued |
| `HandOff.FatalCommandStrandsTheNext` | server/Server.cpp:36-42 | a command that throws leaves the one pushed behind it queued, with the eventfd read and no producer in flight |
| `ThreadPool.ApplyKeepsInv` | server/tpool.cpp:5-47 | every step keeps: started ++ queued = enqueued, every started task finished or in hand exactly once, and a queued task means some worker is awake or a notification is pending |
| `ThreadPool.RunKeepsInv` | server/tpool.cpp:5-47 | so does every interleaving, spurious wakeups included |
| `ThreadPool.NoLostWakeup` | server/tpool.cpp:5-47 | no reachable state has a queued task, no notification pending and every worker asleep or exited, unless all have exited |
| `ThreadPool.ExitedMeansDone` | server/tpool.cpp:5-47 | once all workers have exited, every started task has finished and every task enqueued before the last exit was started |
| `ThreadPool.PoolSize` | server/tpool.cpp:5-6 | in every run a pool has the number of workers it was made with |
| `ThreadPool.TaskCanStart` | server/tpool.cpp:8-20 | in every run of a pool with a worker, not stopped, with a queued task and nobody busy, a step of the pool's own starts the task or wakes a worker whose next step can |
| `ThreadPool.PoolCatchesUp` | server/tpool.cpp:8-24 | from every such state steps of the pool's own run all tasks enqueued so far, leaving nothing queued |
| `ThreadPool.PoolRunsAll` | server/tpool.cpp:5-47 | for every list of tasks and any number of workers from one, some run enqueues and finishes exactly them without a shutdown |
| `ThreadPool.ShutdownAdvances` | server/tpool.cpp:8-39 | after stop every step but an enqueue lessens a bound, so shutdown ends |
| `ThreadPool.ShutdownNeverStuck` | server/tpool.cpp:8-39 | after stop some step is possible until every worker has exited |
| `ThreadPool.ShutdownCompletes` | server/tpool.cpp:8-39 | every run after stop is bounded, and one that cannot go on has every worker exited and every task run |
| `ConnectionTable.StepKeepsInv` | server/Server.cpp:197-262 | every event, a throwing command included, keeps open connections indexed by their descriptor and by no other, ids fresh and queued answers matched |
| `ConnectionTable.RunKeepsInv` | server/Server.cpp:187-265 | so does every run |
| `ConnectionTable.LookupAgreesWithScan` | server/Server.cpp:236-242 | in every run, going through both maps and keeping an open result finds exactly the connection a scan for the descriptor finds, and nothing iff none has it; no entry leads to an open connection with another descriptor |
| `ConnectionTable.EventsReachTheirOwner` | server/Server.cpp:236-262 | in every run, input or a hang-up on a descriptor leaves every open connection with another one unchanged and hands over requests of its owner alone; a hang-up removes the connection its entry leads to and no other |
| `ConnectionTable.AnswersMatchTheirSession` | server/Server.cpp:63-104 | in every run each queued answer carries its request's rid, path and connection, the data and status the handler gave, flags 0, and the session id the connection still has |
| `ConnectionTable.AcceptAdds` | server/Server.cpp:225-230 | accepting a descriptor files a new connection in HANDSHAKE, nothing received or sent, under an id never used before, and leaves the others alone |
| `ConnectionTable.RespondQueues` | server/Server.cpp:91-104 | respond queues one frame with the data and status given, the request's path and rid, flags 0, the connection's session id and frame counter; nothing if the connection is gone |
| `ConnectionTable.PushQueues` | server/Server.cpp:69-73 | serverPush queues the same for the connection, path, data and status given, under rid 0 |
| `ConnectionTable.AskCloseQueues` | server/Server.cpp:106-111 | closeConnection queues a close whether or not the connection is there |
| `ConnectionTable.ExecuteCloses` | server/Server.cpp:46-48 | executing it closes that connection as NATURAL, notified, nothing sent, others untouched, and leaves it in the table without a descriptor |
| `ConnectionTable.ReadableHandsOver` | server/structures.cpp:201-217 | a readable event hands over the newly dispatched frames of the connection found, each with its path, data and rid under that connection's id, and keeps the connection unless it closed |
| `ConnectionTable.RequestsAreDispatched` | server/structures.cpp:201-217 | in every run the requests handed over of a connection in the table are its dispatched frames, as many, in order, with the same path, data and rid |
| `ConnectionTable.QueueIsFifo` | server/Server.cpp:201-203 | while the loop lives, each turn takes the front of the queue and everything else adds behind |
| `ConnectionTable.IdsAreNeverReused` | server/structures.cpp:17-27 | an id that left the table never returns |
| `ConnectionTable.DrainEmptiesIff` | server/Server.cpp:197-206 | a drain that does not lose the process handles the whole queue iff every command's connection is in the table at the start or absorbed by the error callback; else it ends the loop at the first that is not, with exactly the later commands left |
| `ConnectionTable.AbsorbingServerNeverThrows` | server/Server.cpp:178-185 | with an error callback that always returns true no run ends by a throw |
| `ServerRuns.AnswerGoesOut` | server/Server.cpp:36-104 | over every run: respond(r, data, status) on a connection still there, once the commands before it have had their turn and with a completing write, puts on that connection's wire one packet its client can read, with that data and status, the session's id, and the rid and path of a frame the connection dispatched |
| `ServerRuns.LostClientEndsTheLoop` | server/Server.cpp:36-42 | for every request and two answers: a client that opens, asks and hangs up before the drain ends the loop by a throw, the second answer still queued with its data, status and the request's rid |
| `ServerObject.Server.constructor` | server/Server.cpp:56-77 | an empty table |
| `ServerObject.Server.AcceptAll` | server/Server.cpp:209-233 | the accept loop, making a connection object for each descriptor, is that many accept steps of the table |
| `ServerObject.Server.OnHangUp` | server/Server.cpp:235-252 | the object found through both maps is closed as NATURAL without a send and leaves the table; every other object and stale descriptors are left alone |
| `ServerObject.Server.OnInput` | server/Server.cpp:235-262 | reading the object found through both maps changes the table, read off all connection objects, by the specified step: one entry changed or removed, its new requests handed over |
| `ServerObject.Server.HandleCommand` | server/Server.cpp:36-49 | sending on or closing one connection object changes that entry of the table alone; a missing one throws unless absorbed |
| `ServerObject.Server.DrainCommands` | server/Server.cpp:197-206 | the drain loop is one execute step per command; unless the process is lost it throws iff some command's connection is missing and not absorbed, and leaves exactly the commands behind the first such |
| `ServerObject.Server.Stop` | server/Server.cpp:163-172 | the queue is cleared unexecuted, every connection object is closed as NATURAL, and both maps are emptied |
| `Router.ChosenIsUnique` | server/Server.cpp:19-33 | the rule over the registration history (latest exact handler, else earliest matching function, else an empty response with status 4 under the request's connection, path and rid) allows one outcome |
| `Router.RouteTable.constructor` | server/Server.cpp:56-77 | no routes |
| `Router.RouteTable.RoutePath` | server/Server.cpp:81-84 | registers an exact route, replacing an earlier one |
| `Router.RouteTable.RouteMatching` | server/Server.cpp:86-89 | registers a functional route after the others |
| `Router.RouteTable.Route` | server/Server.cpp:19-33 | for every registration history and request, the outcome is the one the rule chooses |
| `ByteBuffers.NextCapacity` | core/ByteBuffer.cpp:8-16 | the doubling loop ends at a 64·2^k block that suffices, at least doubles, and is 64 or below twice the need |
| `ByteBuffers.DoublingsStayBelow` | core/ByteBuffer.cpp:8-16 | doubling in 64 bits gives blocks up to 2^63 and then 0 for ever |
| `ByteBuffers.GrowthEndsIff` | core/ByteBuffer.cpp:8-16 | the doubling loop ends iff the request is at most 2^63 |
| `ByteBuffers.ByteBuffer.constructor` | core/ByteBuffer.cpp:27-27 | an empty buffer without allocation |
| `ByteBuffers.ByteBuffer.EnsureCapacity` | core/ByteBuffer.cpp:8-25 | contents kept; no reallocation if the need fits, else a 64·2^k block at least twice the old and 64 or below twice the need; bytes copied counted exactly, and in total below the capacity |
| `ByteBuffers.ByteBuffer.Append` | core/ByteBuffer.cpp:95-101 | contents extended by exactly the bytes; grows only if they do not fit, copying the old contents once; capacity 64 or below twice the largest length asked for |
| `ByteBuffers.ByteBuffer.Clear` | core/ByteBuffer.cpp:107-107 | contents empty |
| `ByteBuffers.ByteBuffer.Resize` | core/ByteBuffer.cpp:142-145 | the length asked for, common prefix kept, growth as for append |
| `ByteBuffers.ByteBuffer.AppendBuffer` | core/ByteBuffer.cpp:111-114 | contents extended by the other's, growth as for append; the other is unchanged unless it is this buffer, whose contents then double |
| `ByteBuffers.ByteBuffer.CopyFrom` | core/ByteBuffer.cpp:61-67 | contents become the other's, which is unchanged; the block is reused if they fit and nothing is copied by growth; self-copy harmless |
| `ByteBuffers.ByteBuffer.MoveFrom` | core/ByteBuffer.cpp:69-83 | allocation, contents and growth history taken over, the other left empty without allocation; self-move harmless |
| `ByteBuffers.ByteBuffer.Slice` | core/ByteBuffer.cpp:150-157 | a fresh buffer of exactly the range, filled without copying by growth; an error iff the range is not within the contents |

## Left out

- Sockets, epoll, fcntl and the insides of accept, recv and send: they are environment choices. The 8192-byte bound on one recv is not imposed, so the model has more runs than the program.
- OpenSSL: only inverse and length laws are used, and nothing is said about secrecy or authenticity.
- C++ data races on `_rid`, `_connections` and `_state`, the order of destruction, and the client thread joining itself in `close()`: each method is one atomic step.
- Stack depth: the recursion of close and send ends in `crashed` when the list of attempts ends; methods of the connection classes ask for a connection that has not crashed.
- User callbacks are recorded events; route handlers and close callbacks that throw are not part of this model, and the error callback answers by connection id alone. Calling `listen` again after its loop has thrown is not modelled.
- `Server::stop` as an event of the table's runs, its sockets and its race with the loop, and several stale events for one descriptor in one epoll batch.
- `Header`, `makeFlags`, the error classes, accessors, `strToU16`/`strToU32`/`strToU64`, and the `ByteBuffer` operators `+`, `[]`, `toString` and `reserve`: they would only add easy members.
- Frames.PlainRoundTrip: bodies of 2^32 bytes or more are excluded, because the 4-byte length field cannot carry them.
- Frames.SealedRoundTrip: the same limit, 28 bytes lower.
- Session.EndToEnd: assumes complete writes, frames within the receiver's limit, paths below 65536 bytes, a timely handshake and fewer than 2^32 sends each way; the client's single `send` takes everything, as it is not retried. The server stops being read once CLOSED.
- ServerTheorems.EmissionIsNumbered: bounds the number of sends below 2^32, beyond which frame ids wrap.
- ClientObject.Connection.CloseClient: leaves out the join of the loop's thread, which throws when `close()` is called on that thread (client/Connection.cpp:193-195); `close()` is a step that returns.
- ClientLaws.LastReadIs: holds of a `close()` that returns to the loop, as above.
- ClientLaws.EndInHandshakeDelivers: holds of a `close()` that returns to the loop, as above.
- ByteBuffers.ByteBuffer.AppendBuffer: appending a buffer to itself when it must grow is excluded, since growth frees the bytes being read.
- ByteBuffers.ByteBuffer.Resize: the bytes beyond the old length are unspecified, as in the source; the contract does not fix them.
- ThreadPool.ExitedMeansDone: assumes tasks return; a task enqueued after the last worker exited is never run.
