# Verified model of the K1 vision and odometry stack

A camera (ESP32) streams JPEG frames in CoAP blocks to a K1 board. The board reassembles them, runs inference on
them, keeps its own position from an inertial sensor, and writes logs, JSON records and a face database. This project
models the parts of that software that carry an argument, and proves what they are for.

| part | modules | main results |
|---|---|---|
| CoAP options, packets, round trips | Bytes, CoapOptions, CoapServerWire, CoapReceiverWire, CoapRoundTrip, CoapGrammar | `ResponseRoundTrip`, `RequestRoundTrip`, `PathArrivesIff`, `RequestIff`, `ResponseIff` |
| Video link, sending | StreamFrames, StreamServer, SenderInvariant, StreamSchedule, StreamTicks | `SenderRunKeeps`, `TickDecides`, `TickStarts`, `FrameByTicks`, `StaysUntilIdle`, `AllSentBeforeRecapture` |
| Video link, receiving | Block2Assembly, Block2Completion, Block2Rules, CoapReceiver, StreamTimeout, JpegAssembler, JpegRules, JpegCompletion | `AnyOrderCompletion`, `IgnoredIff`, `DroppedIffOverdue`, `ReturnedIffFinalAfterAll` |
| Video link, end to end | StreamSystem, StreamDelivery, StreamTimeout, StreamStale | `StreamSafety`, `FrameDelivered`, `DeliveredInTime`, `ReturnedInTime`, `TakenIffShorter` |
| Error-state covariance, quaternions | LinearAlgebra, OdometryCovariance, OdometryForm, OdometryFilter, Quaternion | `RunKeeps`, `UpdatedForm`, `NeverSingular`, `RotateIsMatrix`, `MatrixRoundTrip` |
| Lock-free log rings | LogRing, LogPush, LogShutdown | `RingSafety`, `PushFate`, `EveryCallCounted`, `PassEmits`, `ShutdownEmitsAll` |
| Matrix inverse, Base64, depth fusion | Reals, GaussJordan, Base64, DepthFusion, DepthMean | `MatrixInverse4x4`, `DecodeEncoded`, `EncodeDecoded`, `FusedNear`, `FusedIsMean` |
| JSON writer | JsonText, JsonRoundTrip, JsonLayout, JsonWriter | `JsonRoundTrips`, `TextIsLines`, `LinesNested` |
| Face database | FaceDatabase, FaceRoundTrip, FaceJson, FaceLoad, FaceStore | `DatabaseRoundTrip`, `ExactIffNamed`, `SavedIsJson`, `LoadRegisters`, `FoundIffShort` |
| Caches | FaceGallery, GalleryRuns, FrameSkip, FrameDecision | `RunKeptIffFits`, `UpdateRecords`, `PruneRun`, `SkippingBounded`, `SkipsExactly` |

Where the source changes objects and buffers in place, a class or a method over arrays does the same, and its contract
equates the new state with a function of the old one. The theorems are lemmas about those functions, over every input,
every run or every interleaving. A network, clock, allocator or camera enters as a step parameter with any value.

## How the code differs from what one might expect

- A path of five or more segments loses all but the first four on its way (`FifthSegmentLost`). For any path
  with a segment, the camera sees the segments joined if and only if there are at most four and the join is shorter than 32
  (`PathArrivesIff`).
- A frame of exactly 131072 octets is published and then never handed over, because one limit is inclusive and the other
  is not. Of frames whose blocks all came, the consumer gets exactly the shorter ones (`TakenIffShorter`).
- A frame of more than 128 blocks never completes on the K1 (`NeverBeyondMap`).
- The gallery compares whole identities but keeps 31 characters of them, so one person can be kept twice. From any
  gallery in order, an update leaves it in order if and only if the identity is shorter than 32 or no other active entry
  holds its first 31 characters (`FaceGallery.KeptIffFits`; over every run `FaceGallery.RunKeptIffFits`; the smallest
  case is `DedupIffShort`). The face database has the same gap (`FaceRoundTrip.KeptIffFits`,
  `FaceRoundTrip.RunKeptIffFits`, `FoundIffShort`).
- An entry that a thread still pushes to a ring after the final drain has passed it is accepted and never written.
  `ShutdownEmitsAll` gives the exact condition over every run: everything accepted is out if and only if no step of the
  run was such a push; `LateEntryLost` is a run that loses one.
- The database loader skips entries whose identity is empty, so loading restores exactly what was saved if and only if
  no active identity is empty (`ExactIffNamed`).
- The saved face database escapes quotes and backslashes only, so it is a JSON text if and only if no active identity has a
  control character (`SavedIsJson`); the loader reads it back in either case.
- The JSON writer's output is a JSON text exactly when no key is NULL and every float is finite (`JsonRoundTrips`).
- The Python client completes a frame only on its final block. Over a whole frame, with blocks in any order and any
  repeats, it returns the frame if and only if some arrival of the final block comes after every other block
  (`ReturnedIffFinalAfterAll`; on datagrams, `FrameReturned`; against the clock, `ReturnedInTime`, with the exception
  that a frame begun at time 0 never grows old); `FinalOvertakes` is the smallest loss. The K1 completes in any order.
- A subscription whose last request fell on clock reading 0 is never pruned (`StaysUntilIdle`).
- A video frame without pixels is skipped or not by the comparison made last, not by one of its own (`EmptyFrame`).

## Model

| member | source | states |
|---|---|---|
| CoapOptions.ReadEncoded | src/coap_receiver.c:316-335 | Every option the encoder can write, with or without extension octet, is read back with its delta, value and remainder, and never looks like the payload marker |
| CoapOptions.DecodeEncoded | src/coap_receiver.c:452-513 | Any ascending list of encodable options with a payload behind it decodes to that list and payload |
| CoapOptions.NextOption | receive/coap_server.h:430-442 | The cursor loop accepts exactly the options that can be read, and never steps past the packet |
| CoapOptions.UintAt | src/coap_receiver.c:497-500 | The shift loop yields the big-endian value modulo 2^32 for a value of any length |
| CoapOptions.ReadToken | src/coap_receiver.c:444-448 | The token is the octets behind the header; a packet too short for it is refused |
| CoapServerWire.UintOctetsValue | receive/coap_server.h:361-373 | The octets denote the number, for every number below 2^24, and are as few as can be |
| CoapServerWire.EncodeUintOption | receive/coap_server.h:356-393 | The buffer routine appends exactly the option and leaves what is before it |
| CoapServerWire.BuildResponse | receive/coap_server.h:510-564 | The packet in the buffer, from header to payload cut to the room left, never beyond out_max; empty below 16 |
| CoapServerWire.AppendSegment | receive/coap_server.h:444-450 | A joined path never outgrows its 32-octet buffer, whatever the option holds |
| CoapServerWire.ParseRequestPacket | receive/coap_server.h:400-468 | The cursor parser accepts or refuses every octet string as the recursive parser does, with the same request |
| CoapReceiverWire.ParseResponsePacket | src/coap_receiver.c:434-516 | The cursor parser accepts or refuses every octet string as the recursive parser does, with the same response |
| CoapReceiverWire.ScanPath | src/coap_receiver.c:349-375 | The scanner yields the first four non-empty pieces shorter than 32, and fails on a path of slashes only |
| CoapReceiverWire.BuildUriOptions | src/coap_receiver.c:377-389 | The option buffer is the encoding of one Uri-Path option per segment |
| CoapReceiverWire.BuildRequest | src/coap_receiver.c:733-805 | GET and PUT packets for every path and buffer size, empty when the source returns 0 |
| CoapRoundTrip.Block2RoundTrip | receive/coap_server.h:395-398 | Number, more flag and size exponent are recovered from the Block2 value, for numbers below 2^20 |
| CoapRoundTrip.ReplyOptionsEncoded | receive/coap_server.h:526-552 | The options a response writes are the encoding of its ascending option list |
| CoapRoundTrip.ResponseRoundTrip | src/coap_receiver.c:434-516 | Parsing what the camera builds recovers token, ETag, Content-Format, Block2, Size2, payload and which options were there |
| CoapRoundTrip.BlockOctets | receive/coap_server.h:510-590 | The octets of a stream block, option by option, as sections 3 and 3.1 of RFC 7252 lay them out, each number in the one to three octets it needs |
| CoapRoundTrip.RequestOctets | src/coap_receiver.c:733-805 | The octets of a request for a resource with a name of up to 31 characters |
| CoapRoundTrip.TakeUriFields | receive/coap_server.h:444-450 | Reading Uri-Path options rebuilds the joined path while it fits 31 octets |
| CoapRoundTrip.RequestRoundTrip | receive/coap_server.h:400-468 | Parsing what the K1 builds recovers type, code, message ID, token, payload and the kept segments joined by slashes |
| CoapRoundTrip.PathArrivesIff | src/coap_receiver.c:346-410 | For every path with a segment, all else arrives, and the camera sees the segments joined if and only if there are at most four and the join is shorter than 32 |
| CoapRoundTrip.FifthSegmentLost | src/coap_receiver.c:356-375 | A path of five segments of which four are kept |
| CoapGrammar.DecodeIff | src/coap_receiver.c:452-513 | The octets that decode are exactly options in the octets of RFC 7252, section 3.1, then nothing or a marker and a payload, and they decode to these |
| CoapGrammar.RequestIff | receive/coap_server.h:400-468 | The camera takes exactly the packets of version 1, with type, code, message ID, token and payload as they stand |
| CoapGrammar.ResponseIff | src/coap_receiver.c:434-516 | The K1 takes exactly the packets, of whatever version |
| CoapGrammar.FieldsSay | src/coap_receiver.c:480-512 | Of options in any order with any repeats the last ETag and Size2 of at most four octets and the last non-empty Content-Format and Block2 are what the K1 reads |
| CoapGrammar.RequestFieldsSay | receive/coap_server.h:436-462 | What the camera reads of a request's options: the last Block2, and the path joined from the Uri-Path options |
| CoapGrammar.SegmentJoins | receive/coap_server.h:444-450 | A segment is joined behind a slash as far as 31 octets allow, up to its first NUL |
| StreamFrames.BlocksCover | receive/coap_server.h:572-578 | A buffer that holds every block of a frame in its place starts with the frame |
| Block2Assembly.SetOneBit | src/coap_receiver.c:554-561 | Setting a bit of a bitmap word sets that bit and no other |
| Block2Assembly.Assembler.ResetInPlace | src/coap_receiver.c:536-546 | The reset state, with size exponent and data buffer kept |
| Block2Assembly.Assembler.Mark | src/coap_receiver.c:555-557 | The bitmap as a set gains exactly the block number |
| Block2Assembly.Assembler.OpenInPlace | src/coap_receiver.c:589-610 | A new frame opened, the buffer grown to Size2 + 4096 or the frame given up |
| Block2Assembly.Assembler.AcceptInPlace | src/coap_receiver.c:612-674 | Refusal, overflow, storing and completion, with the state after each |
| Block2Assembly.Assembler.Add | src/coap_receiver.c:570-674 | The whole routine on the object is the routine on values |
| Block2Completion.CountCovers | src/coap_receiver.c:656-668 | Counting distinct block numbers below n reaches n exactly when all are there |
| Block2Completion.StoreKeeps | src/coap_receiver.c:632-653 | Storing a missing block leaves every other block of the frame in its place |
| Block2Completion.AllBlocksThere | src/coap_receiver.c:655-668 | The completion test holds exactly when the bitmap covers 0..n-1, and then the buffer holds the frame |
| Block2Completion.AcceptBlock | src/coap_receiver.c:612-674 | Completion is reported only for a whole frame, and the buffer then holds it byte for byte |
| Block2Completion.AddBlockSafe | src/coap_receiver.c:570-674 | Whatever was under way before, an announced frame is the frame whose ETag the packet carries |
| Block2Completion.AnyOrderCompletion | src/coap_receiver.c:570-674 | After block 0, blocks in any order with any repeats: complete exactly at the packet with the last missing block, at most once, and at some point if and only if all came |
| Block2Completion.NeverBeyondMap | src/coap_receiver.c:616-620 | A frame of more than 128 blocks never completes |
| Block2Rules.IgnoredIff | src/coap_receiver.c:570-674 | Whatever is held and whatever comes: a block is ignored exactly when there is no memory for its frame, it belongs to none or is there already, or it reaches beyond the buffer; and what each of these leaves behind |
| Block2Rules.StoredWhere | src/coap_receiver.c:632-653 | Any other block lies in its place in the buffer, and all else in the buffer is as before |
| Block2Rules.StoredCounts | src/coap_receiver.c:589-654 | The frame has one more block, under its ETag, and the last block tells the number of blocks and an unannounced length |
| Block2Rules.CompleteWhen | src/coap_receiver.c:655-674 | A frame is complete exactly when its last block has been seen and as many are there as that one tells |
| StreamServer.CoapServer.SendBlock | receive/coap_server.h:566-590 | One datagram with the block's reply, or none beyond the frame |
| StreamServer.CoapServer.SendBurst | receive/coap_server.h:320-330 | At most six blocks from where the transfer stands, in order |
| StreamServer.CoapServer.ServiceClientBlocks | receive/coap_server.h:304-340 | The slot after its burst and everything sent, including the cases in which nothing happens |
| StreamServer.CoapServer.ServiceAll | receive/coap_server.h:172-178 | Every slot in a transfer served once, in slot order |
| StreamServer.CoapServer.AnyInProgress | receive/coap_server.h:181-187 | Whether any client is still in a transfer |
| StreamServer.CoapServer.NeedsCapture | receive/coap_server.h:190-197 | Whether any client is due for a frame |
| StreamServer.CoapServer.LaunchAll | receive/coap_server.h:206-211 | Every due client started on the fresh frame and served |
| StreamServer.CoapServer.TickStream | receive/coap_server.h:166-212 | The whole tick: slots, ETag, shared buffer and datagrams |
| StreamServer.CoapServer.Find | receive/coap_server.h:610-627 | The slot a subscription takes: same address, same host, free, or least recently heard of |
| StreamServer.CoapServer.RegisterStream | receive/coap_server.h:607-643 | The slots after a subscription |
| StreamServer.CoapServer.PruneStaleStreams | receive/coap_server.h:103-117 | Clients idle longer than the timeout on the 32-bit clock are dropped, the others untouched |
| StreamServer.CoapServer.StopAllStreams | receive/coap_server.h:95-101 | All clients dropped |
| SenderInvariant.SentBlocksIds | receive/coap_server.h:320-330 | A burst is one datagram per block to the client's address, with consecutive message IDs |
| SenderInvariant.BurstKeeps | receive/coap_server.h:304-340 | A burst keeps the slot on the latest frame and its message IDs consecutive, also at the end of a frame |
| SenderInvariant.LaunchKeeps | receive/coap_server.h:293-302 | Starting a frame puts the slot on the frame just captured without a jump in message IDs |
| SenderInvariant.StepKeeps | receive/coap_server.h:166-212 | Ticks, registrations, prunes and stops keep the sender's invariant |
| SenderInvariant.SenderRunKeeps | receive/coap_server.h:166-212 | Over every run: each client mid-transfer has the latest ETag and the shared buffer, and consecutive IDs modulo 2^16 since its registration, across frames |
| SenderInvariant.AllSentBeforeRecapture | receive/coap_server.h:181-205 | The camera is asked for a frame only in a tick that has sent every client mid-transfer all the blocks it lacked |
| SenderInvariant.BufferStays | receive/coap_server.h:166-212 | In every other step the shared buffer stays as it is |
| StreamSchedule.SlotMeaning | receive/coap_server.h:257-291 | A subscription renews its own address, else takes its host's slot, else a free one; eviction only when all are in use by other hosts, of the least time of last request |
| StreamSchedule.RegisteredHosts | receive/coap_server.h:607-643 | The subscriber holds the slot, without a transfer and soon due; no other client is disturbed and no host gets two streams |
| StreamSchedule.RunHosts | receive/coap_server.h:95-212 | Over every run each host has at most one stream |
| StreamSchedule.WholeFrameSent | receive/coap_server.h:304-340 | Served at spaced times, a client gets its remaining blocks in order, each once, and the transfer ends exactly after the services that six blocks a time take |
| StreamTicks.TickDecides | receive/coap_server.h:172-202 | A tick takes the frame it is offered if and only if, after its first loop, no active client is in a transfer and some active client is 28 ms or more past its last frame |
| StreamTicks.TickStarts | receive/coap_server.h:166-212 | In such a tick every client due after the first loop is sent blocks 0 to min(6, total) - 1 of the new frame under the new ETag and stands there, or has finished with this tick as its last frame time; clients not due get nothing and stay as they are |
| StreamTicks.FrameByTicks | receive/coap_server.h:166-212 | After it, n ticks spaced by the block gap have sent the client blocks 0 to min(6 n, total) - 1 in order, each once, so the whole frame |
| StreamTicks.HostSends | receive/coap_server.h:166-212 | What a tick sends to a host is exactly what its client's log is extended by |
| StreamTicks.BurstOnce | receive/coap_server.h:304-306 | Served twice at one time, a client is sent nothing the second time |
| StreamTicks.SubscriberServed | receive/coap_server.h:166-212 | A new subscriber gets the first blocks from the first tick that finds no transfer going on, with its token, to its address, numbered from the message ID it asked with |
| StreamTicks.StaysUntilIdle | receive/coap_server.h:95-117 | Over every run from a subscription until its slot is taken again, the client stays exactly until a stop or a prune that finds it idle longer than its timeout on the 32-bit clock; one heard of at clock reading 0 no prune drops |
| JpegAssembler.ParsesAlike | receive/ov-imu-pwm.py:129-161 | On every option list that the strict parsers accept, the parser without bounds checks finds the same options and payload |
| JpegAssembler.JpegStreamAssembler.JoinNeeded | receive/ov-imu-pwm.py:213-216 | Blocks 0 to need-1 joined, or a missing key |
| JpegAssembler.JpegStreamAssembler.JoinSorted | receive/ov-imu-pwm.py:218-218 | All blocks joined in ascending order |
| JpegAssembler.JpegStreamAssembler.Conclude | receive/ov-imu-pwm.py:212-228 | A frame, not yet, or given up, with the state after each |
| JpegAssembler.JpegStreamAssembler.FeedData | receive/ov-imu-pwm.py:183-228 | The whole feed on the object is the feed on values, exceptions included |
| JpegRules.AnnouncedMeans | receive/ov-imu-pwm.py:212-228 | A final block with a length announced, whatever is held: nothing yet with too few blocks, an exception if one is missing all the same, else the blocks in order if they have that length and start like a JPEG |
| JpegRules.UnannouncedMeans | receive/ov-imu-pwm.py:217-228 | Without one: all the blocks there are in ascending order, if they start like a JPEG |
| JpegCompletion.PacketRoundTrip | receive/ov-imu-pwm.py:129-166 | The Python parser recovers from a response the token, block, ETag, size and payload that were built in |
| JpegCompletion.ConcludedFrame | receive/ov-imu-pwm.py:212-228 | Part of the way through a frame: it is returned exactly when every block is there and it starts like a JPEG |
| JpegCompletion.FeedBlockExact | receive/ov-imu-pwm.py:191-228 | A frame is returned exactly on its final block with no other missing; never anything else, never an exception |
| JpegCompletion.ReturnedIffFinalAfterAll | receive/ov-imu-pwm.py:183-228 | After block 0 of a JPEG, blocks in any order with any repeats: the frame is returned at most once, and if and only if it is one block or some arrival of the final block comes after every other block |
| JpegCompletion.FinalOvertakes | receive/ov-imu-pwm.py:206-215 | Three blocks of which the final one overtakes the middle one: all came, nothing is returned |
| CoapReceiver.AddBlockFits | src/coap_receiver.c:598-643 | Whatever arrives, the frame under way and a finished one stay within the data buffer |
| CoapReceiver.HandedOverIffShorter | src/coap_receiver.c:1242-1251 | A published frame reaches the consumer if and only if it is shorter than 131072 octets |
| CoapReceiver.OtherPackets | src/coap_receiver.c:881-905 | A malformed packet, another token or no Block2 option leaves the K1 as it is |
| CoapReceiver.PictureChanges | src/coap_receiver.c:906-941 | Only a block that completes a frame of 2 to 131072 octets with a JPEG header changes the picture on show; without memory there is then none |
| CoapReceiver.K1Receiver.Publish | src/coap_receiver.c:906-941 | Size and JPEG header checked, the frame copied out; a failed allocation loses it |
| CoapReceiver.K1Receiver.ProcessCoapPacket | src/coap_receiver.c:881-943 | The stream branch for every datagram, malformed ones included |
| CoapReceiver.K1Receiver.CheckTimeout | src/coap_receiver.c:1130-1137 | A frame older than the timeout is dropped, anything else kept |
| CoapReceiver.K1Receiver.GetLatestFrame | src/coap_receiver.c:1242-1251 | The frame handed over once, and only below the limit |
| StreamTimeout.DroppedIffOverdue | src/coap_receiver.c:1130-1137 | A frame still under way that a packet began at t is dropped by a check at u if and only if u - t > 4000 ms, whatever packets and checks came between |
| StreamTimeout.DeliveredInTime | src/coap_receiver.c:881-943 | From any state, block 0 of a JPEG of up to 128 KiB, then its blocks in any order with any repeats and any checks between: published, once, if and only if every block came before any check more than 4000 ms after block 0; the last missing block decides whether there was memory |
| StreamSystem.TickGenuine | receive/coap_server.h:166-212 | Every datagram of a tick carries a block of a captured frame under that frame's number |
| StreamSystem.GenuineRead | src/coap_receiver.c:434-516 | What the K1 reads out of a genuine datagram is what was put in |
| StreamSystem.AddKept | src/coap_receiver.c:570-674 | A genuine block keeps the assembly part of a captured frame, and what completes is a captured frame |
| StreamSystem.ArriveKept | src/coap_receiver.c:881-943 | Any genuine datagram keeps the K1's state tied to the captured frames |
| StreamSystem.ArrivePyKept | receive/ov-imu-pwm.py:183-228 | The same for the Python client, which does not raise |
| StreamSystem.RunKept | receive/coap_server.h:166-212 | The invariant of the whole link over every run |
| StreamSystem.StreamSafety | src/coap_receiver.c:881-943 | For every interleaving and every loss, duplication and reordering: each JPEG the K1 publishes or hands over and each the Python client returns is byte for byte a captured frame |
| StreamDelivery.SentInOrder | receive/coap_server.h:320-330 | What a client is sent is the datagrams of its blocks, in order, to its address |
| StreamDelivery.BlockRead | src/coap_receiver.c:434-516 | The K1 reads out of such a datagram the block that was cut, under the frame's tag |
| StreamDelivery.LaterArrives | src/coap_receiver.c:881-943 | A later block moves the K1 on, and the frame is published exactly with the last missing one |
| StreamDelivery.FrameDelivered | src/coap_receiver.c:881-943 | From any state: after block 0 of a JPEG of up to 128 KiB, blocks in any order with any repeats; the K1 publishes that frame, once, if and only if every block came |
| StreamDelivery.TakenIffShorter | src/coap_receiver.c:1242-1251 | When every block of a frame has come, the consumer gets it if and only if it is shorter than 131072 octets; one of that length it never gets |
| StreamDelivery.FrameReturned | receive/ov-imu-pwm.py:183-228 | From any state, on the datagrams of a frame, within four seconds of block 0, in any order with any repeats: the Python client returns it, once, if and only if it is one block or some arrival of the final block comes after every other block |
| StreamStale.ReturnedInTime | receive/ov-imu-pwm.py:183-228 | The same at any times: returned, once, if and only if it is one block or some final block comes after every other with no arrival up to it more than four seconds after block 0; begun at time 0 it never grows old |
| OdometryCovariance.StepTime | src/k1_odometry.c:535-545 | The time step lies between 0.5 and 100 milliseconds, whatever the time stamps |
| OdometryCovariance.TransitionMeaning | src/k1_odometry.c:690-704 | The transition adds dt times velocity to position errors and minus dt times (acceleration cross attitude error) to velocity errors, and keeps attitude errors |
| OdometryCovariance.SandwichQuad | src/k1_odometry.c:706-726 | The quadratic form of F P F' at x is that of P at F'x |
| OdometryCovariance.PredictionKeeps | src/k1_odometry.c:687-740 | Prediction keeps the covariance symmetric and positive semidefinite, for any transition and non-negative noise |
| OdometryCovariance.DetAtLeast | src/k1_odometry.c:226-230 | A symmetric 3x3 form that is at least e has a determinant of at least e^3 |
| OdometryCovariance.NeverSingular | src/k1_odometry.c:218-230 | On a covariance the innovation determinant is at least 1e-6 and the bail-out is not taken |
| OdometryCovariance.InverseIs | src/k1_odometry.c:232-242 | The closed form is the inverse of the innovation matrix |
| OdometryCovariance.CorrectedQuad | src/k1_odometry.c:244-313 | The corrected form is a form of P at a shifted point plus squares |
| OdometryCovariance.CorrectionKeeps | src/k1_odometry.c:195-314 | The zero-velocity correction keeps the covariance symmetric and positive semidefinite |
| OdometryCovariance.RunKeeps | src/k1_odometry.c:668-740 | Over every run of updates from creation: symmetric, positive semidefinite, and the correction never skipped |
| OdometryForm.PredictedForm | src/k1_odometry.c:687-740 | At any error x the predicted form is that of P at x carried back, plus dt times accelerometer variance on velocity and gyroscope variance on attitude, and none on position |
| OdometryForm.CorrectedForm | src/k1_odometry.c:195-314 | The corrected form at x is that of P at y plus 0.01 times the squared velocity residual, for the split of x at which both agree |
| OdometryForm.CorrectedBelow | src/k1_odometry.c:195-314 | The correction adds uncertainty in no direction |
| OdometryForm.UpdatedForm | src/k1_odometry.c:668-740 | One whole update at any error: carried back, split by the correction if standing still, plus the noise |
| OdometryForm.InitialForm | src/k1_odometry.c:431-443 | At creation the variances are 1, 0.01 and 0.001 for position, velocity and attitude |
| OdometryForm.StepTimeMeaning | src/k1_odometry.c:535-545 | The step is the time between the stamps from 0.5 to 100 ms, 0.5 ms below, and 10 ms beyond or at the start |
| OdometryFilter.K1Odometry.constructor | src/k1_odometry.c:431-443 | The initial diagonal covariance in the row-major array |
| OdometryFilter.Product | src/k1_odometry.c:706-715 | The triple loop is the matrix product |
| OdometryFilter.ProductT | src/k1_odometry.c:717-726 | The triple loop with swapped indices is the product with the transpose |
| OdometryFilter.BuildTransition | src/k1_odometry.c:690-704 | The array filled element by element is the transition matrix |
| OdometryFilter.AddNoise | src/k1_odometry.c:728-737 | Accelerometer noise on the velocity entries of the diagonal, gyroscope noise on the attitude entries, as `PredictedForm` tells them apart |
| OdometryFilter.K1Odometry.Predict | src/k1_odometry.c:687-740 | Step 8 on the array: at every error the form of P carried back plus the noise by direction |
| OdometryFilter.K1Odometry.Gains | src/k1_odometry.c:244-254 | The nine by three gain array |
| OdometryFilter.K1Odometry.BuildIdentityMinusKH | src/k1_odometry.c:286-299 | The array of I - K H |
| OdometryFilter.K1Odometry.ZuptUpdate | src/k1_odometry.c:195-314 | The covariance part of the correction on the array, bail-out included |
| OdometryFilter.K1Odometry.Update | src/k1_odometry.c:535-740 | Clamped time step, correction when standing still, then prediction; a covariance stays one |
| Quaternion.NormMultiplicative | src/k1_odometry.c:58-65 | The squared norm of a product is the product of the squared norms |
| Quaternion.ProductAssociative | src/k1_odometry.c:58-65 | The product is associative |
| Quaternion.ConjugateOfProduct | src/k1_odometry.c:51-65 | Conjugation reverses products |
| Quaternion.RotateIsMatrix | src/k1_odometry.c:67-93 | Rotating a vector is applying the rotation matrix, for every quaternion |
| Quaternion.RotatedIsPure | src/k1_odometry.c:67-81 | The scalar part that rotation drops is zero |
| Quaternion.RotationsCompose | src/k1_odometry.c:67-81 | Rotating by b and then by a is rotating by the product |
| Quaternion.LengthScaled | src/k1_odometry.c:67-81 | Rotation scales squared lengths by the fourth power of the norm; unit quaternions keep them |
| Quaternion.NormalizeUnit | src/k1_odometry.c:43-49 | What is longer than 1e-8 becomes a unit quaternion, the rest is left alone |
| Quaternion.UnitStays | src/k1_odometry.c:43-49 | Normalising leaves unit quaternions alone |
| Quaternion.BranchFinds | src/k1_odometry.c:98-125 | The branch taken belongs to a component whose square is at least a quarter |
| Quaternion.MatrixRoundTrip | src/k1_odometry.c:83-127 | Quaternion to matrix to quaternion gives the same unit quaternion up to sign through all four branches, with a divisor of at least 2 |
| LogRing.FullMeans | src/logger.c:202-210 | The test of a push is true exactly when 4095 entries were waiting as it loaded the read index |
| LogRing.PushedKept | src/logger.c:202-215 | Each sub-step of a push keeps the ring's invariant |
| LogRing.WrittenRing | src/logger.c:304-340 | Each sub-step of the writer keeps every ring's invariant |
| LogRing.UnownedKept | src/logger.c:184-199 | Registration touches only a ring that no thread owns, and publishes it with zero indices |
| LogRing.StepKept | src/logger.c:184-215 | Every step of any thread keeps the invariant of the whole logger |
| LogRing.RunKept | src/logger.c:184-379 | The invariant over every interleaving |
| LogRing.RingSafety | src/logger.c:202-338 | On each ring the output is a prefix of the accepted entries, in order, each once, none torn; the slot the writer holds until it advances the read index is not the slot being filled; no ring is used before it is allocated |
| LogPush.PushEnds | src/logger.c:202-215 | With the read index loaded, a push gives up if and only if 4095 entries were waiting then, and otherwise ends three sub-steps on with its entry accepted |
| LogPush.PushAlone | src/logger.c:202-215 | A whole push with nothing between: no trace with 4095 waiting, else its entry accepted and nothing else changed |
| LogPush.PushFate | src/logger.c:202-215 | Over every interleaving, a push that ends has lost its entry, and counted it, if and only if 4095 were waiting at the step that loaded the read index; else it was accepted |
| LogPush.EveryCallCounted | src/logger.c:202-215 | Over every interleaving: accepted, dropped and under way add up to the log calls that reached a ring |
| LogPush.RegistrationEnds | src/logger.c:184-199 | A thread gets the next ring, empty and allocated, exactly while fewer than 16 are in use |
| LogPush.PassEmits | src/logger.c:304-379 | Over every interleaving, what had been accepted on any ring when a pass of the writer began is out when it ends |
| LogPush.NeverStopsEarly | src/logger.c:363-376 | The writer leaves its main loop only after shutdown has been asked for |
| LogShutdown.Progress | src/logger.c:363-376 | Once producers stop, each writer step decreases a well-founded measure |
| LogShutdown.StepLeaves | src/logger.c:363-376 | No writer step leaves an entry behind, or makes up for one |
| LogShutdown.LeftBehindIffLate | src/logger.c:202-376 | Over every run: an entry has been left behind if and only if some push came after the drain had passed its ring |
| LogShutdown.ShutdownEmitsAll | src/logger.c:363-378 | Once producers have stopped, the writer returns, and every accepted entry is out if and only if no step of the run published its entry on a ring that the drain had already passed |
| LogShutdown.LateEntryLost | src/logger.c:363-378 | A run of sixteen steps in which an accepted entry is never written |
| GaussJordan.ReducedKept | src/utils.c:306-312 | Elimination keeps "right half times source equals left half" on a row |
| GaussJordan.UndoReduce | src/utils.c:306-312 | Elimination can be undone by a matrix that the next steps keep up to date |
| GaussJordan.ColumnKept | src/utils.c:283-313 | Swap, scale and elimination of a column keep the whole invariant and clear the column |
| GaussJordan.RunKept | src/utils.c:283-313 | The invariant holds to the end or to the column at which the routine gives up |
| GaussJordan.InverseCorrect | src/utils.c:274-321 | Success gives an inverse on both sides; failure leaves a column without an entry of size 1e-10 or more |
| GaussJordan.FindPivot | src/utils.c:284-291 | The first of the largest entries at or below the diagonal, and its size |
| GaussJordan.SwapRows | src/utils.c:293-299 | Two rows exchanged in place |
| GaussJordan.DivideRow | src/utils.c:301-304 | The pivot row divided in place by its pivot |
| GaussJordan.ReduceRow | src/utils.c:308-311 | A row reduced in place by the pivot row |
| GaussJordan.MatrixInverse4x4 | src/utils.c:274-321 | 0 with the two-sided inverse in dst, or -1 with dst untouched and no usable pivot in a column |
| Base64.DecodeEncoded | src/utils.c:475-497 | Decoding an encoding gives back the octets, for every octet string |
| Base64.EncodeDecoded | src/utils.c:475-497 | Whatever decodes is the encoding of what it decodes to |
| Base64.Encode | src/utils.c:475-497 | An encoding has 4 * ceil(n / 3) characters |
| Base64.Base64Encode | src/utils.c:475-497 | The encoding or the prefix that fits, NUL-terminated, nothing beyond out_len touched; -1 for a buffer without room |
| Base64.GallerySizing | src/face_gallery.c:208-217 | With the gallery's buffer size nothing is cut and the data can be decoded |
| DepthFusion.SelectedFront | src/spatial_engine.c:160-166 | The first places hold the least entries in order, and nothing is lost or added |
| DepthFusion.MedianIsMiddle | src/spatial_engine.c:156-168 | The result is an entry with at most n/2 smaller ones and more than n/2 no larger |
| DepthFusion.QuickMedian | src/spatial_engine.c:156-168 | The in-place routine returns that entry, permutes the array and leaves what is beyond n |
| DepthFusion.MedianNear | src/spatial_engine.c:257-260 | A strict majority within delta of d pins the median within delta of d |
| DepthFusion.MadNear | src/spatial_engine.c:262-266 | And bounds the median deviation by max(2 delta, 0.01) |
| DepthFusion.FusedNear | src/spatial_engine.c:257-280 | The fused depth is within delta + mult * max(2 delta, 0.01) of a true depth in [0.3, 120] |
| DepthFusion.MostAreInliers | src/spatial_engine.c:268-277 | With mult of at least 1, at least floor(n/2) + 1 estimates are averaged |
| DepthFusion.AddInliers | src/spatial_engine.c:268-277 | The loop sums and counts exactly the estimates within the threshold |
| DepthFusion.Fuse | src/spatial_engine.c:255-288 | Fused depth and confidence for any positive estimates, none included; the depth within [0.3, 120] |
| DepthFusion.Score | src/spatial_engine.c:282-284 | The confidence lies between 0.25 and 1 |
| DepthMean.FusedIsMean | src/spatial_engine.c:255-280 | The fused depth is the mean of the estimates within mult times max(median deviation, 0.01) of the median, the median if there are none, kept within [0.3, 120] |
| DepthMean.ConfidenceMeans | src/spatial_engine.c:282-288 | What the confidence lacks of 1 is the median deviation as a share of the median plus 0.01, at most three quarters |
| DepthMean.NoEstimate | src/spatial_engine.c:255-257 | Without estimates the depth is 120 and the confidence 0 |
| JsonRoundTrip.CharRoundTrip | src/json_writer.c:28-43 | Every octet's escape reads back as that octet |
| JsonRoundTrip.StringRoundTrip | src/json_writer.c:25-45 | A string reads back whatever follows; NULL reads back as no string |
| JsonRoundTrip.FloatRoundTrip | src/json_writer.c:91-94 | A rounded decimal reads back with its sign, digits and places, for any precision |
| JsonRoundTrip.IntRoundTrip | src/json_writer.c:86-89 | Every integer reads back |
| JsonRoundTrip.ValueReads | src/json_writer.c:14-110 | A value's text, at any depth and indentation, is read back as the value and leaves what follows, or is refused |
| JsonRoundTrip.JsonRoundTrips | src/json_writer.c:14-110 | The text of a tree parses back to the tree exactly when no key is NULL and every float is finite |
| JsonRoundTrip.CompactIsOneLine | src/json_writer.c:14-18 | Without indentation no newline is emitted |
| JsonLayout.TextIsLines | src/json_writer.c:14-110 | The text of any tree is the same list of lines for every indentation, each behind its comma, line break and indentation |
| JsonLayout.LinesNested | src/json_writer.c:14-72 | Every line stands exactly as deep as there are brackets open around it |
| JsonLayout.EscapedLength | src/json_writer.c:28-43 | Exactly quotes, backslashes and control characters are escaped: the seven with an escape of their own in two characters, the others in six |
| JsonWriter.JsonW.ObjBegin | src/json_writer.c:54-57 | Comma, line break and bracket; flag and depth after it |
| JsonWriter.JsonW.ObjEnd | src/json_writer.c:59-62 | Line break and bracket; flag and depth after it |
| JsonWriter.JsonW.ArrBegin | src/json_writer.c:64-67 | Comma, line break and bracket; flag and depth after it |
| JsonWriter.JsonW.ArrEnd | src/json_writer.c:69-72 | Line break and bracket; flag and depth after it |
| JsonWriter.JsonW.Key | src/json_writer.c:74-79 | Comma, line break, key and colon; no comma before the value |
| JsonWriter.JsonW.Scalar | src/json_writer.c:81-104 | One call for a string, number, boolean or null appends its text |
| JsonWriter.JsonW.KVec3 | src/json_writer.c:106-110 | A key with an array of three numbers |
| JsonWriter.JsonW.WriteEscaped | src/json_writer.c:25-45 | The loop over characters appends the escaped string |
| JsonWriter.JsonW.WriteValue | src/json_writer.c:14-110 | Driving any tree through the calls appends its text and restores the depth |
| JsonWriter.WriteDocument | src/json_writer.c:49-110 | A record from scratch parses back to its tree, on one line in compact mode |
| FaceRoundTrip.KeptIffFits | src/arcface_recognizer.c:276-301 | On any database in order, a registration with any identity keeps active identities distinct if and only if it is refused for want of room, the identity is shorter than 32, or no active entry holds its first 31 characters |
| FaceRoundTrip.RunKeptIffFits | src/arcface_recognizer.c:270-320 | Over every run of registrations, deletions and clearings, with identities of any length: distinct throughout if and only if every registration fits the database it meets |
| FaceRoundTrip.RunKept | src/arcface_recognizer.c:270-320 | So with identities shorter than 32 they stay distinct |
| FaceRoundTrip.RegisterThenFind | src/arcface_recognizer.c:276-311 | A registered identity is found with its feature, and no other entry changes |
| FaceRoundTrip.DeleteThenFind | src/arcface_recognizer.c:313-320 | A deleted identity is no longer found, and no other entry changes |
| FaceRoundTrip.FoundIffShort | src/arcface_recognizer.c:276-311 | A registered identity is found again, and kept once when registered twice, if and only if it is shorter than 32 |
| FaceRoundTrip.IdentityRoundTrip | src/arcface_recognizer.c:408-418 | An identity with quotes and backslashes anywhere is read back |
| FaceRoundTrip.FeatureRoundTrip | src/arcface_recognizer.c:429-442 | Eight-decimal numbers written one behind the other are read back |
| FaceRoundTrip.EntryRound | src/arcface_recognizer.c:398-453 | A round of the loader over a saved entry registers that entry and stops behind it |
| FaceRoundTrip.SavedFits | src/arcface_recognizer.c:380-385 | No saved database reaches the 4 MiB above which the loader refuses a file |
| FaceRoundTrip.DatabaseRoundTrip | src/arcface_recognizer.c:331-459 | Loading a saved database into an empty one gives exactly its active entries with a non-empty identity, in order |
| FaceRoundTrip.ExactIffNamed | src/arcface_recognizer.c:419-419 | The round trip is exact if and only if no active identity is empty |
| FaceJson.QuotedReads | src/arcface_recognizer.c:345-350 | An identity as the saver writes it is a JSON string of itself exactly when it has no control character |
| FaceJson.EntryReads | src/arcface_recognizer.c:345-357 | A saved entry is the JSON object of its identity and feature under the same condition |
| FaceJson.SavedIsJson | src/arcface_recognizer.c:341-362 | The saved file is a JSON text if and only if no active identity has a control character; it is then the tree of the active entries, in order, under version 1 |
| FaceLoad.LoadRegisters | src/arcface_recognizer.c:371-459 | Whatever a file holds, loading it is registering faces under names of 1 to 31 octets with features of 128 numbers; it succeeds if and only if there is one and room for it; empty files and those beyond 4 MiB hold none |
| FaceLoad.LoadKeeps | src/arcface_recognizer.c:371-459 | No file can bring a database out of order: at most 256 entries, active identities distinct, each shorter than 32 |
| FaceLoad.FindFirst | src/arcface_recognizer.c:400-424 | The search for a key finds the first place where it stands before the first NUL |
| FaceLoad.Skipped | src/arcface_recognizer.c:434-435 | Between numbers exactly the longest run of blanks, tabs, line ends and commas is skipped |
| FaceStore.ArcFaceRecognizer.Lookup | src/arcface_recognizer.c:303-311 | The first active entry under the identity, or none |
| FaceStore.ArcFaceRecognizer.RegisterFeature | src/arcface_recognizer.c:276-301 | The table after a registration, and whether there was room |
| FaceStore.ArcFaceRecognizer.DeleteEntry | src/arcface_recognizer.c:313-320 | The table after a deletion, and whether there was one |
| FaceStore.ArcFaceRecognizer.ClearDatabase | src/arcface_recognizer.c:270-274 | Nothing is left in the table |
| FaceStore.ArcFaceRecognizer.SaveDatabase | src/arcface_recognizer.c:331-368 | The text written piece by piece is the text of the active entries |
| FaceStore.ArcFaceRecognizer.LoadOne | src/arcface_recognizer.c:398-453 | One round of the loader for any text, which a NUL ends |
| FaceStore.ArcFaceRecognizer.LoadDatabase | src/arcface_recognizer.c:371-459 | The loader on any file: refusal by size, or the entries found before a NUL |
| FaceGallery.CreatedKept | src/face_gallery.c:19-24 | An empty gallery is in order |
| FaceGallery.UpdatedKept | src/face_gallery.c:36-135 | An update with an identity shorter than 32 keeps tracks and known identities distinct among active entries, and all of them below the count |
| FaceGallery.KeptIffFits | src/face_gallery.c:36-135 | On any gallery in order, an update with any identity keeps the order if and only if the identity is shorter than 32 or no other active entry holds its first 31 characters |
| FaceGallery.PrunedKept | src/face_gallery.c:137-152 | Pruning keeps that |
| FaceGallery.RunKept | src/face_gallery.c:36-152 | So it holds over every run with identities shorter than 32 |
| FaceGallery.RunKeptIffFits | src/face_gallery.c:36-152 | Over every run with identities of any length: in order throughout if and only if every update fits the gallery it meets |
| FaceGallery.UpdateShows | src/face_gallery.c:88-132 | Afterwards the track's entry is active with the new data, or another active entry under the identity is at least as similar; no other identity is touched |
| FaceGallery.EvictsOldestWhenFull | src/face_gallery.c:54-77 | A live entry gives way only when all 256 are live, and then one not seen for longest |
| FaceGallery.DedupIffShort | src/face_gallery.c:91-132 | The smallest case: a new gallery, two tracks under one known identity, told to be the same if and only if it is shorter than 32 |
| GalleryRuns.UpdateRecords | src/face_gallery.c:36-135 | On any gallery in order: which slot a sighting takes, that it shows the sighting there, that of two entries under one identity the one at least as similar stays active, and that all else stays |
| GalleryRuns.PruneDrops | src/face_gallery.c:137-152 | After a prune an entry is active if and only if it was and was seen no longer ago than the time to live; no other field changes |
| GalleryRuns.PruneRun | src/face_gallery.c:36-152 | Over every run ending in a prune, with identities of any length: the active entries are exactly those active before it whose track's last sighting lies within the time to live |
| FaceGallery.Store.ChooseSlot | src/face_gallery.c:45-86 | The scans pick the track's slot, else a free or expired one, else the oldest |
| FaceGallery.Store.Deduplicate | src/face_gallery.c:116-132 | The scan deactivates one of two entries under the identity |
| FaceGallery.Store.Update | src/face_gallery.c:36-135 | The gallery after an update, in place |
| FaceGallery.Store.Prune | src/face_gallery.c:137-152 | The gallery after pruning, in place |
| FrameSkip.SkipKept | src/inference_pipeline.c:953-997 | A skipped frame keeps the bound and the cached result |
| FrameSkip.ProcessKept | src/inference_pipeline.c:1246-1252 | A processed frame keeps them, with its own result in the cache |
| FrameSkip.RunKept | src/inference_pipeline.c:949-1272 | They hold over every sequence of frames and resets |
| FrameSkip.SkippingBounded | src/frame_diff.c:216-275 | Never more than min(max(max_static, max_low), force - 1) skips in a row, and each skipped frame shows the detections, poses and faces of the last processed one |
| FrameSkip.SkippedIsSimilar | src/frame_diff.c:138-262 | A skipped frame with pixels has the reference's size, and a smaller share of its cells changed than the change threshold |
| FrameDecision.SkipsExactly | src/inference_pipeline.c:949-997 | A frame with pixels is skipped if and only if skipping is on, a result and a reference of its size are at hand, its share of change is below the threshold, fewer frames in a row were skipped than its activity allows, and no forced frame is due |
| FrameDecision.EmptyFrame | src/frame_diff.c:138-142 | A frame without pixels goes by the last comparison |
| FrameDecision.ActivityMeans | src/frame_diff.c:138-214 | Another size is all change; otherwise the activity goes by the share of changed cells |
| FrameDecision.RunCounts | src/frame_diff.c:216-275 | Over every run the controller counts the frames since the last reset and those skipped in a row |
| FrameDecision.WhatStays | src/inference_pipeline.c:949-1252 | A skipped frame leaves reference and result; a processed one becomes the reference unless it has no pixels or no buffer can be had |
| FrameSkip.FrameDiff.Compute | src/frame_diff.c:138-214 | Change ratio and activity from the cell differences, in all three cases |
| FrameSkip.FrameDiff.MustProcess | src/frame_diff.c:216-263 | The decision as a predicate of the state |
| FrameSkip.FrameDiff.SetReference | src/frame_diff.c:81-101 | The reference replaced; kept when a new buffer cannot be had |
| FrameSkip.FrameDiff.Reset | src/frame_diff.c:68-79 | Reference, counters and activity back to the start |
| FrameSkip.InferencePipeline.ProcessFrame | src/inference_pipeline.c:949-1252 | One frame: skipped or processed, the state and the result after it |
| FrameSkip.InferencePipeline.ResetPipeline | src/inference_pipeline.c:1263-1273 | The cache dropped and the controller reset |

## Left out

- Rounding of floats: all arithmetic is over the reals, and a square root is any function with the defining property of one.
- printf and strtof: a float enters the writers as the decimal that printf rounds it to, and strtof's hexadecimal, infinite and not-a-number forms and white space before a number are not part of the model.
- Shifts and masks are written as division, remainder and multiplication, but for the receiver's block bitmap, which is bit-vectors; integer widths are explicit where they wrap (message IDs, ETags, the millisecond clock, Block2 values, accumulated option values), the other counters are unbounded.
- Option numbers of 32 and more in the receiver's bitmap of options, where the source's shift is undefined; the model keeps a set of numbers.
- The pull request for a single frame (`/frame`, receive/coap_server.h:656-676), which may recapture the shared buffer during a transfer, and captures past 2^24, whose tags no longer fit three octets; the runs have neither.
- The text of the acknowledgement to a subscription; any response without a block may be sent at any time.
- CoapServerWire.BuildResponse: buffers of 16 to 31 octets that cannot hold header, options and marker, which the source does not check; the callers pass 1400.
- The IMU branch of the receiver, WiFi, sockets, reconnection timing and thread start-up.
- The Python client's own request encoder, and the servo and IMU handlers behind the requests.
- OdometryFilter.K1Odometry.Update: state integration and correction, velocity clamp, gravity initialisation, and the two standstill detectors, whose verdict is an input.
- log_flush, a second consumer of the rings, rotation, histograms, signal handlers, the writer's report of dropped entries between entries, and a second log_init in the life of a thread, which keeps its old ring index.
- A failed allocation of a ring, which the source does not check.
- Memory order of the rings: steps interleave with sequential consistency, which the fences are there to provide.
- The depth estimates from keypoints and boxes; the fusion takes any positive estimates, and any number of them.
- UTF-8 validity of strings: the JSON grammar is applied to octets, and an octet from 128 up is taken as part of a character.
- FaceStore.ArcFaceRecognizer.LoadOne: a text that ends inside an identity; there the source steps past the terminator, the model stops.
- FaceStore.ArcFaceRecognizer.LoadDatabase: a file that ends inside an identity, for the same reason.
- Infinite and not-a-number entries of a face feature.
- Recognition, feature extraction and similarity of faces; recognition results are inputs.
- face_gallery_clear, which resets the count and leaves entries active, the gallery's JSON report, and eviction among entries whose time stamps are all the largest 64-bit integer.
- FrameSkip.FrameDiff.Compute: the pixel loops; the mean absolute difference of each cell is an input.
- FrameSkip.InferencePipeline.ProcessFrame: the inference stages; what inference finds in a frame is an input.
