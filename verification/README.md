# A verified model of the audio/video path, the signaling codecs and the room stores

The repository sends audio and video between peers over QUIC and ICE, and finds the peers with a
signaling server. This project models the parts of it that hold state and make decisions, as Dafny
code proved against specification functions, and proves what whole runs of those parts guarantee.
`dafny verify dfyconfig.toml` checks everything.

| part | files | main results |
|---|---|---|
| video receiver | `Receiver`, `Decodability`, `Reassembly`, `IdrThrottle`, `Spacing` | when exactly every shown delta frame has its references; any partition of a frame in any order; when keyframes are asked for, and how often |
| video sender | `Sender`, `SenderRuns`, `Subsequences` | exactly what each peer is offered, queued and written, in every interleaving; sender to receiver over a lossy channel, and when everything is shown |
| jitter buffer | `JitterBuffer` | refines a bounded priority queue across the 32-bit wrap; every frame shown is one passed in, plane by plane; conservation; sorted output |
| rings | `Ring`, `PacketQueue`, `PostQueue` | first in first out; drop-oldest keeps the most recent items |
| JSON codec | `JsonText`, `JsonCode`, `SigMessage`, `CandidateArray`, `CandidateCode`, `BodyParts`, `SignalingLimits` | no key inside or across a printed value; message, request-body and candidate-array round trips, both directions |
| SSE codec | `Sse` | event and stream round trips, also through chunked framing |
| room stores | `SignalStore`, `MemoryStore`, `RedisStore`, `StoreSimulation`, `StoreLaws` | who is in a room; publisher ownership; capacity; index sets; the runs on which the stores are alike |
| reconnect | `Reconnect`, `PeerStates` | what raises an ICE restart, and that it is served; the fourth QUIC failure escalates; every raised request is made exactly once; when an escalated peer is connected all the same; what ends a media session; what a reused slot inherits |
| example client | `PeerClient`, `PeerClientRuns`, `RequestRace` | which frames reach the decoder, and since when it waits; exact loss accounting; when its two threads keep their requests apart; when the five-second timer expires |

`Machine` and `Text` hold machine integers and facts about strings.

How to read it: in each module datatypes and functions give the specification; classes and methods
below them follow the C and Go code branch by branch and are proved to do what the specification
says, state change for state change; lemmas state what runs of the specification guarantee. The main
operations also have laws that do without their specification functions, on single fields or on the
events of a run alone (`OfferedIsDue`, `ShownAsPassedIn`, `LossIsAskedAbout`, `PartsComeBack`,
`EachUnderItsKey`, `ServedIsRead`, `ShownIffGateOpen`, `StateChanges`, `IceRestartIsRaised`,
`MembersHaveJoined`), so that a function and the code that follows it cannot be wrong together. Threads
are taken as atomic steps from one lock to its release; where the code takes no lock, in the
example client's main loop, every access to a shared field is a step of its own (`RequestRace`).
Time is an input of each step, and the results of memory allocation, ICE state and connects are
inputs too. `uint32_t` and `uint64_t` wrap explicitly (`Machine`).

Where the code does not do what it was meant for, the code is modelled as it is, with an exact
condition:

- The receiver shows a delta frame without its reference exactly when, the gate being open, the
  frame comes behind a gap less than 200 ms after the last keyframe request, or directly behind
  a frame that was dropped because it is longer than 512 KiB or its copy found no memory
  (`DecodableIffGuarded`, `ThrottledLossIsShown`, `OversizedFrameBreaksTheChain`).
- The two stores part ways exactly when a peer joins a room that lists it already and has a free
  place: memory keeps a set, Redis appends a second entry (`AlikeIffNoRejoin`,
  `RejoinTellsThemApart`).
- A message that fits its structure survives its JSON form exactly when the fields printed as they
  are hold no quote and no backslash, SDP and candidate fit their buffers when escaped and hold no
  control characters but newline, return and tab, and the TTL is below 2^31 (`MessageRoundTrip`,
  `QuoteIsLost`, `ControlIsLost`, `LongTtlIsLost`). A candidate list, in a body that does not print
  the array's key in front of it, survives exactly when there is room for it and each candidate
  fits and holds no control character but newline (`CandidatesRoundTrip`, `CarriageReturnIsLost`).
- The example client's two threads make their keyframe requests at the promised distances exactly
  when no thread, overtaken by a request of the other since it has read the clock or looked, makes
  its own too close to that one; no lock prevents it (`SpacedIffNoCollision`,
  `WatchdogIsOvertaken`, `ReceiverIsOvertaken`).
- Its five-second wait for a keyframe is found expired at once, by unsigned wrap-around, exactly
  when the request made last is younger than the clock reading of the main loop's turn
  (`WhenTheTimerExpires`, `YoungRequestExpires`); and between test and reset the wait may have
  become another (`NewWaitIsEnded`).
- A peer whose ICE restart is pending is connected before the request has been made exactly when a
  start pass comes after ICE has been reported complete, since that pass does not look at the
  pending request; both calls may fall into one turn of the engine
  (`EscalatedConnectsIffStarted`, `EscalatedWaitsForItsRequest`,
  `EscalatedIsConnectedAllTheSame`).
- The close of a superseded connection ends the media session of the connection that is up, and
  nothing but a new connection brings one back (`SessionEnds`, `SilentUntilNextConnection`,
  `StaleCloseSilences`).
- A new peer in a slot used before inherits its predecessor's failure count and flags, so that its
  first failure may escalate (`NewPeerInherits`, `NewPeerEscalatesAtOnce`).

## Model

| member | source | states |
|---|---|---|
| Decodability.DecodableIffGuarded | src/p2p/src/p2pav.c:968-1054 | In any run of whole frames of any size with increasing numbers, each with memory for its copy or without: every delivered delta frame chains through consecutively numbered delivered frames back to a keyframe or the first frame, if and only if no delta frame that finds the gate open and is not dropped comes behind a gap less than 200 ms after the last keyframe request, or directly behind a dropped frame |
| Decodability.ContiguousIsShown | src/p2p/src/p2pav.c:968-1107 | Whole frames numbered without a gap, none of them dropped, are all delivered, and are decodable |
| Decodability.ThrottledLossIsShown | src/p2p/src/p2pav.c:972-981 | A concrete run of one-byte frames in which a second loss within the throttle is shown without its reference |
| Decodability.GuardDecides | src/p2p/src/p2pav.c:968-1007 | Frame by frame: the guard fails exactly where a delta frame is delivered whose predecessor is missing |
| Decodability.DecodableIffUnbroken | src/p2p/src/p2pav.c:998-1006 | The chain property holds of all frames exactly when no delivered delta frame lacks its immediate predecessor |
| Decodability.RunIsGate | src/p2p/src/p2pav.c:939-1111 | In a run of whole frames each frame is delivered at once, unaltered, or held back or dropped, as the gate automaton says |
| Decodability.OversizedFrameBreaksTheChain | src/p2p/src/p2pav.c:1022-1027 | A concrete run in which the delta frame behind a frame one byte too long is shown without its reference |
| Decodability.WholeStep | src/p2p/src/p2pav.c:939-1111 | One whole frame: the three-buffer receiver and the four-field gate automaton agree on state and output, also for a frame too long or without memory |
| Decodability.OutputIsSubsequence | src/p2p/src/p2pav.c:1022-1107 | What the callback sees of a run of whole frames, dropped ones included, is a subsequence of what arrived, payload for payload |
| Decodability.DeliveredInOrder | src/p2p/src/p2pav.c:1044-1107 | Outputs that are each nothing or the arriving frame make up a subsequence of the arrivals |
| Reassembly.AnyPartitionInAnyOrder | src/p2p/src/p2pav.c:1009-1075 | For any partition of an audio, data or video frame into non-empty disjoint fragments, in any order of arrival: nothing is delivered before the last fragment, and with it the original frame, if and only if the frame fits the buffer and its copy finds memory; keyframes come through gate and gaps, delta frames through an open gate without a gap |
| Reassembly.PiecesSoFar | src/p2p/src/p2pav.c:1009-1048 | As long as bytes are missing nothing is delivered, and the buffer holds exactly the bytes of the fragments received |
| Reassembly.OversizedIsDropped | src/p2p/src/p2pav.c:1022-1027 | No fragment of a frame that is too long for its buffer brings anything |
| Reassembly.PieceStep | src/p2p/src/p2pav.c:1009-1075 | One more fragment through the whole receive path keeps that invariant or completes the frame |
| Reassembly.AcceptPiece | src/p2p/src/p2pav.c:1009-1075 | One more fragment into the buffer keeps the invariant or delivers the frame |
| Reassembly.FullCover | src/p2p/src/p2pav.c:1038-1044 | Disjoint fragments of a frame whose lengths add up to its length leave no byte uncovered, which is why counting bytes suffices |
| Reassembly.CoveredSize | src/p2p/src/p2pav.c:1038-1039 | Disjoint fragments cover exactly as many positions as they have bytes |
| Reassembly.KindsAreIndependent | src/p2p/src/p2pav.c:959-966 | A fragment of one kind never touches the buffer of another kind |
| Reassembly.RoomForEachKind | src/p2p/src/p2pav.c:295-297 | Video frames have room for 512 KiB, audio frames for 8 KiB, data frames for 64 KiB |
| Reassembly.OlderIsIgnored | src/p2p/src/p2pav.c:1010-1014 | A fragment of an older frame leaves the open frame as it is |
| Reassembly.NewerStartsAfresh | src/p2p/src/p2pav.c:1010-1028 | A fragment of a newer frame is received as if no frame had been open |
| Reassembly.OutsideIsPassedOver | src/p2p/src/p2pav.c:1030-1036 | A fragment outside the announced length or the buffer leaves the open frame as it is |
| Receiver.StepKeepsOk | src/p2p/src/p2pav.c:1022-1036 | Every step keeps open frames within their buffers and received counts within announced lengths |
| Receiver.AcceptKeepsOk | src/p2p/src/p2pav.c:1022-1036 | The same for one buffer and one fragment |
| Receiver.PeerState.OnDataRecv | src/p2p/src/p2pav.c:939-1111 | The whole callback: new state, output and keyframe requests are those of the step function |
| Receiver.PeerState.NoteLoss | src/p2p/src/p2pav.c:969-991 | Gap detection and cut-frame detection, each with its own throttled request |
| Receiver.PeerState.RequestKeyframe | src/p2p/src/p2pav.c:975-980 | A request is made, and the gate closed, when 200 ms have passed since the last, by unsigned difference |
| Receiver.PeerState.PassGate | src/p2p/src/p2pav.c:993-1006 | A closed gate opens for the first fragment of a keyframe only |
| Receiver.PeerState.Reassemble | src/p2p/src/p2pav.c:959-962 | The fragment goes to the buffer of its kind and changes no other |
| Receiver.PeerState.constructor | src/p2p/src/p2pav.c:257-318 | The state of a new session: nothing open, nothing seen, gate open, buffers of 512, 8 and 64 KiB |
| Receiver.ReasmBuf.AcceptFragment | src/p2p/src/p2pav.c:1009-1073 | Stale, oversized and out-of-bounds fragments, copying, completion and failed allocation, exactly as specified |
| Receiver.ReasmBuf.Open | src/p2p/src/p2pav.c:1015-1028 | Resets the buffer for a new frame, refusing one that is too long |
| Receiver.ReasmBuf.Copy | src/p2p/src/p2pav.c:1038 | The payload replaces exactly its own range of the buffer |
| Receiver.ReasmBuf.Init | src/p2p/src/p2pav.c:57-63 | An empty buffer of the given size, or none without memory |
| IdrThrottle.RequestRate | src/p2p/src/p2pav.c:969-991 | Under a non-decreasing clock one peer is asked at most 1 + (t1 - t0) / 200000 times in any interval of microseconds |
| IdrThrottle.RequestsSpaced | src/p2p/src/p2pav.c:969-991 | Over any run any two requests are at least 200 ms apart |
| IdrThrottle.StepAsksInTime | src/p2p/src/p2pav.c:969-991 | One callback, with its two places to ask, keeps the spacing |
| IdrThrottle.LossIsAskedAbout | src/p2p/src/p2pav.c:969-1006 | In every run, fragments and cut frames included: a video fragment makes the receiver ask for a keyframe, and shuts the gate unless it begins a keyframe, exactly when it comes behind a gap or cuts a frame short and no request lies less than 200 ms back |
| IdrThrottle.AskedInStep | src/p2p/src/p2pav.c:969-1006 | One video fragment in any state: both places that ask, and the gate |
| IdrThrottle.RequestReachesTheApplication | src/p2p/src/p2pav.c:945-966 | The application is told that a keyframe is wanted exactly by a request of the other side, which changes nothing else; control frames do nothing |
| Spacing.RateBound | src/p2p/src/p2pav.c:976-980 | Instants with a minimum gap number at most one more than the gaps that fit the interval |
| SenderRuns.EndToEnd | src/p2p/src/p2pav.c:1143-1156 | For any interleaving at the sender, any peer and any lossy in-order selection of its video, of any size and with memory at the receiver or without: the receiver sees increasing whole frames, delivers a payload-identical subsequence of what was sent to that peer, and what it delivers is decodable exactly under the guards of its gate |
| SenderRuns.AllNumbersAllShown | src/p2p/src/p2pav.c:1143-1156 | A peer that gets every video entry of a run from some entry on, say from its own keyframe, each fitting and finding memory, is shown every one of them, and decodes all it is shown |
| SenderRuns.InjectionIsAGapForOthers | src/p2p/src/p2pav.c:1143-1150 | The keyframe handed to one peer takes a number no other peer gets: the next frame comes to every other peer two numbers on |
| SenderRuns.OfferedIsDue | src/p2p/src/p2pav.c:506-554 | In every interleaving, across the 32-bit wrap and with copies failing: a peer is offered exactly all audio and video sent while it was connected with an agent, its own data, and the keyframe cached last whenever it connects to a publisher, each under its number and as far as its copy found memory, in order, and nothing else; what is due is told from the events alone |
| SenderRuns.ConnectingPeerGetsTheKeyframe | src/p2p/src/p2pav.c:1143-1156 | Behind any run, a peer that connects to a publisher finds the keyframe cached last at the end of its queue, under the number that was next; every other peer stays as it was |
| SenderRuns.EventsTell | src/p2p/src/p2pav.c:529-552 | States, agents, cache and both counters of any run are what its events say |
| SenderRuns.FlushWritesWholeKinds | src/p2p/src/p2p_adapter.c:1187-1234 | A flush writes, kind by kind, all that was queued, in order, or nothing: video with a video track and its subscription, audio with an audio track and its subscription, data with an open channel; nothing of other kinds, and nothing without a session |
| SenderRuns.NumberedWithoutGap | src/p2p/src/p2pav.c:547-552 | The video entries a run hands out are numbered without a gap |
| SenderRuns.QueueHoldsTheLast | src/p2p/src/p2p_adapter.c:590-641 | In every run in which no copy fails, each peer's queue holds exactly the last 32 entries it was due since its last clear or effective flush |
| SenderRuns.EveryPeerInOrder | src/p2p/src/p2pav.c:547-552 | In every interleaving of sends, keyframe injections, flushes, clears and reconnects each peer's written and queued entries are a subsequence of those offered to it, with strictly increasing video numbers |
| SenderRuns.OfferedWasSent | src/p2p/src/p2pav.c:506-554 | What a peer has been offered in a run is a subsequence of what the run's sends, and the keyframes handed to connecting peers, have sent |
| SenderRuns.CacheIsLatest | src/p2p/src/p2pav.c:529-540 | The keyframe handed to a connecting peer is the one cached last in the run |
| SenderRuns.RunGood | src/p2p/src/p2pav.c:547-552 | The invariant behind it, over runs shorter than the 32-bit counter |
| SenderRuns.ApplyGood | src/p2p/src/p2pav.c:1143-1156 | Every event keeps the invariant and advances the video counter by at most one |
| SenderRuns.EnqueueGood | src/p2p/src/p2p_adapter.c:590-629 | Queueing an entry, dropping the oldest if full, keeps order and origin |
| SenderRuns.FlushGood | src/p2p/src/p2p_adapter.c:1187-1234 | Flushing keeps order and origin, whatever the transport is subscribed to |
| SenderRuns.ClearGood | src/p2p/src/p2p_adapter.c:631-641 | Clearing keeps order and origin |
| Sender.Session.VideoSend | src/p2p/src/p2pav.c:519-554 | Whole new session state: keyframe cached if memory allows, one number taken, the frame offered to every eligible peer; nothing when stopped or muted |
| Sender.Session.NumberAndSend | src/p2p/src/p2pav.c:547-552 | Number and fan-out under one lock |
| Sender.Session.AudioSend | src/p2p/src/p2pav.c:620-634 | The same for audio, with its own counter |
| Sender.Session.SendToAll | src/p2p/src/p2pav.c:506-517 | Exactly the eligible peers get the entry, each in its own ring |
| Sender.Session.OnQuicConnected | src/p2p/src/p2pav.c:1135-1156 | The connected peer alone gets the cached keyframe, at the end of its queue, under a fresh number of the common counter (over runs: SenderRuns.ConnectingPeerGetsTheKeyframe) |
| Sender.Peer.Push | src/p2p/src/p2p_adapter.c:590-629 | The head-and-count ring implements the drop-oldest queue, of 32 entries, the oldest lost even when the copy fails; refused unless QUIC is connected |
| Sender.Peer.Clear | src/p2p/src/p2p_adapter.c:631-641 | Empties the ring and changes nothing else |
| Sender.Peer.Flush | src/p2p/src/p2p_adapter.c:1187-1234 | Everything queued is taken out in order; exactly the entries of subscribed kinds are written, in that order, those for the data channel only with memory for their message |
| Sender.Peer.FlushHead | src/p2p/src/p2p_adapter.c:1194-1230 | One round of the flush loop, the failed message of a data-channel entry included |
| Sender.Peer.DropHead | src/p2p/src/p2p_adapter.c:604-610 | The oldest entry leaves the ring |
| Sender.Peer.constructor | src/p2p/src/p2p_adapter.c:837-880 | A slot of a new engine: idle, empty ring, no session and no subscription |
| JitterBuffer.Jitter.Push | src/p2p/src/p2p_adapter.c:1387-1441 | Refines the abstract push: on a full buffer exactly one serially greatest frame is given up, then a frame is added whose three planes are the given ones up to line size times height, with the given line sizes, size, time and number; a free slot is always found |
| JitterBuffer.Jitter.Pop | src/p2p/src/p2p_adapter.c:1443-1479 | Refines the abstract pop: with two or more frames it always releases a serially least one with its planes; a lone frame exactly when it is old enough |
| JitterBuffer.Jitter.NewestSlot | src/p2p/src/p2p_adapter.c:1397-1403 | The eviction scan finds a serially greatest frame of the array, and none only when the array is empty |
| JitterBuffer.Jitter.OldestReadySlot | src/p2p/src/p2p_adapter.c:1453-1464 | The release scan finds a serially least ready frame, and none only when nothing is ready |
| JitterBuffer.Jitter.FreeSlot | src/p2p/src/p2p_adapter.c:1411-1415 | A free slot is found unless all eight are taken |
| JitterBuffer.Jitter.Occupy | src/p2p/src/p2p_adapter.c:1421-1439 | Filling a free slot adds exactly that frame |
| JitterBuffer.Jitter.Vacate | src/p2p/src/p2p_adapter.c:1404-1408 | Emptying a slot removes exactly its frame |
| JitterBuffer.Jitter.constructor | src/p2p/src/p2p_adapter.c:1367-1373 | An empty buffer |
| JitterBuffer.Conservation | src/p2p/src/p2p_adapter.c:1387-1479 | In every run every frame pushed is popped, evicted or still buffered, counted with multiplicity |
| JitterBuffer.ShownAsPassedIn | src/p2p/src/p2p_adapter.c:1387-1479 | In every run each frame is released, evicted and held together just as often as the application has passed it in, with just these planes, line sizes, size, time and number; so every frame released is one that was passed in |
| JitterBuffer.NeverMoreThanEight | src/p2p/src/p2p_adapter.c:1395-1418 | In every run at most eight frames are buffered |
| JitterBuffer.OutputSorted | src/p2p/src/p2p_adapter.c:1453-1475 | The output is in serial order, also across the wrap, if no pushed frame is serially older than the last one released |
| JitterBuffer.EvictionSparesTheOldest | src/p2p/src/p2p_adapter.c:1395-1409 | A serially least frame is evicted only if all buffered numbers are equal |
| JitterBuffer.ComparisonIsRfc1982 | src/p2p/src/p2p_adapter.c:1401 | The comparison by wrapped difference is the serial-number order of section 3.2 of RFC 1982 |
| JitterBuffer.OrderWithinHalf | src/p2p/src/p2p_adapter.c:1462 | Inside half of the number circle that comparison is a total order |
| JitterBuffer.NewestRound | src/p2p/src/p2p_adapter.c:1399-1403 | One round of the eviction scan keeps the greatest of the slots seen |
| JitterBuffer.OldestRound | src/p2p/src/p2p_adapter.c:1457-1464 | One round of the release scan keeps the least of the slots seen |
| Ring.RefusingIsFifo | src/p2p/src/p2p_packet_queue.c:26-62 | For every run on a ring that refuses when full: what came out followed by what is inside is exactly what was accepted, in order, within capacity |
| Ring.DroppingKeepsTheLast | src/p2p/src/p2p_adapter.c:590-641 | For every run on the drop-oldest ring in which no copy fails: it holds the last min(n, cap) items put since the last clear |
| Ring.DroppingHoldsATail | src/p2p/src/p2p_adapter.c:603-621 | For every run, failed copies included: it holds a tail of the items put since the last clear, within capacity |
| Ring.SegmentPush | src/p2p/src/p2p_packet_queue.c:35-43 | Writing behind the last slot, wrapping around, appends to the queue the slots stand for |
| Ring.SegmentPop | src/p2p/src/p2p_packet_queue.c:55-58 | Advancing the head, wrapping around, removes its first item |
| Ring.WrapIsRemainder | src/p2p/src/p2p_packet_queue.c:41 | The wrapped index is the remainder the code computes |
| PacketQueue.Queue.Push | src/p2p/src/p2p_packet_queue.c:26-46 | Refuses empty and oversized packets and a full queue, else appends |
| PacketQueue.Queue.Pop | src/p2p/src/p2p_packet_queue.c:48-62 | Gives back the oldest packet |
| PacketQueue.Queue.Init | src/p2p/src/p2p_packet_queue.c:5-15 | Refuses a capacity that is not positive, and a failed allocation |
| PacketQueue.Queue.Count | src/p2p/src/p2p_packet_queue.c:64-69 | The number of packets held |
| PacketQueue.Queue.constructor | src/p2p/src/p2p_packet_queue.c:5-15 | An empty queue of the given capacity |
| PostQueue.Queue.Enqueue | src/p2p/src/p2p_signaling.c:244-260 | Of 32 slots 31 are usable; refused when full or stopped, else the body is appended, unchanged up to 8191 characters and cut off there |
| PostQueue.Queue.Dequeue | src/p2p/src/p2p_signaling.c:267-280 | The worker takes the oldest body |
| PostQueue.Queue.constructor | src/p2p/src/p2p_signaling.c:244-250 | An empty queue of a running client |
| SigMessage.MessageRoundTrip | src/p2p/src/p2p_signaling.c:76-123 | For every message that fits its structure: parsing its text gives the message back if and only if its plainly printed fields hold no quote or backslash, SDP and candidate fit when escaped and hold no control characters but newline, return and tab, and the TTL is below 2^31 |
| SigMessage.StringsBack | src/p2p/src/p2p_signaling.c:112-119 | All strings come back exactly when all survive, the first one that does not being found for sure |
| SigMessage.FieldBack | src/p2p/src/p2p_signaling.c:112-119 | Behind surviving fields, a string comes back exactly when it survives itself |
| SigMessage.NumbersBack | src/p2p/src/p2p_signaling.c:65-74 | Type, port and TTL as the parser finds them behind surviving fields; a TTL of 2^31 or more is outside what atoi defines |
| SigMessage.EachUnderItsKey | src/p2p/src/p2p_signaling.c:85-101 | Each part of an intact message stands in its text under its own key, spelled out, where the getters find it |
| SigMessage.ParsedFromItsKeys | src/p2p/src/p2p_signaling.c:111-121 | Of any text the parser takes each string from its own key, cut to its place, and port and TTL as rests by 2^16 and 2^32 |
| SigMessage.QuoteIsLost | src/p2p/src/p2p_signaling.c:97 | A message lost for a quote in a name |
| SigMessage.ControlIsLost | src/p2p/src/p2p_signaling.c:28-29 | A message lost for a vertical tab in its SDP |
| SigMessage.LongTtlIsLost | src/p2p/src/p2p_signaling.c:121 | A message lost for a TTL of 2^31 |
| SigMessage.ToJson | src/p2p/src/p2p_signaling.c:76-103 | The text of the message, and success exactly when it fits the buffer |
| SigMessage.FromJson | src/p2p/src/p2p_signaling.c:105-123 | What the parser stores for any text |
| SigMessage.Snprintf | src/p2p/src/p2p_signaling.c:82-102 | Keeps what fits, terminated, and reports the full length |
| JsonText.NoKeyInString | src/p2p/src/p2p_signaling.c:37-43 | In a printed string field a key pattern matches nowhere but at the field's own start and for its own key: not inside the value and not across its ends |
| JsonText.NoKeyInNumber | src/p2p/src/p2p_signaling.c:65-71 | The same for a printed number |
| JsonText.OtherFieldSkipped | src/p2p/src/p2p_signaling.c:37-43 | Looking for another key passes over the field |
| JsonText.LookupObject | src/p2p/src/p2p_signaling.c:37-43 | In a printed object strstr finds each field's pattern exactly at that field |
| JsonText.EscapedQuotes | src/p2p/src/p2p_signaling.c:15-35 | In escaped text every quote has a backslash before it |
| JsonText.EscapeRoundTrip | src/p2p/src/p2p_signaling.c:15-63 | A string with room to spare behind the getter survives escaping into a buffer and reading exactly when it fits the buffer and has no control character besides newline, return and tab |
| JsonText.ControlIsPrintedAsItsCode | src/p2p/src/p2p_signaling.c:26-27 | A control character without a short form is printed as \u and the four hexadecimal digits of its code |
| JsonText.AtoiOfBlanksAndPlus | src/p2p/src/p2p_signaling.c:72 | Blanks and a plus sign in front of a number make no difference |
| JsonText.PlainRoundTrip | src/p2p/src/p2p_signaling.c:37-63 | A string printed as it is comes back exactly when it holds no quote and no backslash, whatever follows it |
| JsonText.NoBackslashesGained | src/p2p/src/p2p_signaling.c:44-58 | Reading never makes a string of itself with backslashes in front |
| JsonText.EscapeWholeIffFits | src/p2p/src/p2p_signaling.c:15-18 | The buffer receives the whole escaped text exactly when six characters are always left |
| JsonText.ShortTextFits | src/p2p/src/p2p_signaling.c:15-18 | A length up to which text always fits |
| JsonText.AtoiPrinted | src/p2p/src/p2p_signaling.c:65-74 | A printed number is read back exactly when it is an int |
| JsonText.ReadNumber | src/p2p/src/p2p_signaling.c:65-74 | A number field of a printed object comes back when it is an int |
| JsonCode.JsonEscape | src/p2p/src/p2p_signaling.c:15-35 | The loop leaves exactly the escaped text, cut before the last escapes that may not fit, terminated |
| JsonCode.JsonGetString | src/p2p/src/p2p_signaling.c:37-63 | The loop leaves exactly the decoded value, or nothing and -1 for a missing key |
| CandidateArray.CandidatesRoundTrip | src/p2p/src/p2p_signaling.c:149-225 | For every request body in which the key of the array is printed nowhere in front of it: the array parser recovers exactly the printed candidates if and only if there are no more than it has room for and each has at most 255 characters, fits its escape buffer and holds no control character but newline |
| CandidateArray.UndisturbedIsFound | src/p2p/src/p2p_signaling.c:153-155 | Then the array is found, and nothing is when there is none |
| CandidateArray.NoQuotesIsUndisturbed | src/p2p/src/p2p_signaling.c:199-212 | That is so whenever the parts printed as they are hold no quote |
| CandidateArray.CarriageReturnIsLost | src/p2p/src/p2p_signaling.c:166-172 | A candidate list lost for a carriage return |
| CandidateArray.OrdinaryCandidatesComeThrough | src/p2p/src/p2p_signaling.c:149-225 | Up to 16 candidates of up to 253 characters come back whatever quotes, backslashes and newlines they hold |
| CandidateArray.ItemsReadBack | src/p2p/src/p2p_signaling.c:156-185 | The same from any position of the array on, in front of any text that starts with the closing bracket |
| CandidateArray.ItemKept | src/p2p/src/p2p_signaling.c:162-181 | A candidate that survives is read back and the input left at its closing quote |
| CandidateArray.ItemLost | src/p2p/src/p2p_signaling.c:162-181 | A candidate that does not survive is read back as something else |
| CandidateArray.ArrayFound | src/p2p/src/p2p_signaling.c:153-155 | The array of a printed body is found whatever the other fields hold |
| CandidateArray.ArrayAbsent | src/p2p/src/p2p_signaling.c:154 | A body without candidates yields none |
| CandidateCode.BuildSignalJson | src/p2p/src/p2p_signaling.c:189-225 | Success exactly when the body fits, and then the buffer holds exactly the body; all calls stay inside the buffer exactly when all of the body but its closing brace fits; read back part by part, that text gives the parts (BodyParts.PartsComeBack) |
| BodyParts.PartsComeBack | src/p2p/src/p2p_signaling.c:195-225 | When type, peer, token, recipient and room hold no quote and no backslash, each comes back under its own key, the SDP exactly when it fits its buffer escaped and its control characters can be undone, and the getters report -1 exactly for a recipient, room or SDP left out, whatever the candidates hold |
| BodyParts.AllPartsBackIff | src/p2p/src/p2p_signaling.c:195-225 | For every body with parts no longer than their places: all six parts come back if and only if the five hold no quote and no backslash and the SDP survives escaping |
| BodyParts.MissingParts | src/p2p/src/p2p_signaling.c:204-212 | A part left out is not found, whatever the candidates hold |
| BodyParts.AbsentPart | src/p2p/src/p2p_signaling.c:39-42 | A key that no field has is found nowhere in the body, the array of candidates included |
| BodyParts.NoKeyInArray | src/p2p/src/p2p_signaling.c:213-222 | In the array of candidates a key pattern matches nowhere but at the key of the array |
| BodyParts.MissingNumberIsZero | src/p2p/src/p2p_signaling.c:69-70 | A number that is not there is read as 0 |
| BodyParts.SeparatorsAreSkipped | src/p2p/src/p2p_signaling.c:158-162 | Blanks and commas in front of an item make no difference to the array parser |
| CandidateCode.AppendStrings | src/p2p/src/p2p_signaling.c:195-212 | The snprintf calls up to the SDP leave the object without its closing brace, each part only when present; what they print under which key is BodyParts.PartsComeBack |
| CandidateCode.AppendArray | src/p2p/src/p2p_signaling.c:213-222 | The candidate array as one more field |
| CandidateCode.AppendItems | src/p2p/src/p2p_signaling.c:215-221 | The loop prints the candidates with commas between them |
| CandidateCode.FrontClosed | src/p2p/src/p2p_signaling.c:223 | Field by field printing and a closing brace give the text of the object |
| CandidateCode.ParseCandidatesArray | src/p2p/src/p2p_signaling.c:149-186 | The loop fills exactly the rows the specification reads, and stops at the first thing that is no string |
| CandidateCode.ReadRow | src/p2p/src/p2p_signaling.c:160-182 | One row in a buffer of its own, and the input behind its closing quote |
| CandidateCode.FillRow | src/p2p/src/p2p_signaling.c:163-179 | The inner loop: one row, cut to 255 characters, and the rest of the input |
| CandidateCode.SkipRun | src/p2p/src/p2p_signaling.c:159 | Blanks and commas between items are passed over |
| Sse.ServedIsRead | src/signaling_server/handler/sse_handler.go:77-97 | Any sequence of readable events and ticks the handler is woken up by is read back by as many calls: each event as it was queued, and for each tick the ping, over the abstract stream |
| Sse.WireFormat | src/signaling_server/handler/sse_handler.go:80-88 | An event is printed as a line with its type, a line with its data and a blank line |
| Sse.StreamRoundTrip | src/p2p/src/p2p_tls.c:328-368 | The same in front of any further stream, of which nothing is consumed |
| Sse.ChunkedRoundTrip | src/p2p/src/p2p_tls.c:270-367 | Through the chunked framing of HTTP/1.1, which the client leaves in its stream, any sequence of readable events comes back, one chunk each |
| Sse.SizeLine | src/p2p/src/p2p_tls.c:353-367 | The length of a chunk is passed over as a line that is neither an event nor data |
| Sse.EventRoundTrip | src/p2p/src/p2p_tls.c:328-368 | An event that fits comes back as printed if and only if it is not empty and no field starts with a space or ends with a carriage return |
| Sse.ReadPrinted | src/p2p/src/p2p_tls.c:340-367 | What is read of any printed event that fits: its fields, cleaned; one with nothing left is skipped |
| Sse.TypeLine | src/p2p/src/p2p_tls.c:353-356 | An event line sets the type, cleaned, and cut off where it is too long for its place |
| Sse.DataLine | src/p2p/src/p2p_tls.c:357-366 | A data line is put behind the data read before, cleaned and without a break, and dropped where there is no room for all of it |
| Sse.OtherLine | src/p2p/src/p2p_tls.c:353-366 | A line that is neither an event nor data, and not blank, changes nothing |
| Sse.LongLineIsCut | src/p2p/src/p2p_tls.c:340-342 | A line longer than the line buffer is read in pieces |
| Sse.BlankLine | src/p2p/src/p2p_tls.c:347-351 | A blank line ends the event if there is one |
| Sse.ReadLineOfText | src/p2p/src/p2p_tls.c:188-199 | A line that fits is read whole and nothing behind it |
| Sse.ResponseStream.Serve | src/signaling_server/handler/sse_handler.go:77-97 | The loop writes exactly the printed events and pings, in order |
| Sse.Connection.TlsReadLine | src/p2p/src/p2p_tls.c:188-199 | One line, or as much as fits, or -1 at the end of the stream |
| Sse.Connection.ReadSseEvent | src/p2p/src/p2p_tls.c:328-368 | The loop returns exactly the event the specification reads and leaves the rest of the stream |
| StoreSimulation.RedisSimulatesMemory | src/signaling_server/store/redis.go:69-359 | After every run without a rejoin both stores stand for the same state and have answered alike |
| StoreSimulation.AlikeIffNoRejoin | src/signaling_server/store/redis.go:69-359 | The runs on which the stores hold the same and answer alike at every point are exactly the runs without a rejoin |
| StoreSimulation.AgreeUnlessRejoin | src/signaling_server/store/redis.go:174-206 | From equivalent states the stores agree on a call, in result and state, if and only if it is not a rejoin |
| StoreSimulation.RejoinDisagrees | src/signaling_server/store/redis.go:194-195 | A rejoin with a free place makes them differ |
| StoreSimulation.RejoinTellsThemApart | src/signaling_server/store/redis.go:194-195 | A run of three calls on which they differ |
| StoreSimulation.LeaveAgrees | src/signaling_server/store/redis.go:208-236 | Leaving agrees, vanished rooms included, because publishers own their rooms |
| StoreSimulation.UnregisterAgrees | src/signaling_server/store/redis.go:86-117 | Unregistering agrees |
| StoreSimulation.JoinAgrees | src/signaling_server/store/redis.go:174-206 | Joining agrees on missing and full rooms and on new subscribers |
| StoreSimulation.CreateAgrees | src/signaling_server/store/redis.go:145-172 | Creating agrees |
| StoreSimulation.ListAgrees | src/signaling_server/store/redis.go:267-299 | Listing agrees record by record |
| StoreSimulation.ReadsAgree | src/signaling_server/store/redis.go:238-265 | Reading a peer, a room or an offer agrees |
| StoreSimulation.RegisterAgrees | src/signaling_server/store/redis.go:69-84 | Registering agrees up to the whole seconds Redis keeps |
| StoreSimulation.OfferAgrees | src/signaling_server/store/redis.go:246-257 | Caching an offer agrees |
| StoreSimulation.OwnershipIsNeeded | src/signaling_server/store/redis.go:231-235 | Equivalent states without ownership, which no run reaches, from which leaving makes the stores differ: the step from state to state needs the invariant |
| StoreLaws.MembersHaveJoined | src/signaling_server/store/memory.go:139-189 | After any run of calls a peer is a subscriber of a room exactly when some call has let it in, and since then neither has the room's publisher gone nor has the peer left or been unregistered as its subscriber |
| StoreLaws.RoomChanges | src/signaling_server/store/memory.go:56-212 | A room comes with a create call and goes with its publisher, and only so; nothing else but its cached offer changes |
| StoreLaws.MembersChange | src/signaling_server/store/memory.go:139-189 | Which calls bring a subscriber in, and which take one out |
| StoreLaws.PeerChanges | src/signaling_server/store/memory.go:35-189 | Which peers are known, and what each call does to the room, role, node and time in a record; a rejoin included |
| StoreLaws.FailsExactly | src/signaling_server/store/memory.go:115-163 | A call fails exactly when its room is missing, there already or full, and then changes nothing; a join is answered with the room as it is afterwards |
| StoreLaws.ListChanges | src/signaling_server/store/redis.go:174-236 | In Redis, whether entries repeat or not, a subscriber list gains an entry at its end, or loses all entries of one peer with all others kept in order, exactly by these calls |
| StoreLaws.WhatARejoinDoes | src/signaling_server/store/redis.go:186-205 | Joining a room again changes no room in memory and adds a second entry in Redis, and marks the peer as its subscriber in both |
| MemoryStore.PublishersOwnTheirRooms | src/signaling_server/store/memory.go:115-189 | In every reachable state a peer marked as publisher of a room is that room's publisher |
| MemoryStore.StepKeepsOwnership | src/signaling_server/store/memory.go:35-212 | Every operation keeps that |
| MemoryStore.OnePublisherPerRoom | src/signaling_server/store/memory.go:115-137 | At most one peer is marked as publisher of a room |
| MemoryStore.OnlyThePublisherEndsARoom | src/signaling_server/store/memory.go:56-80 | A room disappears only when its own publisher leaves or is unregistered; until then publisher and limit stay |
| MemoryStore.RoomsComeFromTheirPublisher | src/signaling_server/store/memory.go:115-137 | Every room was created, in this incarnation, by a call naming its present publisher and limit, and has existed since |
| MemoryStore.CapacityKept | src/signaling_server/store/memory.go:139-163 | With non-negative limits no reachable state holds more subscribers than the limit |
| MemoryStore.StepKeepsCapacity | src/signaling_server/store/memory.go:139-163 | Every operation keeps that |
| MemoryStore.Store.RegisterPeer | src/signaling_server/store/memory.go:35-54 | Whole new state: a known peer keeps room and role |
| MemoryStore.Store.UnregisterPeer | src/signaling_server/store/memory.go:56-80 | Whole new state and the removed record |
| MemoryStore.Store.GetPeer | src/signaling_server/store/memory.go:82-92 | The record, or none |
| MemoryStore.Store.EnsurePeer | src/signaling_server/store/memory.go:94-113 | Creates the record only if missing |
| MemoryStore.Store.CreateRoom | src/signaling_server/store/memory.go:115-137 | Whole new state, or an error for an existing room |
| MemoryStore.Store.JoinRoom | src/signaling_server/store/memory.go:139-163 | Whole new state, or the error for a missing or full room |
| MemoryStore.Store.LeaveRoom | src/signaling_server/store/memory.go:165-189 | Whole new state, with the publisher flag left set when the room has vanished |
| MemoryStore.Store.GetRoom | src/signaling_server/store/memory.go:191-200 | The room with its subscribers each listed once, or none |
| MemoryStore.Store.CacheOffer | src/signaling_server/store/memory.go:202-212 | Whole new state, or an error for a missing room |
| MemoryStore.Store.GetCachedOffer | src/signaling_server/store/memory.go:214-223 | The cached offer, or none |
| MemoryStore.Store.ListPeers | src/signaling_server/store/memory.go:225-234 | Exactly the stored peers, each once |
| MemoryStore.Store.ListRooms | src/signaling_server/store/memory.go:236-245 | Every room exactly once, with its subscribers |
| MemoryStore.Store.RoomMetaLocked | src/signaling_server/store/memory.go:247-259 | The subscriber set as a list without duplicates |
| MemoryStore.Store.constructor | src/signaling_server/store/memory.go:28-33 | An empty store |
| RedisStore.ListingIsComplete | src/signaling_server/store/redis.go:267-299 | In every reachable state the index sets are exactly the stored keys, and listing finds exactly the stored records |
| RedisStore.StepKeepsIndex | src/signaling_server/store/redis.go:316-359 | Every operation keeps index sets and keys equal |
| RedisStore.RecordsCarryTheirNames | src/signaling_server/store/redis.go:69-172 | In every reachable state each record carries the name it is stored under |
| RedisStore.CapacityKept | src/signaling_server/store/redis.go:174-206 | With non-negative limits no reachable state holds more subscribers than the limit |
| RedisStore.StepKeepsCapacity | src/signaling_server/store/redis.go:174-236 | Every operation keeps that |
| RedisStore.Store.RegisterPeer | src/signaling_server/store/redis.go:69-84 | Whole new state: a known peer keeps room and role |
| RedisStore.Store.UnregisterPeer | src/signaling_server/store/redis.go:86-117 | Whole new state, index sets included, and the removed record |
| RedisStore.Store.GetPeer | src/signaling_server/store/redis.go:119-125 | The record, or none |
| RedisStore.Store.EnsurePeer | src/signaling_server/store/redis.go:127-143 | Creates the record only if missing |
| RedisStore.Store.CreateRoom | src/signaling_server/store/redis.go:145-172 | Whole new state, or an error for an existing room |
| RedisStore.Store.JoinRoom | src/signaling_server/store/redis.go:174-206 | Whole new state, or the error for a missing or full room |
| RedisStore.Store.LeaveRoom | src/signaling_server/store/redis.go:208-236 | Whole new state, the publisher flag always cleared |
| RedisStore.Store.GetRoom | src/signaling_server/store/redis.go:238-244 | The record, or none |
| RedisStore.Store.CacheOffer | src/signaling_server/store/redis.go:246-257 | Whole new state, or an error for a missing room |
| RedisStore.Store.GetCachedOffer | src/signaling_server/store/redis.go:259-265 | The cached offer, or none |
| RedisStore.Store.ListPeers | src/signaling_server/store/redis.go:267-282 | Exactly the records the index names, each once |
| RedisStore.Store.ListRooms | src/signaling_server/store/redis.go:284-299 | Exactly the records the index names, each once |
| RedisStore.Store.SetPeerData | src/signaling_server/store/redis.go:316-326 | Record and index entry written together |
| RedisStore.Store.SetRoomData | src/signaling_server/store/redis.go:343-353 | Record and index entry written together |
| RedisStore.Store.DeleteRoom | src/signaling_server/store/redis.go:355-359 | Record and index entry removed together |
| RedisStore.Store.RemoveSubscriber | src/signaling_server/store/redis.go:219-224 | The loop keeps all other subscribers in order |
| RedisStore.Store.DepartRoom | src/signaling_server/store/redis.go:214-229 | A publisher takes the room along, a subscriber its own entries |
| RedisStore.Store.constructor | src/signaling_server/store/redis.go:44-63 | An empty store |
| Reconnect.EveryFourthFailureEscalates | src/p2p/src/p2p_adapter.c:455-491 | In every run without a finished handshake, counting on from what the slot held: every fourth close of the current connection with ICE alive raises the ICE restart and withdraws the reconnect; each of the others schedules a reconnect and raises nothing |
| Reconnect.CounterIsModuloFour | src/p2p/src/p2p_adapter.c:466-474 | The failure count is what the slot held at the start plus the number of such closes, modulo four |
| Reconnect.CounterInRange | src/p2p/src/p2p_adapter.c:466-474 | After every callback a subscriber's count is in 0..3 |
| Reconnect.CounterStep | src/p2p/src/p2p_adapter.c:466-474 | What each event does to the count, for both roles |
| Reconnect.IceRestartIsRaised | src/p2p/src/p2p_adapter.c:455-491 | For both roles: a request for an ICE restart is raised exactly when the current connection closes with ICE dead, a subscriber's close counts as the fourth, or a restart pass finds ICE down where it would reconnect |
| Reconnect.DeadCloseIsServed | src/p2p/src/p2p_adapter.c:482-491 | When the current connection closes with ICE dead the peer has failed, without connection, media session or scheduled reconnect; and whatever comes in between, the next restart pass asks for an ICE restart and does nothing else |
| Reconnect.StateChanges | src/p2p/src/p2p_adapter.c:437-553 | A peer's state changes exactly for the reasons listed for each state |
| Reconnect.ConnectionChanges | src/p2p/src/p2p_adapter.c:401-497 | The connection is the one created last, until it closes, falls silent or is removed |
| Reconnect.ReconnectIsScheduled | src/p2p/src/p2p_adapter.c:466-486 | Exactly what schedules a reconnect and what withdraws it |
| Reconnect.PassDoes | src/p2p/src/p2p_adapter.c:682-728 | A pass clears media session and ring exactly when it prepares a connection, and connects, with the state that follows, exactly when a subscriber has a user session |
| Reconnect.SilentMinuteCloses | src/p2p/src/p2p_adapter.c:732-760 | Behind a peer's last packet, whatever else has come since: an idle pass closes its connection exactly when a publisher has it connected and more than a minute has gone by, and else leaves it as it is |
| Reconnect.HearingChanges | src/p2p/src/p2p_adapter.c:425-508 | Exactly what sets and clears the time a peer was last heard of |
| Reconnect.EscalationIsServed | src/p2p/src/p2p_adapter.c:701-709 | A raised ICE restart survives every event until the next restart pass, which makes the request and does not connect |
| Reconnect.EveryRequestIsMadeOnce | src/p2p/src/p2p_adapter.c:696-728 | In every run the requests for an ICE restart made, and the one pending, are as many as were raised: none is lost and none repeated |
| Reconnect.RestartDecision | src/p2p/src/p2p_adapter.c:696-728 | Across the pass and the connect it leads to: a peer is connected, or asked about, exactly under these conditions of the state before the pass, and never twice |
| Reconnect.EscalatedConnectsIffStarted | src/p2p/src/p2p_adapter.c:682-694 | Before its next restart pass an escalated peer keeps its pending request, and is connected if and only if a start pass comes after ICE has been reported complete |
| Reconnect.FlagIsCompletion | src/p2p/src/p2p_adapter.c:537-537 | In every run the start flag says whether ICE has been reported complete since the last start pass |
| Reconnect.EscalatedWaitsForItsRequest | src/p2p/src/p2p_adapter.c:682-694 | As long as ICE does not complete meanwhile, an escalated peer is not connected before its restart pass |
| Reconnect.EscalatedIsConnectedAllTheSame | src/p2p/src/p2p_adapter.c:682-709 | A run from an empty slot with an agent: four failures, ICE completion, and then a start pass that connects and a restart pass that asks |
| Reconnect.PublisherOnlyEscalatesWhenIceIsDead | src/p2p/src/p2p_adapter.c:479-491 | A publisher's flag is raised only with ICE dead |
| Reconnect.SessionEnds | src/p2p/src/p2p_adapter.c:444-453 | A live media session ends exactly with a removal, its own end, a pass that prepares a new connection, or the close of any connection, a superseded one included |
| Reconnect.SilentUntilNextConnection | src/p2p/src/p2p_adapter.c:410-421 | In every run, once ended it stays down until a new connection comes up |
| Reconnect.StaleCloseSilences | src/p2p/src/p2p_adapter.c:437-497 | A run that ends connected and without a media session |
| Reconnect.NewPeerInherits | src/p2p/src/p2p_adapter.c:1011-1121 | A new peer in the slot of a removed one inherits failure count, flags and clock reading, and nothing else |
| Reconnect.NewPeerEscalatesAtOnce | src/p2p/src/p2p_adapter.c:466-474 | A run in which the first failure of a new peer escalates |
| Reconnect.Peer.ConnCreateNotify | src/p2p/src/p2p_adapter.c:401-435 | Whole new state; nothing but the result when the media session cannot be created |
| Reconnect.Peer.ConnCloseNotify | src/p2p/src/p2p_adapter.c:437-499 | Whole new state, media session included; a superseded connection closing changes only that; the current one leaves none, in ICE_CONNECTED with ICE alive and else failed, with an ICE restart pending and no reconnect |
| Reconnect.Peer.HandshakeFinishedCb | src/p2p/src/p2p_adapter.c:501-513 | Connected, count back to 0 |
| Reconnect.Peer.OnIceState | src/p2p/src/p2p_adapter.c:517-553 | Whole new state for each ICE state, start and continue flags included |
| Reconnect.Peer.StartQuicConnection | src/p2p/src/p2p_adapter.c:1304-1363 | Nothing when a handshake is under way; else ring and media session are cleared, and a subscriber connects or fails; -1 when there is no user session or no connection |
| Reconnect.Peer.StartTurn | src/p2p/src/p2p_adapter.c:684-693 | One peer in the start pass, with the calls made for it |
| Reconnect.Peer.RestartTurn | src/p2p/src/p2p_adapter.c:698-727 | One peer in the restart pass, with the calls made for it |
| Reconnect.Peer.IdleTurn | src/p2p/src/p2p_adapter.c:740-759 | One peer in the idle pass, with the close made for it |
| Reconnect.Peer.Vacate | src/p2p/src/p2p_adapter.c:1095-1118 | What a removal resets, and the close it makes |
| Reconnect.Peer.Occupy | src/p2p/src/p2p_adapter.c:1056-1083 | What an addition sets, and when it fails |
| Reconnect.Peer.constructor | src/p2p/src/p2p_adapter.c:837-880 | A slot of a new engine |
| Reconnect.Engine.ProcessQuicStart | src/p2p/src/p2p_adapter.c:682-694 | Each peer in the range takes exactly its own step and the log holds exactly its calls; the others take none |
| Reconnect.Engine.ProcessQuicRestart | src/p2p/src/p2p_adapter.c:696-728 | Each peer in the range takes exactly its own step and the log holds exactly its calls; for no peer does the log hold both a connect and a request |
| Reconnect.Engine.ProcessIdle | src/p2p/src/p2p_adapter.c:732-760 | A publisher closes the connections of peers silent for more than a minute, and logs exactly those |
| Reconnect.Engine.AddPeer | src/p2p/src/p2p_adapter.c:1011-1088 | The first vacant slot is taken and nothing else changes; it fails only for want of a place, an agent or memory |
| Reconnect.Engine.RemovePeer | src/p2p/src/p2p_adapter.c:1090-1121 | The slot is vacated and the count lowered, and nothing else changes |
| PeerClient.LossAccountingIsExact | src/p2p/src/p2p_peer.c:411-448 | After any run of fewer than 2^32 whole video frames of any size with increasing numbers, with any audio in between, any interference of the main loop with the fields both threads write, and whatever the gate did: frames received plus frames counted as lost equal the span of numbers seen |
| PeerClient.FrameAccounted | src/p2p/src/p2p_peer.c:411-448 | One frame keeps the account |
| PeerClient.OtherEventsKeepAccount | src/p2p/src/p2p_peer.c:451-464 | Audio and the main loop leave the account alone |
| PeerClientRuns.ShownIffGateOpen | src/p2p/src/p2p_peer.c:414-448 | In every run of whole video frames of any size, with whole audio frames and writes of the main loop in between: a video frame that fits is handed to the decoder, with its own bytes, key flag and time, if and only if it is a keyframe, or the client is not waiting before it and it does not itself start a wait; it asks for a keyframe exactly behind a gap, 200 ms after the last request, or a second when waiting |
| PeerClientRuns.WaitingSinceItBegan | src/p2p/src/p2p_peer.c:360-448 | The client is waiting exactly when a request, or a write of the main loop, has begun a wait and no keyframe or reset behind it has ended it |
| PeerClientRuns.AudioIsAlwaysPlayed | src/p2p/src/p2p_peer.c:451-535 | Audio that fits is always handed on, and nothing else brings anything |
| PeerClientRuns.HandedOnInOrder | src/p2p/src/p2p_peer.c:394-535 | What is handed on is a subsequence of the audio and video that arrived, byte for byte |
| PeerClientRuns.OkCountsFramesHandedOn | src/p2p/src/p2p_peer.c:504-529 | In every run, fragments in any order included, the frames counted as complete are those handed on |
| PeerClientRuns.AudioLossIsExact | src/p2p/src/p2p_peer.c:451-464 | After any run of whole audio frames with increasing numbers, frames received and frames counted as lost add up to the span of numbers |
| RequestRace.SpacedIffNoCollision | src/p2p/src/p2p_peer.c:360-380 | In every interleaving of the two threads' accesses: requests are 200 ms apart, and a retry a second behind the request before it, if and only if no request is made by a thread that has been overtaken by one too close |
| RequestRace.OnlyOvertakenComesClose | src/p2p/src/p2p_peer.c:362-376 | A thread that has not been overtaken keeps its distance |
| RequestRace.AskedAloneIsSpaced | src/p2p/src/p2p_peer.c:360-380 | As long as no ask is overtaken the requests keep their distances |
| RequestRace.AloneItIsOneAsk | src/p2p/src/p2p_peer.c:360-380 | Run without interference, the five steps of a thread are the request function, throttle and retry included |
| RequestRace.RunKeeps | src/p2p/src/p2p_peer.c:360-380 | In every interleaving the recorded time is that of the request made last, and each thread has tested what it is about to do |
| RequestRace.WhenTheTimerExpires | src/p2p/src/p2p_peer.c:1016-1035 | In every interleaving the timer is found expired exactly when five seconds lie between the last request and the turn's reading of the clock, or when the request made last is younger than that reading |
| RequestRace.WatchdogIsOvertaken | src/p2p/src/p2p_peer.c:1025-1029 | A run with two requests five microseconds apart, the second by the watchdog, which also hides the first from the timer |
| RequestRace.ReceiverIsOvertaken | src/p2p/src/p2p_peer.c:414-424 | A run with two requests five microseconds apart, the second by the receiving thread under its lock |
| RequestRace.YoungRequestExpires | src/p2p/src/p2p_peer.c:1030-1035 | A run in which a request one microsecond old makes the timer expire, made by either thread |
| RequestRace.NewWaitIsEnded | src/p2p/src/p2p_peer.c:1031-1034 | A run in which the timer tests an old wait and resets a new one |
| PeerClient.PeerCtx.OnDataRecv | src/p2p/src/p2p_peer.c:394-535 | The whole callback for video and audio: counters, gate, requests, buffers and the frame handed to the decoder (which frames those are: PeerClientRuns.ShownIffGateOpen) |
| PeerClient.PeerCtx.NoteAudio | src/p2p/src/p2p_peer.c:451-464 | An audio gap is counted |
| PeerClient.PeerCtx.AskWhenStalled | src/p2p/src/p2p_peer.c:1025-1029 | The watchdog's request, run without interference |
| PeerClient.PeerCtx.CheckIdrTimeout | src/p2p/src/p2p_peer.c:1030-1035 | The timer, run without interference: a wait ends when the last request lies five seconds back |
| PeerClient.PeerCtx.RequestIdrIfNeeded | src/p2p/src/p2p_peer.c:360-380 | Throttle and retry |
| PeerClient.PeerCtx.NoteLoss | src/p2p/src/p2p_peer.c:414-424 | A gap is counted and asked about |
| PeerClient.PeerCtx.NoteCut | src/p2p/src/p2p_peer.c:426-432 | A frame cut short is counted, and asked about at the throttle's distance |
| PeerClient.PeerCtx.PassGate | src/p2p/src/p2p_peer.c:434-448 | A fragment passes exactly when the client is not waiting, or it does not begin a frame, or it begins a keyframe, which ends the wait |
| PeerClient.PeerCtx.CollectFragment | src/p2p/src/p2p_peer.c:466-529 | Stale, oversized, out-of-bounds and completing fragments, with the bytes, flags and time of the frame |
| PeerClient.PeerCtx.constructor | src/p2p/src/p2p_peer.c:411-413 | A fresh client |

## Left out

- libjuice, xquic, its media-over-QUIC layer, TLS, FFmpeg, SDL, capture devices, sockets, HTTP and the Redis network: not part of this model; what they report is an input of each step, what they carry an abstract stream or map.
- User interfaces, argument parsing, configuration, logging, authentication, admin handlers, timing statistics: nothing to prove that one body does not show.
- src/signaling_server/room/manager.go: an older variant of the memory store that main.go does not use.
- Reassembly.AnyPartitionInAnyOrder: says nothing about duplicate or overlapping fragments, since the code counts bytes and not coverage, nor about fragments of other frames arriving in between.
- Decodability.DecodableIffGuarded: is about whole frames; only fragments at offset 0 pass the gate, so fragmented, reordered video has no such guarantee in the code.
- Decodability.OutputIsSubsequence: a missing number is not claimed to be a lost frame; a keyframe injected for one peer takes a number no other peer sees.
- SenderRuns.EveryPeerInOrder: stops short of 2^32 video numbers, where the code's comparison of numbers starts over.
- SenderRuns.EndToEnd: the channel may lose but not reorder, as the transport delivers whole frames in order; the transport's own write calls are taken to succeed.
- Sender.Session.VideoSend: takes no step of another thread between its two locks; the runs in SenderRuns interleave the two steps freely. Keyframes are taken to be non-empty, since for an empty one C leaves open what realloc does.
- Receiver.PeerState.OnDataRecv: data-channel identifiers, first-frame times, unset callbacks and peers outside the table are not modelled; fragment ends do not wrap, as the transport always passes offset 0 and the full length.
- JitterBuffer.Jitter.Push: plane sizes are taken to fit an int, and copying a plane to succeed.
- PeerClient.PeerCtx.OnDataRecv: no decoding and no counters behind it; the chain property is not claimed, as this client resumes without a keyframe after five seconds.
- PeerClientRuns.ShownIffGateOpen: is about whole frames; only fragments at offset 0 pass the gate.
- PeerClient.PeerCtx.CheckIdrTimeout: runs test and reset in one go; RequestRace takes them apart.
- PeerClient.PeerCtx.AskWhenStalled: runs the request in one go, like the request inside the receive callback; RequestRace takes both apart. Whether video has stalled is an input.
- RequestRace.SpacedIffNoCollision: each access to a shared field takes effect at once and in order, which C does not promise for fields that are not atomic; requests are ordered as they set the recorded time.
- Reconnect.Engine.ProcessQuicRestart: goes over the first peer_count slots as the code does; that every flagged peer has such a slot is not claimed, because removal leaves gaps. The deferred removal flag is not modelled: removals are events.
- Reconnect.Engine.ProcessQuicStart: each callback, and each peer's turn in a pass, is one step of a run, though the ICE agent's thread writes state and flags without a lock while the engine thread reads them.
- Reconnect.Peer.ConnCreateNotify: an unknown peer and the callbacks to the application are not modelled; the tracks and subscriptions that the media session's own callbacks set are inputs of a run.
- SigMessage.FromJson: gives nothing where C leaves the result of atoi open, for a number outside int.
- SigMessage.MessageRoundTrip: characters stand for bytes and no string holds a NUL; \u escapes are printed and not read, as in the code, so full RFC 8259 conformance is not claimed.
- CandidateArray.CandidatesRoundTrip: bodies that print the key of the array in front of it are excluded; the parser then reads whatever stands there.
- BodyParts.PartsComeBack: reads with the getters of the client's message parser; the JSON decoder of the server is Go's own and not part of this model.
- CandidateCode.BuildSignalJson: a call past the buffer, with a size that has wrapped around, is reported and not carried out, since C leaves open what it does.
- CandidateCode.ParseCandidatesArray: rows of the result are strings, each made in a buffer of its own, rather than rows of one two-dimensional array.
- Sse.ServedIsRead: failing writes, closing streams and the dispatch of events are not modelled; full conformance to the WHATWG standard is not claimed, data lines being joined without a newline.
- Sse.ChunkedRoundTrip: takes each event to be one chunk, as the handler flushes after each; the client does not undo chunked framing, so an event split over chunks would not be read back.
- StoreSimulation.RedisSimulatesMemory: runs are sequential and free of Redis errors and expiry; records are stored as values, their JSON form taken as lossless, and key prefixes become separate maps; Redis keeps times in whole seconds, so times agree to the second.
- StoreLaws.MembersHaveJoined: is about the memory store; Redis agrees on every run without a rejoin, and for others only StoreLaws.ListChanges holds.
- MemoryStore.PublishersOwnTheirRooms: subscriber sets and the rooms peers name are not claimed to mirror each other; joining a second room leaves the first entry in place.
- MemoryStore.Store.ListRooms: the order in which Go ranges over a map is left open.
- Signaling events, server-side handlers and message dispatch: easy members around the codecs and stores modelled here.
