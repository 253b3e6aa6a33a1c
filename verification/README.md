# FFmpeg 4.3.2: stateful cores, modelled and proved in Dafny

The modules here model self-contained, stateful parts of FFmpeg 4.3.2 and prove what these parts are for. Code that
changes things in place is a class or a method with loops, proved against a specification function; the
properties of whole runs are lemmas about those functions.

| files | what they model |
|---|---|
| `Wrappers.dfy` | definitions that all models share |
| `PacketQueue.dfy`, `SerialProtocol.dfy`, `SerialRuns.dfy` | ffplay's packet queue, reader and decoder as interleaved atomic steps over it, and what every run returns |
| `FrameQueue.dfy` | ffplay's frame ring, and one producer and one consumer with index and size updates as separate steps |
| `VideoOut.dfy`, `VideoOutRuns.dfy`, `VideoOutCounts.dfy` | ffmpeg's `do_video_out`: timestamps and placement, duplication, drops and their counters, over whole runs |
| `TimestampRepair.dfy`, `MuxQueue.dfy`, `MuxQueueRuns.dfy`, `MuxTimeBases.dfy` | `write_packet` and `check_init_output_file`: timestamp repair, the queue before the header, and time bases |
| `Mathematics.dfy`, `Rescale64.dfy` | rescaling and comparing timestamps: exact, and in the code's 64-bit words |
| `StreamLoop.dfy`, `StreamLoopRuns.dfy` | `seek_to_start` and the loop offset of `process_input` |
| `CondVar.dfy` | condition variables on OS/2 as a step protocol |
| `A64Charset.dfy`, `A64Renderer.dfy`, `A64Dither.dfy` | the A64 encoder's character rendering, dithering and colour RAM packing |
| `EightBps.dfy`, `EightBpsProofs.dfy` | the 8BPS run-length decoder |
| `Zero12v.dfy`, `Zero12vProofs.dfy` | the 012v unpacker |
| `EightSvx.dfy`, `EightSvxRuns.dfy` | the 8SVX delta decoder across calls |
| `OptionSplit.dfy`, `OptionSplitProofs.dfy` | command-line splitting, and printing a context back |
| `ArgumentLog.dfy` | the report file's quoting of arguments, and a reader for it |

Conventions: `AV_NOPTS_VALUE` and NULL are `None`; `double` and `float` are `real`, rounding is any function to a
nearest integer; codec, muxer and library answers are parameters of a step; threads are steps of a state machine.

Some recursive functions have a second name that is not recursive (`RowLoop` and `DecodeRow`, `PlaneLoop` and
`DecodePlane`, `ParseLoop` and `Parse`, `ApplyLoop` and `ApplyAll`, `DeltaLoop` and `Delta`, `RunLoop` and `Run`,
`FlushLoop` and `FlushFrom`, and others of that pattern). Contracts use the second name, so that the verifier compares
results without unfolding the recursion; a lemma `...Unfolds` gives the recursion where a proof needs it.

## Where the code does less than one would expect

Each of these is the code's own behaviour, kept in the model, with the exact condition proved.

- A decoded subtitle is returned after a seek under the new serial, because `ret` keeps its value
  (`ffplay.c:592-597,661-669`): `SubtitleCanBeStale`. It happens exactly when the queue's serial has moved on by the
  test that follows the decoding: `SubtitleAgreesIff`. Audio and video frames are never stale.
- A frame ring of one slot that keeps its last frame lets both threads sleep for ever: `BothAsleepIff`.
- Frame conservation fails for a negative `max_frames`, which makes frame counts negative: `ConservationIff`; and
  for early returns, with the guards under which a call keeps it: `CallBalance`.
- `VSYNC_AUTO` chooses passthrough, and with it timestamps that can go back, for a format of variable frame rate
  without timestamps: `AutomaticMethodIncreasesIff`.
- A first picture that is late enough to be planned as a repetition of the one before it, which there is not, is
  encoded and yet counted as a duplicate and as dropped: `DuplicatesAreRepeatsIff`, `LateFirstPictureIsMiscounted`.
- `av_compare_ts` takes the later time for the earlier one if it has no 64 bits in the other's time base:
  `CompareTs64`, `LatestIsReportedEarly`. `av_rescale_rnd` takes INT64_MIN, when it is not to be passed through, for
  the number above it: `RescaleRnd`.
- Looped passes of a stream collide when its frame duration rounds to no tick of the time base: `LoopingIsSafeIff`.
- 8BPS puts 24-bit planes in the wrong bytes for 0RGB32 on a big-endian machine: `PlanemapFitsFormatIff`.
- 012v loses visible samples with the least stride unless the width is a multiple of six: `LeastStrideSufficesIff`,
  `EveryPictureIsRecoveredIff`; and its chroma copy writes one byte too many for some widths, which the next
  line repairs: `NextLineShows`.
- A split command line cannot always be printed with its global options first and split again: an exiting option
  such as `-h` that ended the line without a value takes one when something follows it, and a negated boolean option
  turns into a library option of that name: `PrintedSplitsAgainIff`. With that option last every context comes back:
  `CarefullyPrintedSplitsAgain`.

## Model

| member | source | states |
|---|---|---|
| `PacketQueues.PacketQueue.Init` | ffmpeg-4.3.2/fftools/ffplay.c:482-497 | a new queue is empty and aborted, with serial 0 |
| `PacketQueues.PacketQueue.Link` | ffmpeg-4.3.2/fftools/ffplay.c:444-448 | the linked list stays well formed and gains the node at its end |
| `PacketQueues.PacketQueue.Append` | ffmpeg-4.3.2/fftools/ffplay.c:444-451 | the list is the old one with the packet at its end, and packet count, size and duration are again exact sums over it |
| `PacketQueues.PacketQueue.PutPrivate` | ffmpeg-4.3.2/fftools/ffplay.c:428-455 | the list refines a FIFO: a packet goes to the end with the queue's serial, a flush packet raises that serial first, an aborted queue refuses with -1 |
| `PacketQueues.PacketQueue.FlushQueue` | ffmpeg-4.3.2/fftools/ffplay.c:499-515 | freeing node by node ends, and leaves an empty valid queue with its serial unchanged |
| `PacketQueues.PacketQueue.AbortQueue` | ffmpeg-4.3.2/fftools/ffplay.c:524-533 | only the abort flag changes |
| `PacketQueues.PacketQueue.StartQueue` | ffmpeg-4.3.2/fftools/ffplay.c:535-541 | the abort flag is cleared and a flush packet with a new serial is queued |
| `PacketQueues.PacketQueue.TryGet` | ffmpeg-4.3.2/fftools/ffplay.c:551-577 | one turn of the getting loop: -1 when aborted, the oldest packet with its serial, or nothing when the caller would wait; the sums stay exact |
| `PacketQueues.TotalsAppend` | ffmpeg-4.3.2/fftools/ffplay.c:449-451 | size and duration sums grow by exactly what the code adds |
| `SerialProtocol.QueueSerialsNeverDecrease` | ffmpeg-4.3.2/fftools/ffplay.c:440-448 | in every interleaving serials along the queue never decrease and none is ahead of the queue's own |
| `SerialProtocol.QueueStep` | ffmpeg-4.3.2/fftools/ffplay.c:428-455 | every step keeps: serials sorted, each non-flush packet continuing the serial before it, the queue's serial never falling |
| `SerialProtocol.FetchedPacket` | ffmpeg-4.3.2/fftools/ffplay.c:642-649 | a fetched packet is a flush packet or carries the serial of what was fetched before |
| `SerialProtocol.CodecStep` | ffmpeg-4.3.2/fftools/ffplay.c:597-680 | every step keeps: packets sent since the last codec flush all carry their own queue stamp pkt_serial, also one that was kept in packet_pending and is sent later |
| `SerialProtocol.SubtitleStepInv` | ffmpeg-4.3.2/fftools/ffplay.c:659-670 | every step keeps: a waiting subtitle carries pkt_serial, or an earlier serial once a serial test was missed |
| `SerialProtocol.RunInv` | ffmpeg-4.3.2/fftools/ffplay.c:591-681 | the invariants hold after every run of reader and decoder steps |
| `SerialProtocol.CodecHoldsOneSerial` | ffmpeg-4.3.2/fftools/ffplay.c:591-681 | in every interleaving the packets sent to the codec since its last flush were all stamped with one serial when they were queued |
| `SerialProtocol.AudioVideoFramesAgree` | ffmpeg-4.3.2/fftools/ffplay.c:597-636 | of every audio or video frame returned, all packets that it was built from were queued under the serial in pkt_serial; that each frame of the codec is returned is EveryFrameIsReturned |
| `SerialProtocol.SubtitleAgreesUnlessLate` | ffmpeg-4.3.2/fftools/ffplay.c:592-670 | a returned subtitle was built from packets queued under pkt_serial if and only if no serial test failed between its decoding and its return |
| `SerialProtocol.SubtitleAgreesIff` | ffmpeg-4.3.2/fftools/ffplay.c:592-670 | the same by the guard: it agrees if and only if the queue's serial still equals pkt_serial at the test that follows its decoding, after any steps of the reader |
| `SerialProtocol.SubtitleCanBeStale` | ffmpeg-4.3.2/fftools/ffplay.c:592-670 | a run that returns a subtitle of serial 1 under serial 2: the answer kept from before the seek is used after it |
| `SerialRuns.EveryFrameIsReturned` | ffmpeg-4.3.2/fftools/ffplay.c:597-636 | in every interleaving an audio or video decoder returns exactly the frames that its codec gave while the queue was not aborted, one for one and in order, each built from the packets sent since the codec was last flushed and under their common serial |
| `SerialRuns.FinishedIsEnd` | ffmpeg-4.3.2/fftools/ffplay.c:628-655 | in every interleaving finished is the serial under which the codec said the stream ended, from that answer to the next flush, and 0 otherwise |
| `SerialRuns.PacketsAreConserved` | ffmpeg-4.3.2/fftools/ffplay.c:638-680 | in every run of any decoder the packets taken from the queue are, in order, those decoded, spent on a flush or thrown away for a failed serial test, and then the one in hand or kept in packet_pending: none is lost, doubled or overtaken |
| `SerialRuns.TestedIsUsed` | ffmpeg-4.3.2/fftools/ffplay.c:648-679 | a packet that passed its serial test is never thrown away: the decoder's next step decodes it, flushes the codec for it exactly if it is a flush packet, or keeps it |
| `SerialRuns.PacketBecomesFrame` | ffmpeg-4.3.2/fftools/ffplay.c:597-680 | the run that takes a current data packet from the queue through the codec into the frame that is returned, and leaves the rest of the queue |
| `SerialRuns.DecodedSubtitleIsReturned` | ffmpeg-4.3.2/fftools/ffplay.c:592-670 | whatever harmless steps come in between, a decoded subtitle is returned, the null packet without one ends the stream, and otherwise the decoder goes on |
| `SerialRuns.DecoderWaitsIff` | ffmpeg-4.3.2/fftools/ffplay.c:639-647 | the decoder cannot go on exactly when it fetches from an empty queue that is not aborted and has kept no packet |
| `SerialRuns.AbortEndsCall` | ffmpeg-4.3.2/fftools/ffplay.c:599-600 | after an abort a call that drains or fetches ends without a frame |
| `SerialRuns.QueueIsConserved` | ffmpeg-4.3.2/fftools/ffplay.c:444-577 | in every run the packets put into the queue since its start are, in order, those taken out and those still there |
| `SerialRuns.QueueCountsSeeks` | ffmpeg-4.3.2/fftools/ffplay.c:440-448 | in every run the queue is aborted from the first request on; until then its serial is one more than the number of seeks |
| `FrameQueues.PlaceIsModulo` | ffmpeg-4.3.2/fftools/ffplay.c:734-737 | index arithmetic by wrapping once is the remainder modulo max_size |
| `FrameQueues.FrameQueue.Init` | ffmpeg-4.3.2/fftools/ffplay.c:694-713 | an empty ring of at most FRAME_QUEUE_SIZE slots |
| `FrameQueues.FrameQueue.Push` | ffmpeg-4.3.2/fftools/ffplay.c:781-789 | windex and size advance as the step model's two atomic parts say |
| `FrameQueues.FrameQueue.Next` | ffmpeg-4.3.2/fftools/ffplay.c:791-804 | the first call on a kept frame only marks it shown; otherwise slot, rindex and size change as the step model says |
| `FrameQueueProtocol.StepInv` | ffmpeg-4.3.2/fftools/ffplay.c:749-810 | every atomic step of producer and consumer keeps the ring's invariant |
| `FrameQueueProtocol.RunInv` | ffmpeg-4.3.2/fftools/ffplay.c:749-810 | the invariant holds after every run, index and size updates being steps of their own |
| `FrameQueueProtocol.FilledSlotIsNotReadable` | ffmpeg-4.3.2/fftools/ffplay.c:749-763 | the slot being filled is no live slot and none the consumer holds |
| `FrameQueueProtocol.WriteIndexFollows` | ffmpeg-4.3.2/fftools/ffplay.c:781-804 | between operations windex is (rindex + size) mod max_size |
| `FrameQueueProtocol.HeldFramesAreIntact` | ffmpeg-4.3.2/fftools/ffplay.c:2364-2366 | a frame from peek_readable stays as it is until the following frame_queue_next, with keep_last until the one after that |
| `FrameQueueProtocol.NextSparesFrameIffKeepLast` | ffmpeg-4.3.2/fftools/ffplay.c:791-804 | frame_queue_next leaves the frame just got intact if and only if keep_last is set |
| `FrameQueueProtocol.FramesComeInPushOrder` | ffmpeg-4.3.2/fftools/ffplay.c:765-779 | the consumer gets exactly the pushed frames in push order |
| `FrameQueueProtocol.AbortReleases` | ffmpeg-4.3.2/fftools/ffplay.c:727-732 | after the abort has been signalled nobody sleeps, in rings where not both can sleep |
| `FrameQueueProtocol.WaitsExclude` | ffmpeg-4.3.2/fftools/ffplay.c:753-772 | the two waiting conditions exclude each other unless max_size is 1 and keep_last is set |
| `FrameQueueProtocol.OneKeptSlotDeadlocks` | ffmpeg-4.3.2/fftools/ffplay.c:753-796 | a ring of one kept slot reaches a state in which both threads sleep |
| `FrameQueueProtocol.BothAsleepIff` | ffmpeg-4.3.2/fftools/ffplay.c:749-810 | both sides can be asleep at once if and only if max_size is 1 and keep_last is set |
| `FrameQueueProtocol.SleepersHaveReason` | ffmpeg-4.3.2/fftools/ffplay.c:749-779 | in every interleaving the producer sleeps only at a full ring and the consumer only when all frames have been shown |
| `VideoOut.Clip` | ffmpeg-4.3.2/fftools/ffmpeg.c:1109-1120 | clipping preserves sync_ipts + duration, and a picture that ends behind the output position no longer starts before it |
| `VideoOut.OutputStream.OnPicture` | ffmpeg-4.3.2/fftools/ffmpeg.c:1083-1155 | the decision for a picture: frames to encode, frames that repeat the previous one, and sync_opts; what it means for each vsync method is VfrPlacement, PassthroughPlacement, CfrFramesShow, CfrEncodesIff and VscfrStartsAtFirst |
| `VideoOut.OutputStream.Decide` | ffmpeg-4.3.2/fftools/ffmpeg.c:1078-1158 | decision or closing flush, with the max_frames cap |
| `VideoOut.OutputStream.CountFrames` | ffmpeg-4.3.2/fftools/ffmpeg.c:1160-1184 | history, duplicate and drop counters and last_dropped, or the refusal of too many duplicates |
| `VideoOut.OutputStream.EncodeFrames` | ffmpeg-4.3.2/fftools/ffmpeg.c:1187-1328 | the encoding loop with its two early returns: which pictures with which pts go to the encoder |
| `VideoOut.DurationIsPositiveIff` | ffmpeg-4.3.2/fftools/ffmpeg.c:1059-1076 | a picture's duration is never negative, and positive if and only if the filter knows its rate or a plain stream's packet announced at least half a tick |
| `VideoOut.OutputStream.PictureDuration` | ffmpeg-4.3.2/fftools/ffmpeg.c:1062-1076 | the duration from filter rate, requested rate and packet |
| `VideoOut.OutputStream.ChooseMethod` | ffmpeg-4.3.2/fftools/ffmpeg.c:1091-1106 | the vsync method that VSYNC_AUTO stands for |
| `VideoOut.OutputStream.Output` | ffmpeg-4.3.2/fftools/ffmpeg.c:1078-1338 | one call once duration and method are known: decision, counters, loop and last picture |
| `VideoOut.OutputStream.VideoOut` | ffmpeg-4.3.2/fftools/ffmpeg.c:1042-1338 | one whole call, its duration and vsync method computed from rates, packet, format and input |
| `VideoOutRuns.MidPredIsMedian` | ffmpeg-4.3.2/libavcodec/mathops.h:98-112 | mid_pred is the median of its three arguments |
| `VideoOutRuns.EmitBurst` | ffmpeg-4.3.2/fftools/ffmpeg.c:1187-1328 | the loop emits consecutive pts, the previous picture first and the new one after it, as many as planned unless it returns early |
| `VideoOutRuns.PlanIsNatural` | ffmpeg-4.3.2/fftools/ffmpeg.c:1157-1158 | 0 <= nb0_frames <= nb_frames <= max_frames - frame_number, for any rounding to a nearest integer |
| `VideoOutRuns.CallBalance` | ffmpeg-4.3.2/fftools/ffmpeg.c:1165-1336 | a call keeps encoded = received + duplicated - dropped - pending drop if and only if, by its guards, it refuses a picture for the duplication threshold without also counting the pending drop, or accepts and has a picture and recording time in every iteration |
| `VideoOutRuns.CallEndsIff` | ffmpeg-4.3.2/fftools/ffmpeg.c:1165-1328 | a call ends without an early return if and only if the duplication threshold is kept and every iteration has a picture and recording time |
| `VideoOutRuns.RunBalance` | ffmpeg-4.3.2/fftools/ffmpeg.c:1157-1336 | the balance over every run without early returns |
| `VideoOutRuns.NegativeCapRun` | ffmpeg-4.3.2/fftools/ffmpeg.c:1157-1158 | with a negative max_frames nothing is encoded and nothing counted as dropped |
| `VideoOutRuns.ConservationIff` | ffmpeg-4.3.2/fftools/ffmpeg.c:1746-1747 | over a whole run with its closing flush, frames encoded = received + duplicated - dropped if and only if max_frames >= 0 |
| `VideoOutRuns.SyncNeverMovesBack` | ffmpeg-4.3.2/fftools/ffmpeg.c:1122-1154 | except for passthrough and drop, sync_opts never moves back |
| `VideoOutRuns.RunIncreasing` | ffmpeg-4.3.2/fftools/ffmpeg.c:1203-1318 | except for passthrough and drop, pts given to the encoder strictly increase over every run |
| `VideoOutRuns.AutomaticMethodIncreasesIff` | ffmpeg-4.3.2/fftools/ffmpeg.c:1091-1106 | with VSYNC_AUTO pts strictly increase in every run if and only if the format is avi, has a fixed frame rate or has timestamps |
| `VideoOutRuns.PassthroughIncreasesIff` | ffmpeg-4.3.2/fftools/ffmpeg.c:1148-1151 | for passthrough and drop the next pts increases if and only if the rounded input time has not moved behind the output position |
| `VideoOutRuns.CallInOrder` | ffmpeg-4.3.2/fftools/ffmpeg.c:1195-1198 | pictures reach the encoder in the order they came |
| `VideoOutRuns.CfrDrift` | ffmpeg-4.3.2/fftools/ffmpeg.c:1130-1141 | CFR: after a picture sync_ipts + duration - sync_opts is at most 0.5, and at least -2.1 if a frame was emitted |
| `VideoOutRuns.CfrFrameCount` | ffmpeg-4.3.2/fftools/ffmpeg.c:1130-1141 | CFR over a run: the number of frames encoded is at least the latest end of a picture less 0.5 and, if there are any, at most that end plus 2.1, in whatever order and from whenever the pictures come |
| `VideoOutRuns.VfrPlacement` | ffmpeg-4.3.2/fftools/ffmpeg.c:1142-1147 | VSYNC_VFR: a picture is encoded, once, if and only if its end lies past sync_opts - 0.6; its pts is within half a tick of the later of its time and sync_opts if it ends more than 0.6 past sync_opts, else sync_opts itself, within 0.6 of its end |
| `VideoOutRuns.PassthroughPlacement` | ffmpeg-4.3.2/fftools/ffmpeg.c:1148-1151 | VSYNC_PASSTHROUGH and VSYNC_DROP: every picture is encoded once, within half a tick of its time |
| `VideoOutRuns.CfrEncodesIff` | ffmpeg-4.3.2/fftools/ffmpeg.c:1130-1136 | CFR: a picture leads to a frame if and only if it ends no more than 1.1 ticks before sync_opts and no drop threshold applies to it |
| `VideoOutRuns.CfrFramesShow` | ffmpeg-4.3.2/fftools/ffmpeg.c:1130-1141 | CFR: a frame shows the previous picture only where the new one starts 1.1 ticks later or more, and the new one only where it starts 1.1 ticks later or less; at the first tick 1.1 itself shows the new one |
| `VideoOutRuns.VscfrStartsAtFirst` | ffmpeg-4.3.2/fftools/ffmpeg.c:1123-1129 | VSYNC_VSCFR: a first picture half a tick late or more is not preceded by repetitions; it starts the stream within half a tick of its own time and lasts its duration to the nearest tick |
| `VideoOutRuns.VscfrIsCfrUnless` | ffmpeg-4.3.2/fftools/ffmpeg.c:1123-1130 | in every other case VSYNC_VSCFR plans what VSYNC_CFR does |
| `VideoOutRuns.DurationIs` | ffmpeg-4.3.2/fftools/ffmpeg.c:1062-1076 | the duration is the packet's announced one to the nearest tick, or one frame at the filter's rate or at the requested rate, whichever is shorter, or 0 |
| `VideoOutRuns.AutomaticMethodDuplicatesIff` | ffmpeg-4.3.2/fftools/ffmpeg.c:1091-1106 | with VSYNC_AUTO no run ever duplicates a frame if and only if the format is avi or has a variable frame rate |
| `VideoOutRuns.AutomaticStartIff` | ffmpeg-4.3.2/fftools/ffmpeg.c:1097-1105 | with VSYNC_AUTO and a fixed frame rate a late first picture is repeated from tick 0 on if and only if timestamps are not copied and its file is not alone and without offset |
| `VideoOutCounts.DuplicatesAreRepeatsIff` | ffmpeg-4.3.2/fftools/ffmpeg.c:1165-1184 | over every stream whose calls end normally nb_frames_dup is the number of encoded frames that repeat the frame before them, if and only if not the first picture was planned as a repetition and the second call repeated nothing; then it is one more |
| `VideoOutCounts.DropsAreUnshown` | ffmpeg-4.3.2/fftools/ffmpeg.c:1165-1184 | likewise nb_frames_drop, with a pending drop, is the number of pictures received and never encoded, or one more in that case |
| `VideoOutCounts.LateFirstPictureIsMiscounted` | ffmpeg-4.3.2/fftools/ffmpeg.c:1136-1184 | the input of that case: a first picture 1.2 ticks late without a duration is encoded once, and counted as duplicate and as pending drop |
| `VideoOutCounts.HistoryIsPlans` | ffmpeg-4.3.2/fftools/ffmpeg.c:1160-1163 | in every run last_nb0_frames holds what the last three calls planned to repeat, newest first |
| `VideoOutCounts.ClosingRepeatsMedian` | ffmpeg-4.3.2/fftools/ffmpeg.c:1078-1082 | the closing call repeats the last picture as often as the median of those three plans, as far as max_frames allows |
| `TimestampRepair.GuessIsMedian` | ffmpeg-4.3.2/fftools/ffmpeg.c:782-785 | the guess formula is the median of pts, dts and last_mux_dts + 1 |
| `TimestampRepair.RepairMeetsRules` | ffmpeg-4.3.2/fftools/ffmpeg.c:775-812 | a repaired packet follows the last dts and has dts <= pts, and no timestamp appears or disappears |
| `TimestampRepair.UnchangedIff` | ffmpeg-4.3.2/fftools/ffmpeg.c:775-812 | a packet passes unchanged if and only if the muxer takes no timestamps or the packet already meets both rules |
| `TimestampRepair.RepairAllAt` | ffmpeg-4.3.2/fftools/ffmpeg.c:812 | every packet is repaired against the dts delivered before it |
| `TimestampRepair.DeliveredDtsRises` | ffmpeg-4.3.2/fftools/ffmpeg.c:787-812 | in any stretch of packets with defined dts, delivered dts never decreases, and strictly increases without TS_NONSTRICT |
| `TimestampRepair.DeliveredPacketsAreSound` | ffmpeg-4.3.2/fftools/ffmpeg.c:775-812 | every delivered packet with both timestamps has dts <= pts |
| `TimestampRepair.StreamUnchangedIff` | ffmpeg-4.3.2/fftools/ffmpeg.c:775-812 | a whole stream passes unchanged if and only if every packet meets the rules against its predecessor |
| `TimestampRepair.RepairIsIdempotent` | ffmpeg-4.3.2/fftools/ffmpeg.c:775-812 | repairing a repaired stream changes nothing |
| `TimestampRepair.RepairIsLeast` | ffmpeg-4.3.2/fftools/ffmpeg.c:787-808 | a packet in order is moved no farther than it must be: its dts to the least that follows the last one and is not earlier, its pts to the least not before that dts |
| `TimestampRepair.InvertedIsSettled` | ffmpeg-4.3.2/fftools/ffmpeg.c:776-808 | a packet with dts after pts gets one time between its own two, the nearest to the tick behind the last dts, or its pts if there was none; and then the least that follows |
| `TimestampRepair.WithoutDtsUnchanged` | ffmpeg-4.3.2/fftools/ffmpeg.c:775-812 | a packet without dts passes unchanged |
| `MuxQueue.OutputFile.FinalStamp` | ffmpeg-4.3.2/fftools/ffmpeg.c:747-812 | the final timestamps of a packet, rescaled and repaired, or the fatal error of exit_on_error; how near they are to the packet's own is DeliveredIsNear and MuxedTimestampsAreNear |
| `MuxQueue.OutputFile.SendToMuxer` | ffmpeg-4.3.2/fftools/ffmpeg.c:747-829 | one packet more for the muxer with its final timestamps, or the program ends |
| `MuxQueue.OutputFile.QueuePacket` | ffmpeg-4.3.2/fftools/ffmpeg.c:723-745 | the packet joins the stream's queue, which doubles up to its maximum, or the program ends |
| `MuxQueue.OutputFile.CountPacket` | ffmpeg-4.3.2/fftools/ffmpeg.c:715-721 | packets past max_frames are refused, the others counted once |
| `MuxQueue.OutputFile.WritePacket` | ffmpeg-4.3.2/fftools/ffmpeg.c:701-836 | write_packet for fresh and for unqueued packets |
| `MuxQueue.OutputFile.StreamsReady` | ffmpeg-4.3.2/fftools/ffmpeg.c:2952-2956 | true exactly when every stream is initialised |
| `MuxQueue.OutputFile.FlushOne` | ffmpeg-4.3.2/fftools/ffmpeg.c:2977-2989 | a stream with nothing queued takes over the muxer's time base; a queue is delivered in order until it is empty or the program ends |
| `MuxQueue.OutputFile.FlushQueues` | ffmpeg-4.3.2/fftools/ffmpeg.c:2977-2989 | all queues are flushed stream by stream |
| `MuxQueue.OutputFile.CheckInitOutputFile` | ffmpeg-4.3.2/fftools/ffmpeg.c:2948-2992 | nothing before all streams are initialised; then the header and all queues, or the end of the program |
| `MuxQueue.OutputFile.InitOutputStream` | ffmpeg-4.3.2/fftools/ffmpeg.c:3600-3606 | the stream counts as initialised and the file is checked |
| `MuxQueueRuns.DeliverKeeps` | ffmpeg-4.3.2/fftools/ffmpeg.c:747-829 | delivering the oldest packet that the muxer has not got keeps every stream's invariant |
| `MuxQueueRuns.EnqueueKeeps` | ffmpeg-4.3.2/fftools/ffmpeg.c:723-745 | queueing keeps contents and capacity bounds |
| `MuxQueueRuns.RunInv` | ffmpeg-4.3.2/fftools/ffmpeg.c:701-836 | the invariants hold after every run of writes and initialisations, and of a program that has ended what its streams delivered and the queue bounds |
| `MuxQueueRuns.NothingBeforeAllStreams` | ffmpeg-4.3.2/fftools/ffmpeg.c:2952-2956 | nothing reaches the muxer before all streams of the file are initialised, even if the program ends |
| `MuxQueueRuns.MuxerGetsAcceptedPackets` | ffmpeg-4.3.2/fftools/ffmpeg.c:701-829 | in every run, also one that ends the program, each stream's muxer sequence is the first of its admitted packets in order, rescaled and repaired; unless the program has ended it is all of them once the header is written, and before that they all wait in the queue |
| `MuxQueueRuns.CountsAndCapacity` | ffmpeg-4.3.2/fftools/ffmpeg.c:715-745 | in every run a queue keeps its capacity, which never exceeds max(8, configured maximum), and frame_number never exceeds the number of admitted packets; until the program ends it is that number |
| `MuxQueueRuns.WriteEndsIff` | ffmpeg-4.3.2/fftools/ffmpeg.c:715-808 | a written packet ends the program if and only if it is within the frame limit and either its queue has reached its bound before the header, or after it its dts does not follow and such errors are fatal |
| `MuxQueueRuns.DeliveredIsNear` | ffmpeg-4.3.2/fftools/ffmpeg.c:773-812 | a packet reaches the muxer at the nearest ticks to its own timestamps, within half a tick, if and only if these meet the muxer's rules as they are |
| `MuxQueueRuns.OrderlyIsOnlyRescaled` | ffmpeg-4.3.2/fftools/ffmpeg.c:773-812 | a stream with dts at most pts and dts that never fall, for a muxer that takes equal timestamps, is only rescaled: every timestamp within half a tick |
| `MuxQueueRuns.MuxedTimestampsAreNear` | ffmpeg-4.3.2/fftools/ffmpeg.c:701-829 | in every run of the program what the muxer has of such a stream is within half a tick of the packets written |
| `MuxTimeBases.TimeBaseIs` | ffmpeg-4.3.2/fftools/ffmpeg.c:2980-2982 | in every run all packets of a stream are rescaled from one time base: the first one set if a packet was queued before the header was written, else the muxer's own |
| `MuxTimeBases.HeaderIsWrittenIff` | ffmpeg-4.3.2/fftools/ffmpeg.c:2948-2969 | initialising a stream writes the header if and only if it was the last one and the muxer takes the header; a refused header ends the program with nothing muxed |
| `Mathematics.RescaleQIdentity` | ffmpeg-4.3.2/libavutil/mathematics.c:134-145 | rescaling within one time base changes nothing |
| `Mathematics.CompareTsSame` | ffmpeg-4.3.2/libavutil/mathematics.c:147-158 | within one time base comparing timestamps compares the numbers |
| `Mathematics.RescaleQIsNearest` | ffmpeg-4.3.2/libavutil/mathematics.c:58-145 | for all positive time bases the rescaled value is the nearest to the exact quotient, halves away from zero |
| `Mathematics.RescaleQIsMonotone` | ffmpeg-4.3.2/libavutil/mathematics.c:134-145 | rescaling keeps the order of timestamps |
| `Mathematics.CompareTsIsTime` | ffmpeg-4.3.2/libavutil/mathematics.c:147-158 | comparing timestamps of any two time bases compares their times in seconds |
| `Rescale64.RoundedIs` | ffmpeg-4.3.2/libavutil/mathematics.c:58-84 | what each of the five rounding modes means for positive and negative numbers |
| `Rescale64.Multiply` | ffmpeg-4.3.2/libavutil/mathematics.c:94-103 | the 128-bit product from four products of halves in wrapping 64-bit words, with its carry |
| `Rescale64.Divide` | ffmpeg-4.3.2/libavutil/mathematics.c:107-114 | the bitwise division of 128 bits in wrapping words: the exact quotient, whatever its register held before, or a number above INT64_MAX if the quotient has more than 64 bits |
| `Rescale64.LongQuotient` | ffmpeg-4.3.2/libavutil/mathematics.c:93-117 | the branch for large factors: the exact (a * b + r) / c, or INT64_MIN if and only if that exceeds INT64_MAX |
| `Rescale64.ShortRescale` | ffmpeg-4.3.2/libavutil/mathematics.c:82-91 | the same for the branches with small b and c, with no overflow on the way |
| `Rescale64.RescaleRnd` | ffmpeg-4.3.2/libavutil/mathematics.c:58-127 | for all 64-bit arguments and rounding modes the exact a * b / c so rounded, and INT64_MIN if and only if its magnitude exceeds INT64_MAX or an argument is out of range; INT64_MIN counts as -INT64_MAX unless it is passed through |
| `Rescale64.RescaleQ64` | ffmpeg-4.3.2/libavutil/mathematics.c:134-145 | av_rescale_q is the exact rescaling of the other models wherever that has 64 bits |
| `Rescale64.CompareTs64` | ffmpeg-4.3.2/libavutil/mathematics.c:147-158 | av_compare_ts compares the times exactly, if and only if the first one has 64 bits in the second's time base when rounded down; otherwise it answers -1 where 1 is right |
| `Rescale64.LatestIsReportedEarly` | ffmpeg-4.3.2/libavutil/mathematics.c:147-158 | such a time: INT64_MAX in units of two seconds, against 0 in seconds |
| `StreamLoop.Longer` | ffmpeg-4.3.2/fftools/ffmpeg.c:4195-4202 | the longer of the file's duration and a stream's, in a valid time base |
| `StreamLoop.InputFile.MaxDuration` | ffmpeg-4.3.2/fftools/ffmpeg.c:4133-4150 | duration_max |
| `StreamLoop.InputFile.AnyAudio` | ffmpeg-4.3.2/fftools/ffmpeg.c:4163-4172 | whether a stream of the file has audio samples |
| `StreamLoop.InputFile.Measure` | ffmpeg-4.3.2/fftools/ffmpeg.c:4174-4202 | one turn of the duration loop |
| `StreamLoop.InputFile.SeekToStart` | ffmpeg-4.3.2/fftools/ffmpeg.c:4152-4209 | the file's duration and time base after the rewind |
| `StreamLoop.InputFile.ProcessPts` | ffmpeg-4.3.2/fftools/ffmpeg.c:4418-4423 | a pts is shifted by the file's duration and widens the stream's range |
| `StreamLoopRuns.RawRangeIsTight` | ffmpeg-4.3.2/fftools/ffmpeg.c:4421-4422 | the range of a pass is attained at both ends |
| `StreamLoopRuns.PassMerges` | ffmpeg-4.3.2/fftools/ffmpeg.c:4418-4423 | a pass merges its shifted range into the range so far |
| `StreamLoopRuns.SeekFromIsMax` | ffmpeg-4.3.2/fftools/ffmpeg.c:4174-4202 | the duration loop takes the maximum over the streams that count, and nothing else |
| `StreamLoopRuns.RangesAccumulate` | ffmpeg-4.3.2/fftools/ffmpeg.c:4152-4203 | offsets never fall, and after pass k a stream's range runs from its first raw pts to its last one in pass k |
| `StreamLoopRuns.OffsetRecurrence` | ffmpeg-4.3.2/fftools/ffmpeg.c:4174-4202 | the next offset is the greatest frame duration plus range of the streams that count, audio streams alone if there is audio |
| `StreamLoopRuns.SeparatedIff` | ffmpeg-4.3.2/fftools/ffmpeg.c:4418-4423 | two passes are separated if and only if the offset grows by more than the stream's raw range |
| `StreamLoopRuns.PassesAreSeparated` | ffmpeg-4.3.2/fftools/ffmpeg.c:4133-4203 | without audio, in one time base, every pts of pass k+1 exceeds every pts of pass k of its stream, for any number of passes, if a frame lasts at least one tick |
| `StreamLoopRuns.ShortFramesCollide` | ffmpeg-4.3.2/fftools/ffmpeg.c:4186-4194 | a file whose passes collide, for every stream whose frame duration rounds to no tick |
| `StreamLoopRuns.LoopingIsSafeIff` | ffmpeg-4.3.2/fftools/ffmpeg.c:4133-4203 | passes are always separated if and only if the stream's frame duration is at least one tick |
| `StreamLoopRuns.FrameLastsIff` | ffmpeg-4.3.2/fftools/ffmpeg.c:4187-4193 | that condition in terms of frame rate and time base |
| `StreamLoopRuns.FrameDurationIsNear` | ffmpeg-4.3.2/fftools/ffmpeg.c:4177-4193 | a stream's frame duration is, to the nearest tick, that of its last samples if audio counts, else of a frame at its rate, else one tick |
| `StreamLoopRuns.ShiftIsNear` | ffmpeg-4.3.2/fftools/ffmpeg.c:4418-4420 | each stream is shifted by the file's duration, to the nearest tick of its own time base |
| `StreamLoopRuns.SeekFromIsLongest` | ffmpeg-4.3.2/fftools/ffmpeg.c:4133-4202 | for streams of any time bases the duration loop finds the longest time of the old duration and of all streams that count: those with audio samples if there is one, else all |
| `CondVar.StepInv` | ffmpeg-4.3.2/compat/os2threads.h:152-208 | every atomic step of waiters, signallers and broadcasters keeps the protocol's invariant |
| `CondVar.RunInv` | ffmpeg-4.3.2/compat/os2threads.h:152-208 | the invariant holds in every interleaving |
| `CondVar.WaitCountIsExact` | ffmpeg-4.3.2/compat/os2threads.h:195-201 | wait_count is the number of threads between increment and decrement |
| `CondVar.OneTokenAtMost` | ffmpeg-4.3.2/compat/os2threads.h:154-157 | at most one event, wake in flight or ack is outstanding, and one is exactly while a signaller awaits its ack |
| `CondVar.PostedEventIsTaken` | ffmpeg-4.3.2/compat/os2threads.h:197-199 | no wake is lost between unlocking and waiting: a posted event finds a waiter that can take it |
| `CondVar.AwaitedAckComes` | ffmpeg-4.3.2/compat/os2threads.h:155-156 | while a signaller awaits its ack some thread can take a step of the handshake |
| `CondVar.SignalReleasesOne` | ffmpeg-4.3.2/compat/os2threads.h:152-160 | a signal releases exactly one of the waiters registered at its start, none if there were none |
| `CondVar.BroadcastReleasesAllOnce` | ffmpeg-4.3.2/compat/os2threads.h:162-168 | a broadcast ends having released each waiter registered at its start exactly once |
| `CondVar.BroadcastStepCounts` | ffmpeg-4.3.2/compat/os2threads.h:162-168 | every step while a broadcast runs brings its end nearer by one |
| `CondVar.BroadcastIsNotStuck` | ffmpeg-4.3.2/compat/os2threads.h:162-168 | while a broadcast runs some thread can take a step |
| `CondVar.BroadcastTerminates` | ffmpeg-4.3.2/compat/os2threads.h:162-168 | no run stays inside a broadcast for longer than its number of steps left |
| `A64Charset.IndexFromBrackets` | ffmpeg-4.3.2/libavcodec/a64multienc.c:118-128 | the lower index is that of the last palette value not above the pixel |
| `A64Charset.FillDither` | ffmpeg-4.3.2/libavcodec/a64multienc.c:120-124 | dither levels between two neighbouring palette values |
| `A64Charset.BuildTables` | ffmpeg-4.3.2/libavcodec/a64multienc.c:117-129 | all three tables say for every value what the definitions say |
| `A64Charset.LevelOfColour` | ffmpeg-4.3.2/libavcodec/a64multienc.c:120-126 | a palette colour itself has dither level 0, so its lower index is chosen |
| `A64Charset.HighDiffIs` | ffmpeg-4.3.2/libavcodec/a64multienc.c:141-142 | the bright error is zero exactly if no pixel is brighter than the fourth colour |
| `A64Charset.LowDiffIs` | ffmpeg-4.3.2/libavcodec/a64multienc.c:143-144 | the dark error is zero exactly if no pixel is darker than the second colour |
| `A64Charset.AdjustedIsSettled` | ffmpeg-4.3.2/libavcodec/a64multienc.c:171-178 | an adjusted character never needs adjusting again |
| `A64Charset.AdjustmentIsLeast` | ffmpeg-4.3.2/libavcodec/a64multienc.c:171-178 | an adjustment changes a character by exactly the lesser of its two errors, removes that error and leaves the other as it was |
| `A64Charset.NothingNearerWillDo` | ffmpeg-4.3.2/libavcodec/a64multienc.c:171-178 | no character that needs no adjusting is nearer to the original than the adjusted one |
| `A64Charset.LevelIsProportional` | ffmpeg-4.3.2/libavcodec/a64multienc.c:118-126 | the dither level is the way to the next palette value in sevenths, rounded down |
| `A64Charset.InterlacedLines` | ffmpeg-4.3.2/libavcodec/a64multienc.c:146-158 | the two fields interleaved show the dither pattern at full height, line by line |
| `A64Charset.RowCode` | ffmpeg-4.3.2/libavcodec/a64multienc.c:146-168 | a row's byte gives back every pixel's two bits |
| `A64Charset.ChosenIsDecodable` | ffmpeg-4.3.2/libavcodec/a64multienc.c:171-187 | in a settled character two bits and the colour RAM bit determine the palette index, although indices 0 and 4 share a code |
| `A64Renderer.A64Context.RenderPixel` | ffmpeg-4.3.2/libavcodec/a64multienc.c:138-158 | a pixel's code in both fields |
| `A64Renderer.A64Context.AddErrors` | ffmpeg-4.3.2/libavcodec/a64multienc.c:140-144 | a pixel's share of the two errors |
| `A64Renderer.A64Context.RenderRow` | ffmpeg-4.3.2/libavcodec/a64multienc.c:136-166 | a row in both fields with its errors |
| `A64Renderer.A64Context.RenderChar` | ffmpeg-4.3.2/libavcodec/a64multienc.c:133-169 | a character's rows in both fields; other characters' rows stay |
| `A64Renderer.A64Context.AdjustChar` | ffmpeg-4.3.2/libavcodec/a64multienc.c:172-178 | a character's pixels are adjusted in place, other characters stay; that the adjustment is the least one is AdjustmentIsLeast and NothingNearerWillDo |
| `A64Renderer.A64Context.RenderTurn` | ffmpeg-4.3.2/libavcodec/a64multienc.c:132-189 | one turn renders a character and either finishes or adjusts it |
| `A64Renderer.A64Context.TurnEnds` | ffmpeg-4.3.2/libavcodec/a64multienc.c:171-187 | an adjusted character is finished by its next rendering |
| `A64Renderer.A64Context.RenderNext` | ffmpeg-4.3.2/libavcodec/a64multienc.c:132-189 | one turn of the loop moves on, or stays with a character that then needs no further redo |
| `A64Renderer.A64Context.RenderCharset` | ffmpeg-4.3.2/libavcodec/a64multienc.c:103-190 | rendering terminates with every character settled and rendered once, or twice if it needed adjusting |
| `A64Renderer.A64Context.RenderedPixelDecodes` | ffmpeg-4.3.2/libavcodec/a64multienc.c:132-189 | in the finished buffers a pixel's two bits and its character's colour RAM bit give back the palette index chosen for it |
| `A64Renderer.A64Context.ShownLineIsDithered` | ffmpeg-4.3.2/libavcodec/a64multienc.c:132-189 | on each of a finished character's sixteen displayed lines a pixel shows the palette colour below its value, or the next one where the pattern of its level is set |
| `A64Dither.DensityIsLevel` | ffmpeg-4.3.2/libavcodec/a64tables.h:93-150 | each interlaced pattern has four of 32 pixels set per level |
| `A64Dither.EvenGreyIsNear` | ffmpeg-4.3.2/libavcodec/a64multienc.c:118-158 | a grey area is shown, over eight lines, no brighter than it is and darker by less than a quarter of the step between the palette colours around it, and exactly if it is a palette colour |
| `A64Dither.EvenCharacterShows` | ffmpeg-4.3.2/libavcodec/a64multienc.c:132-189 | that is what the finished buffers of the renderer show of a character of one grey |
| `A64Renderer.A64Context.CompressColram` | ffmpeg-4.3.2/libavcodec/a64multienc.c:254-267 | every byte packs the bits of four screen quarters |
| `A64Renderer.ColramBitRecovered` | ffmpeg-4.3.2/libavcodec/a64multienc.c:254-267 | each of the 1000 cells finds its colour RAM bit again in the packed bytes |
| `EightBps.DecodeInit` | ffmpeg-4.3.2/libavcodec/8bps.c:145-182 | formats and plane maps by depth; plane map entries are distinct and below the pixel size |
| `EightBps.PlanemapFitsFormatIff` | ffmpeg-4.3.2/libavcodec/8bps.c:157-180 | planes go to their components except for 24-bit video shown as 0RGB32 on a big-endian machine |
| `EightBps.PixelSizeIs` | ffmpeg-4.3.2/libavcodec/8bps.c:145-182 | bytes a pixel and number of planes for each depth and format; the extra byte of 0RGB32 belongs to no plane |
| `EightBps.RowLoop` | ffmpeg-4.3.2/libavcodec/8bps.c:95-120 | row decoding with 32-bit wrap of dlen terminates within the packet and within the row's room |
| `EightBps.TestIsRoom` | ffmpeg-4.3.2/libavcodec/8bps.c:101 | the test against the row's end is a test for room, and what has room lies inside the frame |
| `EightBps.PlacesAreApart` | ffmpeg-4.3.2/libavcodec/8bps.c:89-90 | different pixels of different planes or rows never share a byte |
| `EightBps.PixelInRow` | ffmpeg-4.3.2/libavcodec/8bps.c:89-101 | every byte written lies in its own row of linesize bytes |
| `EightBps.CopyBytes` | ffmpeg-4.3.2/libavcodec/8bps.c:105-108 | the copying loop of a literal opcode |
| `EightBps.FillBytes` | ffmpeg-4.3.2/libavcodec/8bps.c:113-116 | the filling loop of a run opcode |
| `EightBps.ReadOpcode` | ffmpeg-4.3.2/libavcodec/8bps.c:96-119 | one opcode in place: its pixels, the rest of the row, or the end |
| `EightBps.ReadRow` | ffmpeg-4.3.2/libavcodec/8bps.c:95-120 | a row in place on the frame equals the row the packet says |
| `EightBps.ReadLine` | ffmpeg-4.3.2/libavcodec/8bps.c:89-120 | a row of a plane, found through the table of lengths; all rows shown before stay as they are |
| `EightBps.ReadPlane` | ffmpeg-4.3.2/libavcodec/8bps.c:83-121 | a plane |
| `EightBps.ReadFrame` | ffmpeg-4.3.2/libavcodec/8bps.c:55-122 | for every packet the frame shows exactly the lines that the packet says and is otherwise left alone; errors included |
| `EightBpsProofs.ChangedBytesAreOwned` | ffmpeg-4.3.2/libavcodec/8bps.c:76-122 | a changed byte belongs to exactly one plane of one row and lies inside that row |
| `EightBpsProofs.DecodeOp` | ffmpeg-4.3.2/libavcodec/8bps.c:96-119 | a valid opcode gives its pixels and leaves the rest of the row to be decoded |
| `EightBpsProofs.RunRead` | ffmpeg-4.3.2/libavcodec/8bps.c:109-119 | an opcode byte of 128 and more repeats the next byte 257 less that many times |
| `EightBpsProofs.LiteralRead` | ffmpeg-4.3.2/libavcodec/8bps.c:98-108 | one below 128 takes over one byte more than it says |
| `EightBpsProofs.TechnicalNoteExample` | ffmpeg-4.3.2/libavcodec/8bps.c:95-120 | the published example of the packing scheme unpacks to its 24 bytes |
| `EightBpsProofs.DecodeEncodedRow` | ffmpeg-4.3.2/libavcodec/8bps.c:95-120 | any valid opcode encoding of a row decodes to its pixels |
| `EightBpsProofs.EncodedImageDecodes` | ffmpeg-4.3.2/libavcodec/8bps.c:78-122 | any planar image, encoded with any valid opcodes, rows under 65536 encoded bytes, decodes to exactly its rows |
| `EightBpsProofs.PixelsAreRebuilt` | ffmpeg-4.3.2/libavcodec/8bps.c:78-122 | after decoding an encoded image every component of every pixel stands in the frame |
| `Zero12v.SelectStride` | ffmpeg-4.3.2/libavcodec/012v.c:46-62 | the line length selected, at least two thirds of eight bits a sample and fitting the packet, or the error for dimensions and size |
| `Zero12v.EvenSharesAreFound` | ffmpeg-4.3.2/libavcodec/012v.c:53-56 | a 012v packet of equal, long enough lines is read with their length |
| `Zero12v.OtherPacketsHaveLeastStride` | ffmpeg-4.3.2/libavcodec/012v.c:46-62 | any other packet is read with the least stride, or turned down exactly if it is shorter than that many lines |
| `Zero12v.WholeGroupsAreThere` | ffmpeg-4.3.2/libavcodec/012v.c:83-87 | for every selectable stride, while six samples are left so are sixteen bytes: only a last group shorter than six is cut |
| `Zero12v.SampleInGroup` | ffmpeg-4.3.2/libavcodec/012v.c:92-123 | a sample is what its field of its word holds, or 0x8000 if the line ends before the word does |
| `Zero12v.Unpack` | ffmpeg-4.3.2/libavcodec/012v.c:89-123 | up to four words unpacked in place into six, three and three samples, nothing else touched |
| `Zero12v.CopyBytes` | ffmpeg-4.3.2/libavcodec/012v.c:133-135 | a byte-wise copy of 16-bit samples, the odd last byte included, for both byte orders |
| `Zero12v.ReadGroup` | ffmpeg-4.3.2/libavcodec/012v.c:80-127 | a turn of the loop with a whole group left |
| `Zero12v.ReadShortGroup` | ffmpeg-4.3.2/libavcodec/012v.c:71-136 | the last, shorter group goes through temporary arrays whose bounds it keeps |
| `Zero12v.UnpackTemporary` | ffmpeg-4.3.2/libavcodec/012v.c:72-123 | what is left of a line, unpacked into arrays of 0x8000 |
| `Zero12v.ReadTurn` | ffmpeg-4.3.2/libavcodec/012v.c:80-127 | one turn of the loop: a whole group more, or the line finished |
| `Zero12v.ReadLine` | ffmpeg-4.3.2/libavcodec/012v.c:71-136 | a line's visible samples end up in the planes, with at most one chroma sample behind them touched |
| `Zero12v.NextLineShows` | ffmpeg-4.3.2/libavcodec/012v.c:71-139 | a further line leaves all lines above it as they are, even where a chroma copy runs over its line's end |
| `Zero12v.ReadFrame` | ffmpeg-4.3.2/libavcodec/012v.c:38-145 | a frame: the visible samples of every line, or an error with the picture untouched |
| `Zero12vProofs.FieldsOfPack` | ffmpeg-4.3.2/libavcodec/012v.c:92-96 | the three shifts and masks undo packing three 10-bit values |
| `Zero12vProofs.PackedAtSpot` | ffmpeg-4.3.2/libavcodec/012v.c:92-123 | each of the twelve samples of a group is unpacked from where it was packed |
| `Zero12vProofs.EncodedSampleDecodes` | ffmpeg-4.3.2/libavcodec/012v.c:80-136 | a packed sample comes back scaled by 64 if its word lies within the line, and is exactly 0x8000 otherwise |
| `Zero12vProofs.ReachesAllIff` | ffmpeg-4.3.2/libavcodec/012v.c:83-117 | no sample is cut off if and only if the line has the bytes that its width needs |
| `Zero12vProofs.LeastStrideSufficesIff` | ffmpeg-4.3.2/libavcodec/012v.c:46 | the least stride the decoder selects suffices if and only if the width is a multiple of six |
| `Zero12vProofs.EveryPictureIsRecoveredIff` | ffmpeg-4.3.2/libavcodec/012v.c:80-136 | packing and unpacking is the identity on all pictures if and only if the lines have the bytes they need |
| `Zero12vProofs.PictureShows` | ffmpeg-4.3.2/libavcodec/012v.c:70-140 | what the planes show once a packed picture has been read |
| `OptionSplit.Stem` | ffmpeg-4.3.2/fftools/cmdutils.c:217-218 | an option's name ends before the first colon |
| `OptionSplit.FoundIsFirst` | ffmpeg-4.3.2/fftools/cmdutils.c:215-226 | the first table entry whose name is the option's without its stream specifier |
| `OptionSplit.FindOption` | ffmpeg-4.3.2/fftools/cmdutils.c:220-225 | the search loop |
| `OptionSplit.NegatedIff` | ffmpeg-4.3.2/fftools/cmdutils.c:834-836 | a key negates exactly the boolean option whose name follows its "no" |
| `OptionSplit.OptionParseContext.constructor` | ffmpeg-4.3.2/fftools/cmdutils.c:702-722 | an empty context |
| `OptionSplit.OptionParseContext.FinishGroup` | ffmpeg-4.3.2/fftools/cmdutils.c:659-685 | the options read so far become a file's group and the current group is emptied |
| `OptionSplit.OptionParseContext.AddOpt` | ffmpeg-4.3.2/fftools/cmdutils.c:690-700 | an option joins the globals or the current group; by which of its flags is OptionsGoByTheirFlags |
| `OptionSplit.OptionParseContext.SplitOption` | ffmpeg-4.3.2/fftools/cmdutils.c:780-844 | one option: separator, table option with its value, library option, negated boolean, or error |
| `OptionSplit.OptionParseContext.SplitNext` | ffmpeg-4.3.2/fftools/cmdutils.c:763-845 | one turn of the loop with its two indices |
| `OptionSplit.OptionParseContext.SplitCommandline` | ffmpeg-4.3.2/fftools/cmdutils.c:750-854 | the context and the error of the whole line |
| `OptionSplitProofs.ReadFits` | ffmpeg-4.3.2/fftools/cmdutils.c:763-845 | what is read at a place is a possible item, and its arguments are exactly those before the rest |
| `OptionSplitProofs.FittingIsRead` | ffmpeg-4.3.2/fftools/cmdutils.c:763-845 | conversely a possible item's arguments are read as that item |
| `OptionSplitProofs.EveryArgumentOnce` | ffmpeg-4.3.2/fftools/cmdutils.c:763-845 | without error every argument is read exactly once and in order; with an error, all before it |
| `OptionSplitProofs.ReadableIsRead` | ffmpeg-4.3.2/fftools/cmdutils.c:763-845 | a readable sequence of items is what its arguments are read as |
| `OptionSplitProofs.OrderIsKept` | ffmpeg-4.3.2/fftools/cmdutils.c:659-700 | globals, files with the options before them, and trailing options keep the command line's order |
| `OptionSplitProofs.OptionsGoByTheirFlags` | ffmpeg-4.3.2/fftools/cmdutils.c:690-700 | for every command line, also one that ends in an error: no global option has OPT_PERFILE, OPT_SPEC or OPT_OFFSET, and every option of a file or waiting for one has at least one of them |
| `OptionSplitProofs.SplitReadsEverything` | ffmpeg-4.3.2/fftools/cmdutils.c:750-854 | both together for a whole command line |
| `OptionSplitProofs.SplitIsValid` | ffmpeg-4.3.2/fftools/cmdutils.c:750-854 | of the context only the last option of one list can have been read that way because the line ended |
| `OptionSplitProofs.PrintedRebuilds` | ffmpeg-4.3.2/fftools/cmdutils.c:659-700 | printed globals, input groups, output groups and trailing options make the context again |
| `OptionSplitProofs.PrintedSplitsAgain` | ffmpeg-4.3.2/fftools/cmdutils.c:750-854 | printing and splitting gives the same context, for any option tables, unless a global option was read as it was only because the line ended |
| `OptionSplitProofs.CarefullyPrintedSplitsAgain` | ffmpeg-4.3.2/fftools/cmdutils.c:750-854 | the context of every command line without errors, printed with an option that was read as it was because the line ended in last place, splits into itself, for all option tables |
| `OptionSplitProofs.LackingValueSplitsOtherwise` | ffmpeg-4.3.2/fftools/cmdutils.c:803-805 | with a valueless exiting option among the globals and anything else to print it gives another context |
| `OptionSplitProofs.PrintedSplitsAgainIff` | ffmpeg-4.3.2/fftools/cmdutils.c:750-854 | printed with the globals first and split again it is the same context if and only if no global option was read as it was only because the line ended, or nothing but globals is printed |
| `OptionSplitProofs.ShadowedSplitsOtherwise` | ffmpeg-4.3.2/fftools/cmdutils.c:812-836 | a trailing negated boolean option by a library option's name, printed before something else, is read as that library option or fails |
| `OptionSplitProofs.RepeatedShadowPrintsItself` | ffmpeg-4.3.2/fftools/cmdutils.c:812-836 | the line "ffmpeg -noy -noy -noy" with a library option noy: its context prints as the line itself although its last option hangs |
| `OptionSplitProofs.TrailingHelpIsAnotherOption` | ffmpeg-4.3.2/fftools/cmdutils.c:803-805 | the line "ffmpeg a -h": its -h, printed first, takes "--" for its argument |
| `ArgumentLog.ReportFile.PutEscaped` | ffmpeg-4.3.2/fftools/cmdutils.c:483-488 | one byte inside quotes |
| `ArgumentLog.ReportFile.DumpArgument` | ffmpeg-4.3.2/fftools/cmdutils.c:470-492 | an argument bare if all its bytes are safe, else quoted and escaped |
| `ArgumentLog.ReportFile.DumpCommandLine` | ffmpeg-4.3.2/fftools/cmdutils.c:519-523 | the arguments separated by spaces and ended by a newline |
| `ArgumentLog.ReadEscape` | ffmpeg-4.3.2/fftools/cmdutils.c:483-488 | an escaped byte is read back as that byte |
| `ArgumentLog.ReadDumped` | ffmpeg-4.3.2/fftools/cmdutils.c:470-492 | an argument is read back from what is shown of it, whatever follows |
| `ArgumentLog.LogIsFaithful` | ffmpeg-4.3.2/fftools/cmdutils.c:470-523 | the logged line gives back exactly the arguments, for all byte strings, empty ones included |
| `ArgumentLog.LogsDiffer` | ffmpeg-4.3.2/fftools/cmdutils.c:470-523 | different command lines are logged differently |
| `ArgumentLog.LogIsOneLine` | ffmpeg-4.3.2/fftools/cmdutils.c:470-523 | the log is one line of printable ASCII |
| `ArgumentLog.EscapedIsGuarded` | ffmpeg-4.3.2/fftools/cmdutils.c:483-488 | inside the quotes every quote, dollar and backtick stands behind a backslash of its own, for all byte strings |
| `ArgumentLog.SafeIff` | ffmpeg-4.3.2/fftools/cmdutils.c:474-476 | shown bare are exactly letters, digits and eight punctuation marks |
| `ArgumentLog.SafeBytes` | ffmpeg-4.3.2/fftools/cmdutils.c:474-481 | an argument shown bare has no blank and nothing that a shell reads specially |
| `ArgumentLog.PrintableEscape` | ffmpeg-4.3.2/fftools/cmdutils.c:484-489 | printable bytes other than quote, dollar, backtick and backslash stay as they are |
| `EightSvx.DeltaFollows` | ffmpeg-4.3.2/libavcodec/8svx.c:74-80 | every sample is the one before it plus its nibble's step, clipped to a byte, low nibble first |
| `EightSvx.FibonacciAddsUp` | ffmpeg-4.3.2/libavcodec/8svx.c:57 | the Fibonacci table is one: each step is the sum of the two nearer to zero |
| `EightSvx.ExponentialDoubles` | ffmpeg-4.3.2/libavcodec/8svx.c:58 | the exponential table doubles from step to step |
| `EightSvx.ClipIsNearest` | ffmpeg-4.3.2/libavcodec/8svx.c:76-80 | a value out of range becomes the nearest sample |
| `EightSvx.SeedIsCentred` | ffmpeg-4.3.2/libavcodec/8svx.c:107-109 | a signed seed becomes the sample 128 above it |
| `EightSvx.StateIsLast` | ffmpeg-4.3.2/libavcodec/8svx.c:82 | the state kept is the last sample |
| `EightSvx.DeltaInPieces` | ffmpeg-4.3.2/libavcodec/8svx.c:69-83 | decoding in two pieces with the state kept is decoding the whole |
| `EightSvx.DeltaDecode` | ffmpeg-4.3.2/libavcodec/8svx.c:69-83 | the loop writes exactly those samples and returns that state |
| `EightSvx.EightSvxContext.constructor` | ffmpeg-4.3.2/libavcodec/8svx.c:154-172 | a context without data, with the codec's table |
| `EightSvx.EightSvxContext.TakePacket` | ffmpeg-4.3.2/libavcodec/8svx.c:96-124 | the first packet is taken apart into channels and seeds, or turned down as too small |
| `EightSvx.EightSvxContext.DecodeChannels` | ffmpeg-4.3.2/libavcodec/8svx.c:142-145 | the next piece of every channel |
| `EightSvx.EightSvxContext.DecodePiece` | ffmpeg-4.3.2/libavcodec/8svx.c:130-151 | at most 2048 bytes a channel, or no frame when the data are used up; the byte count returned |
| `EightSvx.EightSvxContext.DecodeFrame` | ffmpeg-4.3.2/libavcodec/8svx.c:86-152 | one whole call |
| `EightSvxRuns.RunGives` | ffmpeg-4.3.2/libavcodec/8svx.c:130-151 | any number of calls gives the next bytes of every channel decoded in one go, in as few frames as that takes |
| `EightSvxRuns.SplitIs` | ffmpeg-4.3.2/libavcodec/8svx.c:97-123 | where each channel's data and seed stand in the first packet |
| `EightSvxRuns.CallsGiveTheWhole` | ffmpeg-4.3.2/libavcodec/8svx.c:97-151 | enough calls give one delta decode of each channel, in exactly ceil(chan_size / 2048) frames, with byte counts summing to channels * floor(size / channels), whatever the later packets hold |
| `EightSvxRuns.SmallPacketIsTurnedDown` | ffmpeg-4.3.2/libavcodec/8svx.c:102-105 | a packet that is too small changes nothing |
| `EightSvxRuns.OnePacketGivesTheWhole` | ffmpeg-4.3.2/libavcodec/decode.c:513-520 | one packet fed until it is used up is enough calls |

## Left out

General:

- Codecs, muxers, filters, SDL, memory allocation failures, log messages and system calls: answers of a step, or absent.
- 64-bit overflow of timestamps, serials and counters, and the range of C integers other than bytes, 16-bit and 32-bit
  words where the code works on them; rounding errors of floating point.

By part:

- Blocking waits (`SDL_CondWait`) are a failing attempt (`TryGet`) or a sleeping state; packets own their data
  implicitly, so `av_packet_unref` and `av_free` have no counterpart.
- PacketQueues: `packet_queue_destroy` is not modelled; the serial protocol has one reader and one decoder, and its
  unlocked reads of the queue are atomic.
- FrameQueueProtocol: displaying, `frame_queue_peek`, `peek_next` and `peek_last` as readers of the ring other than
  through the frame got; `frame_queue_destory`.
- VideoOutRuns.RunBalance: runs that take an early return are covered call by call (`CallBalance`), because their
  effect depends on which return it is.
- VideoOut: `is_cfr`, which only packet durations use; the duplicate and drop counters are one stream's, while the
  program sums them over streams; forced key frames and statistics.
- VideoOutRuns.CfrFrameCount: for runs without a drop threshold, early returns or a cap that bites;
  `OnePictureIsACfrRun` is one.
- MuxQueue: failures of the muxer's write, bitstream filters, packet side data and durations, and streams that are
  closed; a header that fails ends the program, which in the code its callers do.
- TimestampRepair.DeliveredDtsRises: for audio, video and subtitle streams other than VP9 stream copy, as the code
  restricts its repair.
- Mathematics: the exact arithmetic that the other models use, on unbounded integers; `Rescale64` says where the
  64-bit code computes the same.
- Rescale64: rounding modes that are none of the five; `CompareTs64` for INT64_MIN, which overflows in the code, and for
  time bases that are not positive.
- StreamLoop: discontinuity correction, `ts_offset`, `ts_scale`, wrap correction, and the overflow guard of line 4199; a
  stream's pts range is absent rather than inverted before its first pts; every pass reads the same packets.
- StreamLoopRuns.PassesAreSeparated: for files without audio samples; with audio, `OffsetRecurrence` says which
  streams the offset follows.
- CondVar: `pthread_cond_timedwait`, whose timeout posts an ack that no signaller awaits, and signallers that do not
  hold the mutex.
- CondVar.BroadcastTerminates: counts the steps of threads taking part; fairness among others is not part of this model.
- A64: codebook training and the non-interlaced variant; the renderer is modelled for any dither patterns whose level 0
  chooses the lower colour, and `A64Dither` for the interlaced ones of the code.
- EightBps: palettes, and the buffers that `ff_get_buffer` provides, whose size is a precondition; negative line sizes.
- Zero12v: the arrays for a short last group are made when it is reached instead of at every line's start.
- EightSvx: calls with a NULL packet, and the error for an empty first call that only they can reach.
- EightSvxRuns.OnePacketGivesTheWhole: of `decode.c` only how a packet is cut off by what a call consumed.
- OptionSplit: library options are a list of accepted names and values in their order, not dictionaries;
  whether a library option exists depends on its name alone; only the two groups of ffmpeg.
- OptionSplitProofs.PrintedSplitsAgainIff: leaves out a last global option by a library option's name together with
  library options given; then both answers occur (`RepeatedShadowPrintsItself` is one that comes back), and
  `CarefullyPrintedSplitsAgain` covers these contexts too.
- ArgumentLog: the heading line of the report, and writing to a file that fails.
