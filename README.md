# Film scanner live-view core, modelled in Dafny

The film scanner drives an Olympus camera over Wi-Fi. The camera streams its
live view as RTP datagrams (section 5.1 of RFC 3550). Each datagram carries:

- a 12-byte header with the extension bit, the marker bit and a 32-bit timestamp;
- optionally, a header extension (section 5.3.1 of RFC 3550) holding vendor
  telemetry fields (shutter, aperture, ISO, exposure compensation, orientation,
  focus);
- a slice of a JPEG image, delimited by the SOI (FF D8) and EOI (FF D9) markers
  of ITU-T T.81, Annex B.

This project models the parts of the program that decode that stream and the
small control tables around it:

- **Camera receiver** (`camera_receiver.dfy`): the per-packet assembler of
  `film_scanner/camera/extended_liveview_receiver.py`. The class holds
  `frame_data`, `has_jpeg_header` and `current_frame_seq`. It emits only
  SOI…EOI buffers into a drop-oldest image queue. The same file holds its TLV
  telemetry walk, which starts at offset 0 and so reads the extension header
  itself as the first field.
- **Second receiver** (`liveview_receiver.dfy`): the inline loop of
  `film_scanner/extended_liveview_receiver.py`. It checks for EOI only when the
  frame is queued. The model proves that it queues the same frames as the
  camera receiver, in the same order, on every stream where the two split each
  datagram alike. They split a datagram differently in two cases: a datagram of
  12 to 15 bytes with the X flag, and an extension block that runs past the end
  of the datagram.
- **RTP telemetry parser** (`rtp_packet_parser.dfy`): `RtpPacketParser`. It
  walks from offset 4 and renders display text for each field.
- **Shared pieces**:
  - the sticky merge of telemetry (`telemetry.dfy`);
  - big-endian bytes, JPEG markers and decimal text (`bytes.dfy`);
  - the RTP header (`rtp_header.dfy`);
  - the drop-oldest bounded queue (`bounded_queue.dfy`);
  - a generic step runner (`feed.dfy`).
- **Stream health**: the windowed frame-rate, error-rate and gap classifier
  (`health_window.dfy`), used by `FrameHealthMonitor`
  (`frame_health_monitor.dfy`) and `PerformanceMonitor`
  (`performance_monitor.dfy`).
- **Control**:
  - the application state machine with handlers, subscribers and context
    (`state_manager.dfy`);
  - keyboard dispatch (`keyboard_controller.dfy`);
  - dotted-path settings with their shallow-copied defaults (`settings_manager.dfy`);
  - the bounded inversion cache and the fit-to-window scale (`image_processor.dfy`).

Modelling conventions:

- Time is the explicit argument `now`.
- Floating-point values are exact reals.
- A float rendered as text is kept symbolic as `Decimal(prefix, num, den, places, suffix)` wherever its digits depend on rounding.
- Callbacks and handlers are identifiers, and invoking them appends to a call log.

## Model

| member | source | states |
|---|---|---|
| Bytes.U16RoundTrip | film_scanner/rtp_packet_parser.py:59 | reading a big-endian 16-bit word back from any position gives the value written |
| Bytes.U32RoundTrip | film_scanner/camera/extended_liveview_receiver.py:236-237 | reading a big-endian 32-bit word back gives the value written |
| Bytes.I32 | film_scanner/rtp_packet_parser.py:208-210 | the signed 32-bit reading is in range, is negative exactly when the top bit is set, and equals the unsigned reading modulo 2^32 |
| Bytes.Bit80IsHighHalf | film_scanner/camera/extended_liveview_receiver.py:235 | the marker test `byte & 0x80` holds exactly for bytes of 128 or more |
| Bytes.ParseNatToString | film_scanner/rtp_packet_parser.py:195-200 | the decimal text of a number parses back to that number |
| Bytes.NatToStringInjective | film_scanner/rtp_packet_parser.py:195-200 | different numbers have different decimal texts |
| Bytes.TenthsRoundTrip | film_scanner/rtp_packet_parser.py:168-170 | the one-decimal text of a count of tenths, sign included, parses back to that count |
| BoundedQueue.Push | film_scanner/camera/extended_liveview_receiver.py:313-320 | a push onto a full queue evicts the oldest item: the result is the newest `cap` items, is never longer than `cap`, and ends with the new item; below capacity it is a plain append |
| BoundedQueue.PushAllKeepsNewest | film_scanner/extended_liveview_receiver.py:209-220 | any number of pushes leaves exactly the newest `cap` items of everything pushed |
| BoundedQueue.PushAllAppend | film_scanner/extended_liveview_receiver.py:209-220 | pushing two batches one after the other is the same as pushing their concatenation |
| BoundedQueue.PushAllFromEmpty | film_scanner/util/performance_monitor.py:26-28 | from empty, more than `cap` pushes keep exactly the last `cap` items |
| Telemetry.TruthyPart | film_scanner/camera/extended_liveview_receiver.py:61-63 | selects exactly the parsed entries whose values are truthy, with their values |
| Telemetry.Merge | film_scanner/camera/extended_liveview_receiver.py:61-63 | truthy entries of the update overwrite, every other key keeps its value, and no key is lost |
| Telemetry.MergeIsSticky | film_scanner/extended_liveview_receiver.py:53-58 | a known setting survives any update, and changes only to a truthy new value |
| Telemetry.MergeIdempotent | film_scanner/camera/extended_liveview_receiver.py:61-63 | applying the same update twice is the same as applying it once |
| Telemetry.MergeCompose | film_scanner/camera/extended_liveview_receiver.py:61-63 | two merges in a row equal one merge of both truthy parts, the later one winning |
| Telemetry.MergeTwoPartialUpdates | film_scanner/extended_liveview_receiver.py:53-58 | an aperture-only packet followed by an ISO-only packet leaves both settings |
| Feed.RunAppend | film_scanner/extended_liveview_receiver.py:95-191 | feeding two packet sequences in turn equals feeding their concatenation; outputs concatenate |
| RtpHeader.DecodeEncodedHeader | film_scanner/camera/extended_liveview_receiver.py:233-237 | the extension flag is bit 0x10 of byte 0, the marker is bit 0x80 of byte 1 and the timestamp is the big-endian word at bytes 4-7 |
| CameraReceiver.ApertureEntry | film_scanner/camera/extended_liveview_receiver.py:119-123 | aperture is stored exactly when the value word at field bytes 4-7 is non-zero |
| CameraReceiver.ApertureValue | film_scanner/camera/extended_liveview_receiver.py:121-123 | the aperture text is `F` then value/100 to one decimal: exact text when the value is a multiple of ten, symbolic otherwise |
| CameraReceiver.ShutterEntry | film_scanner/camera/extended_liveview_receiver.py:125-138 | shutter is stored exactly when both numerator and denominator are non-zero |
| CameraReceiver.ShutterValue | film_scanner/camera/extended_liveview_receiver.py:129-138 | whole seconds with denominator 1 render as `n"`; other slow speeds as num/den with one decimal and `"`; a divisible fraction as `1/q"`; any other fraction as `1/` and den/num with no decimals and `"` |
| CameraReceiver.IsoEntry | film_scanner/camera/extended_liveview_receiver.py:140-149 | ISO is stored exactly when the value is non-zero; its text is `ISO-A ` when the auto word is non-zero, else `ISO `, followed by digits that parse back to the value |
| CameraReceiver.ExposureCompensationEntry | film_scanner/camera/extended_liveview_receiver.py:151-159 | the entry is always stored; it is the literal "Â±0.0" exactly when the signed value is zero; a positive value is `+` and its tenths, a negative one `-` and its tenths, both parsing back to the value |
| CameraReceiver.OrientationEntry | film_scanner/camera/extended_liveview_receiver.py:161-165 | orientation is stored exactly when the fourth byte is 1, 3, 6 or 8, as that number |
| CameraReceiver.FieldEntriesDecodes | film_scanner/camera/extended_liveview_receiver.py:117-165 | each known function id yields its key exactly when its slice fits and its value test passes; an unknown id yields nothing |
| CameraReceiver.FieldEntriesShape | film_scanner/camera/extended_liveview_receiver.py:117-165 | a field yields at most one known key, always with a truthy value |
| CameraReceiver.WalkStep | film_scanner/camera/extended_liveview_receiver.py:105-116 | one TLV step: stop when the declared field overruns the block, else decode it and skip 4 + 4·length bytes |
| CameraReceiver.ParseExtensionData | film_scanner/camera/extended_liveview_receiver.py:84-173 | the `while` loop computes the walk from offset 0; every key is a camera key with a truthy value |
| CameraReceiver.WholeBlockIsOneField | film_scanner/camera/extended_liveview_receiver.py:104 | a block whose length word counts the whole block is read as a single field keyed by its profile word, so the inner fields are skipped |
| CameraReceiver.UnknownProfileYieldsNothing | film_scanner/camera/extended_liveview_receiver.py:104-116 | with an unknown profile word, a well-formed block yields no settings at all |
| CameraReceiver.ExtensionBlock | film_scanner/camera/extended_liveview_receiver.py:243-258 | the extension block is taken exactly when the X bit is set and both its 4-byte header and its 4·len+4 bytes fit; it is the bytes right after the header |
| CameraReceiver.Payload | film_scanner/camera/extended_liveview_receiver.py:260-264 | the packet is the header, then the extension block if taken, then the payload |
| CameraReceiver.StartFrame | film_scanner/camera/extended_liveview_receiver.py:267-277 | on a new timestamp a buffer that had SOI and ends with EOI is emitted, and the state restarts empty at the new timestamp; the same timestamp changes nothing |
| CameraReceiver.TakePayload | film_scanner/camera/extended_liveview_receiver.py:280-285 | a payload starting with SOI sets the header flag, and bytes are appended only while the flag is set |
| CameraReceiver.EndFrame | film_scanner/camera/extended_liveview_receiver.py:288-295 | a marker emits a buffer that had SOI and ends with EOI, then resets the buffer and the flag but keeps the timestamp |
| CameraReceiver.Assemble | film_scanner/camera/extended_liveview_receiver.py:267-295 | one packet keeps the buffer invariant (empty without SOI, else starting with SOI), emits only SOI…EOI buffers, at most two, and ends idle on a marker |
| CameraReceiver.NoBytesBeforeSoi | film_scanner/camera/extended_liveview_receiver.py:280-285 | bytes that arrive before any SOI are never buffered |
| CameraReceiver.IncompleteFrameDiscarded | film_scanner/camera/extended_liveview_receiver.py:267-277 | a buffer without EOI is dropped, not emitted, when the timestamp changes |
| CameraReceiver.RunDeliversOnlyJpegs | film_scanner/camera/extended_liveview_receiver.py:220-298 | over any packet sequence the invariant holds and every emitted frame starts with SOI and ends with EOI |
| CameraReceiver.FirstFragment | film_scanner/camera/extended_liveview_receiver.py:280-295 | from idle, an SOI payload opens a frame, or is emitted at once when it also carries the marker and ends with EOI |
| CameraReceiver.WholeFrameInOne | film_scanner/camera/extended_liveview_receiver.py:280-295 | a complete JPEG in one marker packet is emitted whole |
| CameraReceiver.FrameTail | film_scanner/camera/extended_liveview_receiver.py:284-295 | the remaining fragments of an open frame, ending in the marker, emit the open buffer plus all their payloads |
| CameraReceiver.OneFrame | film_scanner/camera/extended_liveview_receiver.py:267-295 | from idle, a well-formed frame (one timestamp, SOI first, marker last, EOI at the end) emits exactly the concatenation of its payloads |
| CameraReceiver.FramesDeliveredInOrder | film_scanner/camera/extended_liveview_receiver.py:220-298 | a stream of well-formed frames emits each frame's bytes, in order, and nothing else |
| CameraReceiver.Publish | film_scanner/camera/extended_liveview_receiver.py:65-77 | with a status queue and a non-empty parse, the queue becomes the newest `cap` entries of the old queue followed by the merged map; an empty parse or no queue leaves it alone |
| CameraReceiver.ExtendedLiveViewReceiver.constructor | film_scanner/camera/extended_liveview_receiver.py:20-41 | an empty buffer, no header, current frame timestamp -1 (so the first packet always starts a frame), no settings, an empty image queue and an optional status queue |
| CameraReceiver.ExtendedLiveViewReceiver.UpdatePacketData | film_scanner/camera/extended_liveview_receiver.py:43-82 | empty data changes nothing; otherwise the extension is remembered, the parse is merged stickily and a copy is published |
| CameraReceiver.ExtendedLiveViewReceiver.AddFrameToQueue | film_scanner/camera/extended_liveview_receiver.py:300-325 | the frame is pushed with the last extension, evicting the oldest when full |
| CameraReceiver.ExtendedLiveViewReceiver.GetLatestCameraSettings | film_scanner/camera/extended_liveview_receiver.py:340-347 | returns the current settings map |
| CameraReceiver.ExtendedLiveViewReceiver.ProcessPacket | film_scanner/camera/extended_liveview_receiver.py:220-298 | a packet under 12 bytes changes nothing; telemetry is merged only for an extension on a new timestamp; the assembly state and image queue follow `Assemble` on the decoded header and payload |
| CameraReceiver.ExtendedLiveViewReceiver.MergeTelemetryIfNew | film_scanner/camera/extended_liveview_receiver.py:250-258 | telemetry is parsed and merged only when an extension block is present and the timestamp differs from the current frame's |
| LiveViewReceiver.DecodePacket | film_scanner/extended_liveview_receiver.py:106-158 | under 12 bytes is skipped; an X-flagged packet too short for the length word raises; otherwise the header fields, the extension block and the payload split the packet; the block is 4·len+4 bytes when that fits, and when it does not the block takes the rest and the payload is empty |
| LiveViewReceiver.DecodeAgrees | film_scanner/extended_liveview_receiver.py:122-158 | a datagram without the X flag, or with an extension block that fits, decodes to the camera receiver's extension block and payload |
| LiveViewReceiver.PacketAgrees | film_scanner/extended_liveview_receiver.py:106-184 | one datagram split alike takes both receivers to the same state, and the EOI-terminated buffers it hands on are the camera receiver's frames |
| LiveViewReceiver.StreamsAgree | film_scanner/extended_liveview_receiver.py:95-191 | over a stream of datagrams split alike, both receivers end in the same state and the buffers `_add_frame_to_queue` accepts are exactly the camera receiver's frames, in order |
| LiveViewReceiver.ShortExtensionPacketDropped | film_scanner/extended_liveview_receiver.py:143-158 | an X-flagged packet of 12 to 15 bytes is dropped here, whereas the camera receiver uses its bytes after 12 as payload |
| LiveViewReceiver.StartFrame | film_scanner/extended_liveview_receiver.py:160-169 | on a new timestamp the buffer is handed on exactly when the header flag is set and it is non-empty (under the buffer invariant, exactly when the flag is set), and the state restarts idle at the new timestamp; the same timestamp changes nothing |
| LiveViewReceiver.EndFrame | film_scanner/extended_liveview_receiver.py:181-184 | a marker with the flag set hands on exactly the current buffer and resets it, keeping the timestamp; otherwise nothing changes |
| LiveViewReceiver.Complete | film_scanner/extended_liveview_receiver.py:207 | keeps exactly the handed buffers that end with EOI |
| LiveViewReceiver.VariantsAgree | film_scanner/extended_liveview_receiver.py:160-184 | the inline loop reaches the same state as the camera receiver, and the buffers it enqueues are exactly the frames the camera receiver emits |
| LiveViewReceiver.RunHandsSoiBuffers | film_scanner/extended_liveview_receiver.py:95-191 | over any packet sequence every buffer handed on starts with SOI |
| LiveViewReceiver.Deliver | film_scanner/extended_liveview_receiver.py:39-72 | a handed buffer that ends with EOI is pushed drop-oldest onto the image queue, and any other changes nothing; an empty telemetry block changes nothing; any other merges its parse into the settings, publishes the merged map as `Publish` states and refreshes the parser's remembered fields with the parse; a handed buffer leaves the remembered fields alone; queues stay bounded |
| LiveViewReceiver.ImagesAreCompleteBuffers | film_scanner/extended_liveview_receiver.py:198-225 | handing on buffers enqueues exactly those that end with EOI, newest kept |
| LiveViewReceiver.ExtendedLiveViewReceiver.constructor | film_scanner/extended_liveview_receiver.py:21-37 | empty settings, an empty image queue, a status queue only when one is given, and a fresh parser whose six remembered fields are all None |
| LiveViewReceiver.ExtendedLiveViewReceiver.UpdatePacketData | film_scanner/extended_liveview_receiver.py:39-72 | the parse of the data is merged stickily and a copy published; each of the parser's six remembered fields takes the parsed value when its key was decoded and keeps its old value otherwise; empty data leaves the parser alone |
| LiveViewReceiver.ExtendedLiveViewReceiver.AddFrameToQueue | film_scanner/extended_liveview_receiver.py:198-225 | a buffer is enqueued only if it ends with EOI, evicting the oldest when full |
| LiveViewReceiver.ExtendedLiveViewReceiver.GetLatestCameraSettings | film_scanner/extended_liveview_receiver.py:240-247 | returns the current settings map |
| LiveViewReceiver.ExtendedLiveViewReceiver.ReceiveDatagram | film_scanner/extended_liveview_receiver.py:106-191 | one datagram: the assembly state, the settings, the queues and the parser's remembered fields follow the packet step and `Deliver` |
| LiveViewReceiver.ExtendedLiveViewReceiver.ReceivePackets | film_scanner/extended_liveview_receiver.py:95-191 | the receive loop over a datagram sequence delivers exactly the events of running the packet step from the initial state, so the settings, the queues and the parser's remembered fields are those of delivering them in order |
| RtpParser.ShutterText | film_scanner/rtp_packet_parser.py:140-153 | `---` exactly when either word is zero; `n"` for whole seconds; `1/d` for a unit fraction; other slow speeds are num/den with one decimal and `"`, other fractions `1/` and den/num with one decimal |
| RtpParser.ApertureText | film_scanner/rtp_packet_parser.py:164-170 | `F--` exactly for zero, else `F` and the value in tenths |
| RtpParser.IsoText | film_scanner/rtp_packet_parser.py:179-200 | `ISO --` exactly for zero, `LOW` for 0xFFFE, else the number after `ISO ` or `ISO-A ` |
| RtpParser.ExposureCompensationText | film_scanner/rtp_packet_parser.py:208-218 | "±0.0" exactly for zero, a `+` for positive values and the signed tenths |
| RtpParser.FocusModeText | film_scanner/rtp_packet_parser.py:240-257 | a mode name exactly for types 0, 1 and 2, else empty |
| RtpParser.ExposureWarningField | film_scanner/rtp_packet_parser.py:222-234 | `EXP!` exactly when the 4-byte word is non-zero |
| RtpParser.FocusModeField | film_scanner/rtp_packet_parser.py:236-262 | sets the focus mode and always the status `unknown` |
| RtpParser.ShutterSpeedField | film_scanner/rtp_packet_parser.py:117-157 | always yields a shutter entry, `---` when the slice is short |
| RtpParser.ShutterReadsBytesFourToEleven | film_scanner/rtp_packet_parser.py:125-131 | with a 12-byte slice the shutter numerator and denominator come from bytes 4-11 of the field |
| RtpParser.WalkStep | film_scanner/rtp_packet_parser.py:67-95 | one field step decodes the field after its header and skips 4 + 4·length bytes |
| RtpParser.WalkKeys | film_scanner/rtp_packet_parser.py:59-95 | the walk only produces the parser's seven keys |
| RtpParser.WalkFields | film_scanner/rtp_packet_parser.py:53-95 | input under 4 bytes gives nothing; the `while` loop computes the walk from offset 4 up to 4 + 4·length |
| RtpParser.RtpPacketParser.constructor | film_scanner/rtp_packet_parser.py:35-41 | all six remembered fields start as None |
| RtpParser.RtpPacketParser.ParseExtensionHeader | film_scanner/rtp_packet_parser.py:43-115 | returns the walk and overwrites each remembered field only if this parse produced its key |
| RtpParser.Remember | film_scanner/rtp_packet_parser.py:96-108 | a field whose key the parse produced takes its value and any other keeps its own, so nothing is forgotten and an empty parse changes nothing |
| RtpParser.RtpPacketParser.AllSettings | film_scanner/rtp_packet_parser.py:264-273 | the six remembered fields under their keys |
| RtpParser.ApertureExample | film_scanner/rtp_packet_parser.py:168-170 | 28 renders as `F2.8` |
| RtpParser.ShutterExamples | film_scanner/rtp_packet_parser.py:140-153 | 1/60 renders as `1/60` and 2/1 as `2"` |
| RtpParser.ExposureCompensationExamples | film_scanner/rtp_packet_parser.py:212-218 | -15 renders as `-1.5` and 5 as `+0.5` |
| HealthWindow.InWindow | film_scanner/util/performance_monitor.py:105-108 | the in-window times are exactly the recorded times at or after the window start |
| HealthWindow.WindowIsSuffix | film_scanner/frame_health_monitor.py:63-66 | over increasing times the window is a suffix, and is increasing |
| HealthWindow.Sort | film_scanner/util/performance_monitor.py:113-118 | `sorted` gives an ordered permutation |
| HealthWindow.SortIsIdentityOnWindow | film_scanner/util/performance_monitor.py:113-118 | sorting the window of increasing recorded times changes nothing |
| HealthWindow.MaxGap | film_scanner/util/performance_monitor.py:113-121 | zero for fewer than two times, otherwise the largest consecutive difference, never negative on sorted input |
| HealthWindow.Classify | film_scanner/util/performance_monitor.py:123-128 | critical exactly when a critical threshold is crossed, warning exactly when only a warning threshold is, ok otherwise |
| HealthWindow.Measure | film_scanner/util/performance_monitor.py:105-128 | fps is the in-window count over the window size, the error rate the in-window errors over frames or 0, the gap that of the sorted window, and the status their classification |
| HealthWindow.MetricsNonNegative | film_scanner/frame_health_monitor.py:63-78 | fps, error rate and gap are never negative |
| HealthWindow.StatusReport | film_scanner/util/performance_monitor.py:149-180 | silent exactly when ok; the prefix follows the status; the cause is low fps, then error rate, then gap, judged on the critical thresholds |
| HealthWindow.WarningsAreGeneric | film_scanner/frame_health_monitor.py:99-116 | every warning reports the generic cause, and a critical report always names a specific cause |
| HealthWindow.EmptyWindowIsCritical | film_scanner/frame_health_monitor.py:63-85 | with no frame in the window the status is critical for low frame rate 0 |
| HealthWindow.MeanBetweenMinAndMax | film_scanner/util/performance_monitor.py:139-147 | the mean of a non-empty sequence lies between its least and greatest element |
| HealthWindow.RecordKeepsSamples | film_scanner/frame_health_monitor.py:41-46 | an accepted frame keeps the samples increasing, spaced by 16 ms, bounded at 100 and 20, and every error a recorded or evicted frame |
| HealthWindow.ErrorRateAtMostOne | film_scanner/frame_health_monitor.py:68-72 | because errors are recorded with their frames, the error rate never exceeds 1 |
| HealthWindow.HealthOfSamples | film_scanner/util/performance_monitor.py:105-121 | on recorded samples the metrics are non-negative, the error rate at most 1, and the gap that of the unsorted window |
| FrameHealth.FrameHealthMonitor.constructor | film_scanner/frame_health_monitor.py:17-28 | empty deques, last frame time 0, empty message |
| FrameHealth.FrameHealthMonitor.RecordFrame | film_scanner/frame_health_monitor.py:30-46 | a frame 16 ms or more after the last is recorded, with its error, in the bounded deques; a sooner frame changes nothing |
| FrameHealth.FrameHealthMonitor.HealthStatus | film_scanner/frame_health_monitor.py:48-87 | the measured metrics in range and classified on the fixed thresholds |
| FrameHealth.FrameHealthMonitor.GetStatusMessage | film_scanner/frame_health_monitor.py:89-120 | the report of the current health, silent exactly when ok; a non-silent report is kept as the last message |
| Performance.FpsSampleBounds | film_scanner/util/performance_monitor.py:71-77 | a per-second frame-rate sample is positive and at most the frames counted |
| Performance.PerformanceMonitor.constructor | film_scanner/util/performance_monitor.py:18-45 | empty deques, zero counters, the frame-rate clock started at `now` |
| Performance.PerformanceMonitor.RecordFrame | film_scanner/util/performance_monitor.py:47-77 | a debounced frame is recorded with its error and processing time; after a second the rate is sampled and counting restarts; a sooner frame changes nothing |
| Performance.PerformanceMonitor.GetFps | film_scanner/util/performance_monitor.py:79-89 | the mean of the samples, between their least and greatest, or the current rate when there are none |
| Performance.PerformanceMonitor.HealthStatus | film_scanner/util/performance_monitor.py:91-130 | the windowed metrics in range and classified on this monitor's thresholds |
| Performance.PerformanceMonitor.ProcessingTimeStats | film_scanner/util/performance_monitor.py:132-147 | zeros when empty; otherwise recorded min and max that bound every time, and the mean between them |
| Performance.PerformanceMonitor.GetStatusMessage | film_scanner/util/performance_monitor.py:149-180 | the report of the current health, silent exactly when ok; a non-silent report is kept |
| Performance.PerformanceMonitor.Reset | film_scanner/util/performance_monitor.py:202-211 | every deque empty, counters zero, and the next frame at 16 ms or later is accepted |
| StateMachine.TableShape | film_scanner/control/state_manager.py:51-60 | no state targets itself, nothing returns to startup, shutdown is terminal, every other live state can reach error and live view |
| StateMachine.ShutdownAbsorbs | film_scanner/control/state_manager.py:59 | once shut down, no sequence of requests leaves shutdown |
| StateMachine.StartupOnlyAtStart | film_scanner/control/state_manager.py:51-60 | startup is reachable only by starting there |
| StateMachine.RemoveFromDistinct | film_scanner/control/state_manager.py:164-165 | removing a callback from a duplicate-free list leaves a duplicate-free list of the others |
| StateMachine.StateManager.constructor | film_scanner/control/state_manager.py:38-63 | the initial state, no previous state, empty context, no subscribers or handlers |
| StateMachine.StateManager.CanTransitionTo | film_scanner/control/state_manager.py:80-90 | true exactly when the target is in the current state's row |
| StateMachine.StateManager.TransitionTo | film_scanner/control/state_manager.py:92-130 | an invalid target returns false and changes nothing; a valid one moves previous and current, merges the updates into the context, then calls the pair's handlers in order before all subscribers |
| StateMachine.StateManager.Invoke | film_scanner/control/state_manager.py:115-128 | calls the callbacks in list order, each logged with the event, and every logged event is a table transition |
| StateMachine.StateManager.AddTransitionHandler | film_scanner/control/state_manager.py:132-145 | appends the handler to the list for its pair |
| StateMachine.StateManager.Subscribe | film_scanner/control/state_manager.py:147-155 | adds the callback only if absent |
| StateMachine.StateManager.Unsubscribe | film_scanner/control/state_manager.py:157-165 | removes the callback if present and keeps the others |
| StateMachine.StateManager.SetContextValue | film_scanner/control/state_manager.py:177-185 | stores the value, which a later get returns |
| StateMachine.StateManager.GetContextValue | film_scanner/control/state_manager.py:187-198 | the stored value, or the default for a missing key |
| Keyboard.DispatchedKey | film_scanner/control/keyboard_controller.py:67-78 | a one-character key dispatches its lowercase form, a longer key itself |
| Keyboard.BindKey | film_scanner/control/keyboard_controller.py:59-78 | the lowercase form of the key and, for a letter, its uppercase form are bound to the dispatched key, so registering "S" also binds "s"; earlier bindings remain |
| Keyboard.BindKeepsDispatchable | film_scanner/control/keyboard_controller.py:59-78 | binding keeps every bound key dispatching a key that is never a single uppercase letter |
| Keyboard.UpperCaseKeyNeverDispatched | film_scanner/control/keyboard_controller.py:69-102 | no binding ever dispatches a single uppercase letter, so a command stored under one is never found |
| Keyboard.WithStates | film_scanner/control/keyboard_controller.py:50-52 | one entry per listed state, overwriting, other entries untouched, nothing else added |
| Keyboard.Lookup | film_scanner/control/keyboard_controller.py:94-102 | a state command wins over a global one; with neither, nothing |
| Keyboard.KeyboardController.constructor | film_scanner/control/keyboard_controller.py:19-37 | no commands and no bindings |
| Keyboard.KeyboardController.RegisterCommand | film_scanner/control/keyboard_controller.py:39-57 | without states a global command, with states one entry per state, and the key is bound |
| Keyboard.KeyboardController.HandleKeyPress | film_scanner/control/keyboard_controller.py:80-106 | runs exactly the looked-up command, or nothing |
| Keyboard.KeyboardController.RegisterDefaultCommands | film_scanner/control/keyboard_controller.py:108-117 | every entry becomes a global command and is bound |
| Keyboard.KeyboardController.RegisterStateCommands | film_scanner/control/keyboard_controller.py:119-129 | every entry becomes a command for the state and is bound |
| Settings.Split | film_scanner/util/settings_manager.py:109 | the dotted key's parts contain no dot, and there is more than one exactly when the key has a dot |
| Settings.SplitJoin | film_scanner/util/settings_manager.py:109 | joining the parts with dots gives the key back |
| Settings.GetKey | film_scanner/util/settings_manager.py:97-120 | a get walks the parts through nested tables, falling back to the default |
| Settings.SetThenGet | film_scanner/util/settings_manager.py:109-145 | after a successful set, get returns the value set |
| Settings.SetLeavesOthers | film_scanner/util/settings_manager.py:131-145 | a set leaves every path that diverges from it unchanged |
| Settings.SetSucceedsIff | film_scanner/util/settings_manager.py:131-145 | a set succeeds exactly when every existing intermediate on the path is a table |
| Settings.GetPathMissing | film_scanner/util/settings_manager.py:110-117 | a missing first part makes any prefix of the path missing |
| Settings.SettingsManager.constructor | film_scanner/util/settings_manager.py:35-60 | the settings are a shallow copy of the defaults, sharing their tables |
| Settings.SettingsManager.Get | film_scanner/util/settings_manager.py:97-120 | the value at the dotted path, or the default |
| Settings.SettingsManager.Set | film_scanner/util/settings_manager.py:122-145 | succeeds exactly when the path is open; then get returns the value; writing into a shared table also writes the defaults; a failed set changes nothing |
| Settings.SettingsManager.GetAll | film_scanner/util/settings_manager.py:147-154 | the same keys and, for simple keys, the values get returns |
| Settings.SettingsManager.ResetToDefaults | film_scanner/util/settings_manager.py:156-158 | the settings become a shallow copy of the defaults again |
| Settings.StatusBarColorSurvivesReset | film_scanner/util/settings_manager.py:122-158 | with no settings file loaded, a nested ui value set before a reset is still there after it, because the ui table is shared with the defaults |
| ImageCache.PushFresh | film_scanner/image_processor.py:40-44 | inserting a new id keeps ids distinct and evicts exactly the first-inserted one when full |
| ImageCache.ImageProcessor.CacheBounded | film_scanner/image_processor.py:40-44 | the cache never holds more than 10 entries |
| ImageCache.ImageProcessor.InvertImage | film_scanner/image_processor.py:18-50 | a hit returns the cached image without reordering; a failed inversion returns the input and leaves the cache alone; a miss evicts the oldest when full and caches the result |
| ImageCache.ImageProcessor.ClearCache | film_scanner/image_processor.py:97-100 | the cache is empty |
| ImageCache.ScaleImageToFit | film_scanner/image_processor.py:53-95 | an image that fits, or has a zero side, is left unchanged; any other is left unchanged exactly when its truncated target size has a side under one pixel, and is otherwise resized to that size |
| ImageCache.NonPositiveBoundUnchanged | film_scanner/image_processor.py:74-95 | a bound of zero or less leaves every image unchanged |
| ImageCache.FlatImageUnchanged | film_scanner/image_processor.py:74-95 | 1000 x 5 into 100 x 100 would be 100 x 0, so the image is left unchanged |
| ImageCache.ResizedFits | film_scanner/image_processor.py:74-91 | a resized image has positive bounds, is at least one pixel on each side, fits the bounds, touches one of them and is never resampled with NEAREST |

## Left out

- Sockets, `recvfrom`, timeouts, the `running` flag and `shut_down` in both receivers: I/O. Only the per-packet step and the receive loop over a given sequence of datagrams are modelled.
- Locks and the thread safety of `queue.Queue`: the full/get/put race is a concurrency matter. Queues are bounded sequences that evict the oldest item.
- `LiveViewReceiver.JPEGandExtension` and `LiveViewFrame` come from the olympuswifi library, which is not part of this model. A queued frame is its bytes plus the last extension block.
- The RTP sequence number is read by the source but never used, so the model ignores it.
- The second receiver's `time.sleep` after an exception: timing only. The dropped datagram is modelled.
- Float renderings whose digits depend on rounding (aperture `v/100`, non-integer shutter ratios): kept symbolic as `Decimal`. Exact sub-cases are proved as text.
- HealthWindow.StatusReport: the message is a prefix and a cause datatype, not the formatted string. The numbers in the text are not rendered.
- `get_detailed_report` of the performance monitor: a dictionary assembled from the other getters for display.
- ImageCache.ImageProcessor.InvertImage: the PIL inversion and its exceptions are the `inversion` argument (None when it raises). Python `id()` is the `id` argument.
- ImageCache.ScaleImageToFit: computed on exact reals, not doubles. `int()` truncation and the resampling choice are modelled. The PIL resize is not; the model assumes only that it raises for a target side under one pixel, and the `except` then returns the image.
- Settings.SettingsManager.Set: one manager per defaults object is modelled. In the source every manager copies the same class-level defaults, so a dotted set into a shared table such as "ui" is also seen by every other manager; here the other managers' reads are not updated and their invariant no longer holds.
- Settings.SettingsManager.Set: no settings file is assumed to be loaded. `load_settings` replaces a table such as "ui" with the file's own, after which nothing is shared and a reset brings back the default value.
- File I/O in `load_settings`, `save_settings`, `expanduser`, `get_output_directory` and `set_output_directory`, and the file manager: disk and clock access.
- Settings values are strings, numbers, booleans and tables. Lists are not modelled because nothing in the core indexes into them.
- StateMachine.StateManager.TransitionTo: handlers and subscribers are logged, not executed. Re-entrant transitions from a handler and exceptions raised by callbacks are not modelled.
- Keyboard.LowerChar: only ASCII letters are case-mapped; Python's full Unicode `lower()` and `isalpha()` are not modelled.
- The Tk `bind` calls are modelled as a map from bound key to dispatched key. `enable_debug` and all debug `print` calls are output only.
- Camera managers, UI modules, scripts and tests: outside the stream decoder and the control tables.
