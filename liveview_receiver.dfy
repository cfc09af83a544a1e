/** The receiver of film_scanner/extended_liveview_receiver.py. It reads the
    same RTP stream as the camera receiver but differs in three places: the
    frame assembly state lives in the receive loop, the telemetry goes
    through the stateful RtpParser.RtpPacketParser, and the EOI check is made
    inside `_add_frame_to_queue`. Its packet decoding also differs: an
    extension-flagged datagram too short for the extension header raises and
    is dropped, and an extension block longer than the datagram is cut short
    instead of ignored. */
module LiveViewReceiver {
  import opened Bytes
  import opened Telemetry
  import opened Optional
  import opened RtpHeader
  import BoundedQueue
  import Feed
  import RtpParser
  import CR = CameraReceiver

  // ------------------------------------------------------------- packet decoding

  /** A datagram as the receive loop sees it. `Short` is skipped by the
      length check; `Malformed` raises in the extension-length unpack, which
      the loop catches; `Rtp` goes on with its extension block, if the X flag
      is set, and its payload. */
  datatype Packet =
    | Short
    | Malformed
    | Rtp(timestamp: nat, marker: bool, extension: Option<seq<Byte>>, payload: seq<Byte>)

  /** The header parse of the receive loop. The extension block is the next
      `4 * length + 4` bytes, or what remains of the datagram. */
  function DecodePacket(packet: seq<Byte>): (r: Packet)
    ensures r.Short? <==> |packet| < RtpHeaderSize
    ensures r.Malformed? <==> |packet| >= RtpHeaderSize && HasExtension(packet) && |packet| < RtpHeaderSize + 4
    ensures r.Rtp? ==>
      && r.timestamp == Timestamp(packet) && r.marker == Marker(packet)
      && (r.extension.Some? <==> HasExtension(packet))
      && packet == packet[..RtpHeaderSize] + r.extension.GetOr([]) + r.payload
    ensures r.Rtp? && r.extension.Some? ==>
      && |r.extension.value| >= 4
      && U16(r.extension.value, 2) == U16(packet, RtpHeaderSize + 2)
    ensures r.Rtp? && r.extension.Some? && RtpHeaderSize + 4 * U16(packet, RtpHeaderSize + 2) + 4 <= |packet| ==>
      |r.extension.value| == 4 * U16(packet, RtpHeaderSize + 2) + 4
    ensures r.Rtp? && r.extension.Some? && RtpHeaderSize + 4 * U16(packet, RtpHeaderSize + 2) + 4 > |packet| ==>
      r.payload == []
  {
    if |packet| < RtpHeaderSize then Short
    else if HasExtension(packet) then
      if |packet| < RtpHeaderSize + 4 then Malformed
      else
        var extLen := U16(packet, RtpHeaderSize + 2) * 4 + 4;
        var stop := if RtpHeaderSize + extLen <= |packet| then RtpHeaderSize + extLen else |packet|;
        var ext := packet[RtpHeaderSize..stop];
        assert packet == packet[..RtpHeaderSize] + ext + packet[stop..];
        Rtp(Timestamp(packet), Marker(packet), Some(ext), packet[stop..])
    else
      assert packet == packet[..RtpHeaderSize] + [] + packet[RtpHeaderSize..];
      Rtp(Timestamp(packet), Marker(packet), None, packet[RtpHeaderSize..])
  }

  /** Where the two receivers part: a datagram of 12 to 15 bytes with the X
      flag is dropped here, while the camera receiver ignores the flag and
      assembles everything after the fixed header. */
  lemma {:induction false} ShortExtensionPacketDropped(packet: seq<Byte>)
    requires RtpHeaderSize <= |packet| < RtpHeaderSize + 4 && HasExtension(packet)
    ensures DecodePacket(packet) == Malformed
    ensures CR.ExtensionBlock(packet) == None && CR.Payload(packet) == packet[RtpHeaderSize..]
  {
  }

  /** Where the two receivers read a datagram alike: without the X flag, or
      with an extension block that fits, it decodes to the camera receiver's
      extension block and payload. */
  lemma {:induction false} DecodeAgrees(packet: seq<Byte>)
    requires SameLayout(packet) && |packet| >= RtpHeaderSize
    ensures DecodePacket(packet) == Rtp(Timestamp(packet), Marker(packet), CR.ExtensionBlock(packet), CR.Payload(packet))
  {
  }

  /** A datagram both receivers split the same way: one the length check
      skips, one without the X flag, or one whose extension block fits. */
  predicate SameLayout(packet: seq<Byte>) {
    |packet| < RtpHeaderSize || !HasExtension(packet) || CR.ExtensionBlock(packet).Some?
  }

  // ------------------------------------------------------------- frame assembly

  /** A timestamp different from the current one hands on the buffer if a
      header was seen and it is non-empty, and starts an empty frame. */
  function StartFrame(a: CR.Assembly, timestamp: nat): (r: (CR.Assembly, seq<seq<Byte>>))
    ensures CR.Inv(a) ==> CR.Inv(r.0) && forall b :: b in r.1 ==> StartsWithSoi(b)
    ensures timestamp == a.currentFrameSeq ==> r == (a, [])
    ensures timestamp != a.currentFrameSeq ==> CR.Idle(r.0) && r.0.currentFrameSeq == timestamp && |r.1| <= 1
    ensures timestamp != a.currentFrameSeq ==>
      r.1 == (if a.hasJpegHeader && |a.frameData| > 0 then [a.frameData] else [])
    ensures CR.Inv(a) && timestamp != a.currentFrameSeq ==> (r.1 == [a.frameData] <==> a.hasJpegHeader)
  {
    if timestamp != a.currentFrameSeq then
      var handed := if a.hasJpegHeader && |a.frameData| > 0 then [a.frameData] else [];
      (CR.Assembly([], false, timestamp), handed)
    else (a, [])
  }

  /** The marker hands on the buffer whenever a header was seen, and goes idle. */
  function EndFrame(a: CR.Assembly, marker: bool): (r: (CR.Assembly, seq<seq<Byte>>))
    ensures CR.Inv(a) ==> CR.Inv(r.0) && forall b :: b in r.1 ==> StartsWithSoi(b)
    ensures r.0.currentFrameSeq == a.currentFrameSeq && |r.1| <= 1
    ensures !(marker && a.hasJpegHeader) ==> r == (a, [])
    ensures marker && a.hasJpegHeader ==> r.1 == [a.frameData]
    ensures CR.Inv(a) && marker ==> CR.Idle(r.0)
  {
    if marker && a.hasJpegHeader then (CR.Assembly([], false, a.currentFrameSeq), [a.frameData])
    else (a, [])
  }

  /** One datagram's effect on the loop's assembly variables, and the buffers
      it hands to `_add_frame_to_queue`. Appending the payload once the header
      flag is set is the camera receiver's TakePayload: that one skips an
      empty payload, which appends nothing. */
  function Assemble(a: CR.Assembly, timestamp: nat, marker: bool, payload: seq<Byte>): (r: (CR.Assembly, seq<seq<Byte>>))
    ensures CR.Inv(a) ==> CR.Inv(r.0) && forall b :: b in r.1 ==> StartsWithSoi(b)
    ensures r.0.currentFrameSeq == timestamp && |r.1| <= 2
  {
    var s1 := StartFrame(a, timestamp);
    var s3 := EndFrame(CR.TakePayload(s1.0, payload), marker);
    (s3.0, s1.1 + s3.1)
  }

  /** The buffers `_add_frame_to_queue` accepts: those ending with EOI. */
  function Complete(buffers: seq<seq<Byte>>): (r: seq<seq<Byte>>)
    ensures forall b :: b in r ==> EndsWithEoi(b) && b in buffers
    ensures forall b :: b in buffers && EndsWithEoi(b) ==> b in r
    ensures |r| <= |buffers|
  {
    if buffers == [] then []
    else (if EndsWithEoi(buffers[0]) then [buffers[0]] else []) + Complete(buffers[1..])
  }

  /** The two receivers assemble alike: from any state meeting the buffer
      invariant, one fragment leads both to the same state, and the frames
      this receiver enqueues are exactly those the camera receiver hands on.
      The EOI check moved into `_add_frame_to_queue`, and the emptiness check
      is implied by the invariant. */
  lemma {:induction false} VariantsAgree(a: CR.Assembly, timestamp: nat, marker: bool, payload: seq<Byte>)
    requires CR.Inv(a)
    ensures Assemble(a, timestamp, marker, payload).0 == CR.Assemble(a, timestamp, marker, payload).0
    ensures Complete(Assemble(a, timestamp, marker, payload).1) == CR.Assemble(a, timestamp, marker, payload).1
  {
    var s1 := StartFrame(a, timestamp);
    var c1 := CR.StartFrame(a, timestamp);
    assert s1.0 == c1.0 && Complete(s1.1) == c1.1;
    var t := CR.TakePayload(s1.0, payload);
    var s3 := EndFrame(t, marker);
    var c3 := CR.EndFrame(t, marker);
    assert s3.0 == c3.0 && Complete(s3.1) == c3.1;
    CompleteAppend(s1.1, s3.1);
  }

  lemma {:induction false} CompleteAppend(xs: seq<seq<Byte>>, ys: seq<seq<Byte>>)
    ensures Complete(xs + ys) == Complete(xs) + Complete(ys)
    decreases |xs|
  {
    if xs == [] {
      assert xs + ys == ys;
    } else {
      assert (xs + ys)[0] == xs[0] && (xs + ys)[1..] == xs[1..] + ys;
      CompleteAppend(xs[1..], ys);
    }
  }

  // ------------------------------------------------------------- the stream

  /** What one datagram asks of the receiver, in order: a telemetry block
      for `update_packet_data`, a buffer for `_add_frame_to_queue`. */
  datatype Event = Telemetry(block: seq<Byte>) | Handed(data: seq<Byte>)

  function HandedEvents(buffers: seq<seq<Byte>>): (r: seq<Event>)
    ensures |r| == |buffers| && forall i :: 0 <= i < |r| ==> r[i] == Handed(buffers[i])
  {
    seq(|buffers|, i requires 0 <= i < |buffers| => Handed(buffers[i]))
  }

  /** One datagram of the receive loop. The telemetry of a datagram whose
      timestamp differs from the current one goes first, before the frame it
      starts is assembled. */
  function Step(a: CR.Assembly, packet: seq<Byte>): (r: (CR.Assembly, seq<Event>))
    ensures CR.Inv(a) ==> CR.Inv(r.0)
    ensures !DecodePacket(packet).Rtp? ==> r == (a, [])
  {
    match DecodePacket(packet)
    case Rtp(timestamp, marker, extension, payload) =>
      var telemetry := if extension.Some? && timestamp != a.currentFrameSeq then [Telemetry(extension.value)] else [];
      var s := Assemble(a, timestamp, marker, payload);
      (s.0, telemetry + HandedEvents(s.1))
    case _ => (a, [])
  }

  /** The handed buffers among the events, in order. */
  function Buffers(events: seq<Event>): (r: seq<seq<Byte>>)
    ensures |r| <= |events|
    ensures forall b :: b in r ==> Handed(b) in events
    decreases |events|
  {
    if events == [] then []
    else (if events[0].Handed? then [events[0].data] else []) + Buffers(events[1..])
  }

  lemma {:induction false} BuffersAppend(xs: seq<Event>, ys: seq<Event>)
    ensures Buffers(xs + ys) == Buffers(xs) + Buffers(ys)
    decreases |xs|
  {
    if xs == [] {
      assert xs + ys == ys;
    } else {
      assert (xs + ys)[0] == xs[0] && (xs + ys)[1..] == xs[1..] + ys;
      BuffersAppend(xs[1..], ys);
    }
  }

  /** Reading the buffers back from handed events gives the buffers. */
  lemma {:induction false} BuffersOfHanded(buffers: seq<seq<Byte>>)
    ensures Buffers(HandedEvents(buffers)) == buffers
    decreases |buffers|
  {
    if buffers != [] {
      assert HandedEvents(buffers)[1..] == HandedEvents(buffers[1..]);
      BuffersOfHanded(buffers[1..]);
    }
  }

  /** The fragment the camera receiver assembles from a datagram. */
  function CameraFragment(p: seq<Byte>): (f: CR.Fragment)
    requires |p| >= RtpHeaderSize
    ensures p == p[..RtpHeaderSize] + CR.ExtensionBlock(p).GetOr([]) + f.payload
    ensures f.timestamp == Timestamp(p) && f.marker == Marker(p)
  {
    CR.Fragment(Timestamp(p), Marker(p), CR.Payload(p))
  }

  /** The fragments the camera receiver assembles from a stream of
      datagrams: one per datagram that passes the length check. */
  function CameraFragments(packets: seq<seq<Byte>>): (r: seq<CR.Fragment>)
    ensures |r| <= |packets|
    decreases |packets|
  {
    if packets == [] then []
    else
      var p := packets[0];
      (if |p| < RtpHeaderSize then [] else [CameraFragment(p)]) + CameraFragments(packets[1..])
  }

  /** One datagram split alike takes both receivers to the same state, and
      the buffers handed on here that end with EOI are the camera
      receiver's frames. */
  lemma {:induction false} PacketAgrees(a: CR.Assembly, p: seq<Byte>)
    requires CR.Inv(a) && SameLayout(p) && |p| >= RtpHeaderSize
    ensures Step(a, p).0 == CR.Step(a, CameraFragment(p)).0
    ensures Complete(Buffers(Step(a, p).1)) == CR.Step(a, CameraFragment(p)).1
  {
    var f := CameraFragment(p);
    var s := Assemble(a, f.timestamp, f.marker, f.payload);
    var telemetry := StepOfAgreeingPacket(a, p);
    BuffersSkipTelemetry(telemetry, s.1);
    VariantsAgree(a, f.timestamp, f.marker, f.payload);
    assert CR.Step(a, f) == CR.Assemble(a, f.timestamp, f.marker, f.payload);
  }

  /** On a datagram split alike, the step assembles the camera receiver's
      fragment, after at most a telemetry event. */
  lemma {:induction false} StepOfAgreeingPacket(a: CR.Assembly, p: seq<Byte>) returns (telemetry: seq<Event>)
    requires SameLayout(p) && |p| >= RtpHeaderSize
    ensures forall i :: 0 <= i < |telemetry| ==> telemetry[i].Telemetry?
    ensures var f := CameraFragment(p); var s := Assemble(a, f.timestamp, f.marker, f.payload);
      Step(a, p) == (s.0, telemetry + HandedEvents(s.1))
  {
    DecodeAgrees(p);
    var f := CameraFragment(p);
    telemetry := if CR.ExtensionBlock(p).Some? && f.timestamp != a.currentFrameSeq
                 then [Telemetry(CR.ExtensionBlock(p).value)] else [];
  }

  /** Telemetry events hand on nothing. */
  lemma {:induction false} BuffersSkipTelemetry(telemetry: seq<Event>, buffers: seq<seq<Byte>>)
    requires forall i :: 0 <= i < |telemetry| ==> telemetry[i].Telemetry?
    ensures Buffers(telemetry + HandedEvents(buffers)) == buffers
    decreases |telemetry|
  {
    if telemetry == [] {
      assert telemetry + HandedEvents(buffers) == HandedEvents(buffers);
      BuffersOfHanded(buffers);
    } else {
      var xs := telemetry + HandedEvents(buffers);
      assert xs[0] == telemetry[0] && xs[1..] == telemetry[1..] + HandedEvents(buffers);
      BuffersSkipTelemetry(telemetry[1..], buffers);
    }
  }

  /** The two receivers assemble a whole stream alike when they split every
      datagram alike: they end in the same state, and the buffers this one
      hands on that `_add_frame_to_queue` accepts are exactly the frames the
      camera receiver emits, in the same order. */
  lemma {:induction false} StreamsAgree(a: CR.Assembly, packets: seq<seq<Byte>>)
    requires CR.Inv(a)
    requires forall i :: 0 <= i < |packets| ==> SameLayout(packets[i])
    ensures Feed.Run(Step, a, packets).0 == Feed.Run(CR.Step, a, CameraFragments(packets)).0
    ensures Complete(Buffers(Feed.Run(Step, a, packets).1)) == Feed.Run(CR.Step, a, CameraFragments(packets)).1
    decreases |packets|
  {
    if packets != [] {
      var p := packets[0];
      var first := Step(a, p);
      StreamsAgree(first.0, packets[1..]);
      var rest := Feed.Run(Step, first.0, packets[1..]);
      assert Feed.Run(Step, a, packets) == (rest.0, first.1 + rest.1);
      BuffersAppend(first.1, rest.1);
      CompleteAppend(Buffers(first.1), Buffers(rest.1));
      var frags := CameraFragments(packets[1..]);
      var camRest := Feed.Run(CR.Step, first.0, frags);
      if |p| < RtpHeaderSize {
        assert first == (a, []);
        assert CameraFragments(packets) == frags;
      } else {
        var f := CameraFragment(p);
        PacketAgrees(a, p);
        var camFirst := CR.Step(a, f);
        assert CameraFragments(packets) == [f] + frags;
        assert ([f] + frags)[0] == f && ([f] + frags)[1..] == frags;
        assert Feed.Run(CR.Step, a, [f] + frags) == (camRest.0, camFirst.1 + camRest.1);
      }
    }
  }

  /** Every buffer handed on during a run from a state meeting the buffer
      invariant starts with SOI. */
  lemma {:induction false} RunHandsSoiBuffers(a: CR.Assembly, packets: seq<seq<Byte>>)
    requires CR.Inv(a)
    ensures CR.Inv(Feed.Run(Step, a, packets).0)
    ensures forall e :: e in Feed.Run(Step, a, packets).1 && e.Handed? ==> StartsWithSoi(e.data)
    decreases |packets|
  {
    if packets != [] {
      var first := Step(a, packets[0]);
      RunHandsSoiBuffers(first.0, packets[1..]);
      match DecodePacket(packets[0])
      case Rtp(timestamp, marker, extension, payload) =>
        var s := Assemble(a, timestamp, marker, payload);
        assert forall e :: e in HandedEvents(s.1) ==> e.data in s.1;
      case _ =>
    }
  }

  /** The receiver's observable state: the merged settings, the status
      queue (if there is one) and the image queue. */
  datatype Outputs = Outputs(settings: Settings, status: Option<seq<Settings>>, images: seq<seq<Byte>>,
                             remembered: RtpParser.Remembered)

  predicate Bounded(o: Outputs, imgCapacity: nat, statusCapacity: nat) {
    && 1 <= imgCapacity && |o.images| <= imgCapacity
    && 1 <= statusCapacity && (o.status.Some? ==> |o.status.value| <= statusCapacity)
  }

  /** `update_packet_data` for a telemetry event (an empty block does
      nothing), `_add_frame_to_queue` for a handed buffer (only a buffer
      ending with EOI is enqueued, drop-oldest). */
  function Deliver(o: Outputs, imgCapacity: nat, statusCapacity: nat, e: Event): (r: Outputs)
    requires Bounded(o, imgCapacity, statusCapacity)
    ensures Bounded(r, imgCapacity, statusCapacity)
    ensures e.Handed? ==> r.settings == o.settings && r.status == o.status && r.remembered == o.remembered
    ensures e.Handed? ==>
      r.images == if EndsWithEoi(e.data) then BoundedQueue.Newest(imgCapacity, o.images + [e.data]) else o.images
    ensures e.Telemetry? ==> r.images == o.images
    ensures e.Telemetry? && e.block == [] ==> r == o
    ensures e.Telemetry? && e.block != [] ==>
      && r.settings == Merge(o.settings, RtpParser.ExtensionSettings(e.block))
      && r.status == CR.Publish(o.status, statusCapacity, RtpParser.ExtensionSettings(e.block), r.settings)
      && r.remembered == RtpParser.Remember(o.remembered, RtpParser.ExtensionSettings(e.block))
  {
    match e
    case Telemetry(block) =>
      if block == [] then o
      else
        var parsed := RtpParser.ExtensionSettings(block);
        var merged := Merge(o.settings, parsed);
        Outputs(merged, CR.Publish(o.status, statusCapacity, parsed, merged), o.images,
                RtpParser.Remember(o.remembered, parsed))
    case Handed(data) =>
      if EndsWithEoi(data) then o.(images := BoundedQueue.Push(o.images, imgCapacity, data)) else o
  }

  function DeliverAll(o: Outputs, imgCapacity: nat, statusCapacity: nat, events: seq<Event>): (r: Outputs)
    requires Bounded(o, imgCapacity, statusCapacity)
    ensures Bounded(r, imgCapacity, statusCapacity)
    ensures events == [] ==> r == o
    decreases |events|
  {
    if events == [] then o else DeliverAll(Deliver(o, imgCapacity, statusCapacity, events[0]), imgCapacity, statusCapacity, events[1..])
  }

  /** Delivering two lists of events in turn is delivering their concatenation. */
  lemma {:induction false} DeliverAllAppend(o: Outputs, imgCapacity: nat, statusCapacity: nat, xs: seq<Event>, ys: seq<Event>)
    requires Bounded(o, imgCapacity, statusCapacity)
    ensures DeliverAll(o, imgCapacity, statusCapacity, xs + ys)
         == DeliverAll(DeliverAll(o, imgCapacity, statusCapacity, xs), imgCapacity, statusCapacity, ys)
    decreases |xs|
  {
    if xs == [] {
      assert xs + ys == ys;
    } else {
      assert (xs + ys)[0] == xs[0] && (xs + ys)[1..] == xs[1..] + ys;
      DeliverAllAppend(Deliver(o, imgCapacity, statusCapacity, xs[0]), imgCapacity, statusCapacity, xs[1..], ys);
    }
  }

  lemma {:induction false} DeliverOne(o: Outputs, imgCapacity: nat, statusCapacity: nat, e: Event)
    requires Bounded(o, imgCapacity, statusCapacity)
    ensures DeliverAll(o, imgCapacity, statusCapacity, [e]) == Deliver(o, imgCapacity, statusCapacity, e)
  {
    assert [e][1..] == [];
  }

  /** Only complete images reach the image queue, in the order they were
      handed on: with no telemetry in between, the queue after a run of
      buffers is the drop-oldest push of the complete ones. */
  lemma {:induction false} ImagesAreCompleteBuffers(o: Outputs, imgCapacity: nat, statusCapacity: nat, buffers: seq<seq<Byte>>)
    requires Bounded(o, imgCapacity, statusCapacity)
    ensures DeliverAll(o, imgCapacity, statusCapacity, HandedEvents(buffers)).images
         == BoundedQueue.PushAll(o.images, imgCapacity, Complete(buffers))
    decreases |buffers|
  {
    if buffers != [] {
      var events := HandedEvents(buffers);
      assert events[0] == Handed(buffers[0]) && events[1..] == HandedEvents(buffers[1..]);
      var o1 := Deliver(o, imgCapacity, statusCapacity, events[0]);
      ImagesAreCompleteBuffers(o1, imgCapacity, statusCapacity, buffers[1..]);
      if EndsWithEoi(buffers[0]) {
        assert Complete(buffers) == [buffers[0]] + Complete(buffers[1..]);
        assert ([buffers[0]] + Complete(buffers[1..]))[1..] == Complete(buffers[1..]);
      } else {
        assert Complete(buffers) == [] + Complete(buffers[1..]);
        assert [] + Complete(buffers[1..]) == Complete(buffers[1..]);
      }
    }
  }

  /** The receive loop's step: the run over one more datagram continues
      from where the run stopped, and so do the outputs. */
  lemma {:induction false} ReceiveOneMore(o: Outputs, imgCapacity: nat, statusCapacity: nat, packets: seq<seq<Byte>>, i: nat)
    requires Bounded(o, imgCapacity, statusCapacity) && i < |packets|
    ensures var before := Feed.Run(Step, CR.Initial, packets[..i]);
      && Feed.Run(Step, CR.Initial, packets[..i + 1]).0 == Step(before.0, packets[i]).0
      && DeliverAll(o, imgCapacity, statusCapacity, Feed.Run(Step, CR.Initial, packets[..i + 1]).1)
         == DeliverAll(DeliverAll(o, imgCapacity, statusCapacity, before.1), imgCapacity, statusCapacity, Step(before.0, packets[i]).1)
  {
    var before := Feed.Run(Step, CR.Initial, packets[..i]);
    assert packets[..i + 1] == packets[..i] + [packets[i]];
    Feed.RunSnoc(Step, CR.Initial, packets[..i], packets[i]);
    DeliverAllAppend(o, imgCapacity, statusCapacity, before.1, Step(before.0, packets[i]).1);
  }

  // ------------------------------------------------------------- the receiver

  class ExtendedLiveViewReceiver {
    const parser: RtpParser.RtpPacketParser
    var cameraSettings: Settings
    var imgQueue: seq<seq<Byte>>
    var statusQueue: Option<seq<Settings>>
    const imgCapacity: nat
    const statusCapacity: nat

    ghost function State(): Outputs
      reads this`cameraSettings, this`statusQueue, this`imgQueue, parser
    {
      Outputs(cameraSettings, statusQueue, imgQueue, parser.Fields())
    }

    ghost predicate Valid()
      reads this, parser
    {
      && Bounded(State(), imgCapacity, statusCapacity)
      && (forall i :: 0 <= i < |imgQueue| ==> EndsWithEoi(imgQueue[i]))
    }

    /** `__init__`: empty queues of the given capacities (the status queue
        optional), a fresh parser that remembers nothing, and no settings. */
    constructor (imgCapacity: nat, statusCapacity: nat, withStatusQueue: bool)
      requires 1 <= imgCapacity && 1 <= statusCapacity
      ensures Valid() && fresh(parser)
      ensures parser.shutterSpeed == None && parser.aperture == None && parser.iso == None
      ensures parser.exposureComp == None && parser.exposureWarning == None && parser.focusMode == None
      ensures State().remembered == RtpParser.Forgotten
      ensures cameraSettings == map[] && imgQueue == []
      ensures statusQueue == (if withStatusQueue then Some([]) else None)
    {
      this.imgCapacity := imgCapacity;
      this.statusCapacity := statusCapacity;
      parser := new RtpParser.RtpPacketParser();
      cameraSettings := map[];
      imgQueue := [];
      statusQueue := if withStatusQueue then Some([]) else None;
    }

    /** `update_packet_data`: empty input is a no-op; otherwise parse with
        the parser (which also remembers the fields it found), merge the
        truthy values and publish a copy of the merged settings. */
    method UpdatePacketData(data: seq<Byte>)
      requires Valid()
      modifies this`cameraSettings, this`statusQueue, parser
      ensures Valid()
      ensures State() == Deliver(old(State()), imgCapacity, statusCapacity, Telemetry(data))
      ensures data == [] ==> unchanged(parser)
      ensures data != [] ==>
        var parsed := RtpParser.ExtensionSettings(data);
        && parser.shutterSpeed == RtpParser.Refresh(old(parser.shutterSpeed), parsed, ShutterSpeedKey)
        && parser.aperture == RtpParser.Refresh(old(parser.aperture), parsed, ApertureKey)
        && parser.iso == RtpParser.Refresh(old(parser.iso), parsed, IsoKey)
        && parser.exposureComp == RtpParser.Refresh(old(parser.exposureComp), parsed, ExposureCompensationKey)
        && parser.exposureWarning == RtpParser.Refresh(old(parser.exposureWarning), parsed, ExposureWarningKey)
        && parser.focusMode == RtpParser.Refresh(old(parser.focusMode), parsed, FocusModeKey)
    {
      if data == [] {
        return;
      }
      var settings := parser.ParseExtensionHeader(data);
      cameraSettings := Merge(cameraSettings, settings);
      statusQueue := CR.Publish(statusQueue, statusCapacity, settings, cameraSettings);
    }

    /** `_add_frame_to_queue`: a buffer ending with EOI is pushed, evicting
        the oldest frame when the queue is full; any other is dropped. */
    method AddFrameToQueue(data: seq<Byte>)
      requires Valid()
      modifies this`imgQueue
      ensures Valid()
      ensures State() == Deliver(old(State()), imgCapacity, statusCapacity, Handed(data))
    {
      if |data| >= 2 && data[|data| - 2] == 0xFF && data[|data| - 1] == 0xD9 {
        imgQueue := BoundedQueue.Push(imgQueue, imgCapacity, data);
      }
    }

    /** `get_latest_camera_settings`: a copy of the merged telemetry. */
    method GetLatestCameraSettings() returns (settings: Settings)
      ensures settings == cameraSettings
    {
      settings := cameraSettings;
    }

    /** Hands on zero or one buffer. */
    method HandOn(buffers: seq<seq<Byte>>)
      requires Valid() && |buffers| <= 1
      modifies this`imgQueue
      ensures Valid()
      ensures State() == DeliverAll(old(State()), imgCapacity, statusCapacity, HandedEvents(buffers))
    {
      var events := HandedEvents(buffers);
      if |buffers| == 1 {
        AddFrameToQueue(buffers[0]);
        assert events == [Handed(buffers[0])];
        DeliverOne(old(State()), imgCapacity, statusCapacity, Handed(buffers[0]));
      }
    }

    /** The frame part of one loop iteration, on the loop's assembly variables. */
    method AssembleDatagram(a: CR.Assembly, timestamp: nat, marker: bool, payload: seq<Byte>) returns (r: CR.Assembly)
      requires Valid()
      modifies this`imgQueue
      ensures Valid()
      ensures r == Assemble(a, timestamp, marker, payload).0
      ensures State() == DeliverAll(old(State()), imgCapacity, statusCapacity, HandedEvents(Assemble(a, timestamp, marker, payload).1))
    {
      var frameData := a.frameData;
      var hasJpegHeader := a.hasJpegHeader;
      var currentFrameSeq := a.currentFrameSeq;
      var s1 := StartFrame(a, timestamp);
      if timestamp != currentFrameSeq {
        HandOn(s1.1);
        frameData := [];
        hasJpegHeader := false;
        currentFrameSeq := timestamp;
      } else {
        assert s1.1 == [];
      }
      ghost var mid := State();
      if |payload| >= 2 && payload[0] == 0xFF && payload[1] == 0xD8 {
        hasJpegHeader := true;
      }
      if hasJpegHeader {
        frameData := frameData + payload;
      }
      var t := CR.Assembly(frameData, hasJpegHeader, currentFrameSeq);
      assert t == CR.TakePayload(s1.0, payload);
      var s3 := EndFrame(t, marker);
      if marker && hasJpegHeader {
        HandOn(s3.1);
        frameData := [];
        hasJpegHeader := false;
      } else {
        assert s3.1 == [];
      }
      r := CR.Assembly(frameData, hasJpegHeader, currentFrameSeq);
      assert HandedEvents(s1.1 + s3.1) == HandedEvents(s1.1) + HandedEvents(s3.1);
      DeliverAllAppend(old(State()), imgCapacity, statusCapacity, HandedEvents(s1.1), HandedEvents(s3.1));
    }

    /** One iteration of the receive loop on a datagram, with the loop's
        assembly variables passed in and returned. */
    method ReceiveDatagram(packet: seq<Byte>, a: CR.Assembly) returns (r: CR.Assembly)
      requires Valid()
      modifies this`cameraSettings, this`statusQueue, this`imgQueue, parser
      ensures Valid()
      ensures r == Step(a, packet).0
      ensures State() == DeliverAll(old(State()), imgCapacity, statusCapacity, Step(a, packet).1)
    {
      var d := DecodePacket(packet);
      if !d.Rtp? {
        return a;
      }
      var telemetry: seq<Event> := [];
      if d.extension.Some? && d.timestamp != a.currentFrameSeq {
        UpdatePacketData(d.extension.value);
        telemetry := [Telemetry(d.extension.value)];
        DeliverOne(old(State()), imgCapacity, statusCapacity, telemetry[0]);
      }
      ghost var mid := State();
      r := AssembleDatagram(a, d.timestamp, d.marker, d.payload);
      DeliverAllAppend(old(State()), imgCapacity, statusCapacity, telemetry,
                       HandedEvents(Assemble(a, d.timestamp, d.marker, d.payload).1));
    }

    /** `receive_packets`: the datagrams the socket yields until shutdown,
        given as a sequence, fed in order to the loop body. The assembly
        variables start as in the source (empty, no header, timestamp -1). */
    method ReceivePackets(packets: seq<seq<Byte>>)
      requires Valid()
      modifies this`cameraSettings, this`statusQueue, this`imgQueue, parser
      ensures Valid()
      ensures State() == DeliverAll(old(State()), imgCapacity, statusCapacity, Feed.Run(Step, CR.Initial, packets).1)
    {
      var a := CR.Initial;
      var i := 0;
      while i < |packets|
        invariant 0 <= i <= |packets| && Valid()
        invariant a == Feed.Run(Step, CR.Initial, packets[..i]).0
        invariant State() == DeliverAll(old(State()), imgCapacity, statusCapacity, Feed.Run(Step, CR.Initial, packets[..i]).1)
      {
        ReceiveOneMore(old(State()), imgCapacity, statusCapacity, packets, i);
        a := ReceiveDatagram(packets[i], a);
        i := i + 1;
      }
      assert packets[..i] == packets;
    }
  }
}
