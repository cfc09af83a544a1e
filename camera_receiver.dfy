/** The live-view receiver of film_scanner/camera/extended_liveview_receiver.py:
    RTP header decode, the vendor telemetry walk `_parse_extension_data`, the
    per-packet JPEG reassembly `_process_packet`, the sticky telemetry merge
    `update_packet_data` and the drop-oldest image queue `_add_frame_to_queue`.
    The socket loop around `_process_packet` is not modelled: each received
    datagram is one call of ProcessPacket. */
module CameraReceiver {
  import opened Bytes
  import opened Telemetry
  import opened Optional
  import opened RtpHeader
  import BoundedQueue
  import Feed

  // ------------------------------------------------------------- telemetry walk

  const FuncIdOrientation: nat := 4
  const FuncIdShutter: nat := 8
  const FuncIdAperture: nat := 9
  const FuncIdExposureCompensation: nat := 10
  const FuncIdIso: nat := 12

  /** The exposure-compensation text for zero, as the source spells it
      (a UTF-8 "±" read as Latin-1: the two characters U+00C2 U+00B1). */
  const ZeroCompensation: string := "\U{00C2}\U{00B1}0.0"

  /** `f"F{f_value/100:.1f}"`; exact (a Text) when f is a whole number of tenths. */
  function ApertureValue(f: nat): (v: Value)
    ensures Truthy(v)
    ensures f % 10 == 0 ==> v.Text? && |v.s| > 1 && v.s[0] == 'F' && ParseTenths(v.s[1..]) * 10 == f
    ensures f % 10 != 0 ==> v == Decimal("F", f, 100, 1, "")
  {
    if f % 10 == 0 then
      TenthsRoundTrip(f / 10);
      assert ("F" + Tenths(f / 10))[1..] == Tenths(f / 10);
      Text("F" + Tenths(f / 10))
    else Decimal("F", f, 100, 1, "")
  }

  /** The shutter-speed value for numerator/denominator, both positive. */
  function ShutterValue(num: nat, den: nat): (v: Value)
    requires num > 0 && den > 0
    ensures Truthy(v)
    ensures num > den && den == 1 ==> v == Text(NatToString(num) + "\"")
    ensures num <= den && den % num == 0 ==> v == Text("1/" + NatToString(den / num) + "\"")
    ensures num > den > 1 ==> v == Decimal("", num, den, 1, "\"")
    ensures num <= den && den % num != 0 ==> v == Decimal("1/", den, num, 0, "\"")
  {
    if num > den then
      if den == 1 then Text(NatToString(num) + "\"") else Decimal("", num, den, 1, "\"")
    else
      if den % num == 0 then Text("1/" + NatToString(den / num) + "\"") else Decimal("1/", den, num, 0, "\"")
  }

  /** The aperture field: a 32-bit F-number times 100 at payload bytes 4..7. */
  function ApertureEntry(ext: seq<Byte>, idx: nat): (r: Settings)
    requires idx + 8 <= |ext|
    ensures ApertureKey in r <==> U32(ext, idx + 4) > 0
    ensures r.Keys <= {ApertureKey}
  {
    var f := U32(ext, idx + 4);
    if f > 0 then map[ApertureKey := ApertureValue(f)] else map[]
  }

  /** The shutter field: numerator and denominator at payload bytes 0..7. */
  function ShutterEntry(ext: seq<Byte>, idx: nat): (r: Settings)
    requires idx + 8 <= |ext|
    ensures ShutterSpeedKey in r <==> U32(ext, idx) > 0 && U32(ext, idx + 4) > 0
    ensures r.Keys <= {ShutterSpeedKey}
  {
    var num, den := U32(ext, idx), U32(ext, idx + 4);
    if num > 0 && den > 0 then map[ShutterSpeedKey := ShutterValue(num, den)] else map[]
  }

  /** The ISO field: the value at bytes 0..3, the auto flag at bytes 4..5. */
  function IsoEntry(ext: seq<Byte>, idx: nat): (r: Settings)
    requires idx + 8 <= |ext|
    ensures IsoKey in r <==> U32(ext, idx) > 0
    ensures r.Keys <= {IsoKey}
    ensures IsoKey in r ==>
      var prefix := if U16(ext, idx + 4) != 0 then "ISO-A " else "ISO ";
      && r[IsoKey].Text? && |r[IsoKey].s| > |prefix| && r[IsoKey].s[..|prefix|] == prefix
      && ParseDigits(r[IsoKey].s[|prefix|..]) == U32(ext, idx)
  {
    var iso := U32(ext, idx);
    var prefix := if U16(ext, idx + 4) != 0 then "ISO-A " else "ISO ";
    if iso > 0 then
      var text := prefix + NatToString(iso);
      assert text[..|prefix|] == prefix && text[|prefix|..] == NatToString(iso);
      ParseNatToString(iso);
      map[IsoKey := Text(text)]
    else map[]
  }

  /** The exposure-compensation field: a signed count of tenths at bytes 4..7;
      zero has its own text, so the key is always present. */
  function ExposureCompensationEntry(ext: seq<Byte>, idx: nat): (r: Settings)
    requires idx + 8 <= |ext|
    ensures r.Keys == {ExposureCompensationKey}
    ensures r[ExposureCompensationKey] == Text(ZeroCompensation) <==> I32(ext, idx + 4) == 0
    ensures I32(ext, idx + 4) > 0 ==>
      var v := r[ExposureCompensationKey];
      v.Text? && |v.s| > 1 && v.s[0] == '+' && ParseTenths(v.s[1..]) == I32(ext, idx + 4)
    ensures I32(ext, idx + 4) < 0 ==>
      var v := r[ExposureCompensationKey];
      v.Text? && |v.s| > 1 && v.s[0] == '-' && ParseTenths(v.s) == I32(ext, idx + 4)
  {
    var e := I32(ext, idx + 4);
    if e != 0 then
      var text := (if e > 0 then "+" else "") + Tenths(e);
      TenthsRoundTrip(e);
      assert e > 0 ==> text[1..] == Tenths(e);
      assert e < 0 ==> text == Tenths(e);
      assert text[0] != ZeroCompensation[0];
      map[ExposureCompensationKey := Text(text)]
    else map[ExposureCompensationKey := Text(ZeroCompensation)]
  }

  /** The orientation field: byte 3 of the payload, kept only if it is one of
      the four EXIF rotations 1, 3, 6, 8. */
  function OrientationEntry(ext: seq<Byte>, idx: nat): (r: Settings)
    requires idx + 4 <= |ext|
    ensures OrientationKey in r <==> ext[idx + 3] in {1, 3, 6, 8}
    ensures OrientationKey in r ==> r[OrientationKey] == Int(ext[idx + 3])
    ensures r.Keys <= {OrientationKey}
  {
    var o := ext[idx + 3];
    if o in {1, 3, 6, 8} then map[OrientationKey := Int(o)] else map[]
  }

  /** The settings one field contributes; `idx` is the offset of the field's
      payload, just after its 4-byte function-id/length header. Each decoder
      runs only if the 8 (orientation: 4) bytes it reads lie in the buffer. */
  function FieldEntries(funcId: nat, ext: seq<Byte>, idx: nat): (r: Settings)
  {
    if funcId == FuncIdAperture && idx + 8 <= |ext| then ApertureEntry(ext, idx)
    else if funcId == FuncIdShutter && idx + 8 <= |ext| then ShutterEntry(ext, idx)
    else if funcId == FuncIdIso && idx + 8 <= |ext| then IsoEntry(ext, idx)
    else if funcId == FuncIdExposureCompensation && idx + 8 <= |ext| then ExposureCompensationEntry(ext, idx)
    else if funcId == FuncIdOrientation && idx + 4 <= |ext| then OrientationEntry(ext, idx)
    else map[]
  }

  /** The keys the camera-side walk can ever produce. */
  const CameraKeys: set<string> :=
    {ApertureKey, ShutterSpeedKey, IsoKey, ExposureCompensationKey, OrientationKey}

  /** Which key each function id yields, exactly when, and that its value is truthy. */
  lemma {:induction false} FieldEntriesDecodes(funcId: nat, ext: seq<Byte>, idx: nat)
    ensures var r := FieldEntries(funcId, ext, idx);
      && (funcId == FuncIdAperture ==>
            (ApertureKey in r <==> idx + 8 <= |ext| && U32(ext, idx + 4) > 0))
      && (funcId == FuncIdShutter ==>
            (ShutterSpeedKey in r <==> idx + 8 <= |ext| && U32(ext, idx) > 0 && U32(ext, idx + 4) > 0))
      && (funcId == FuncIdIso ==>
            (IsoKey in r <==> idx + 8 <= |ext| && U32(ext, idx) > 0))
      && (funcId == FuncIdExposureCompensation ==>
            (ExposureCompensationKey in r <==> idx + 8 <= |ext|))
      && (funcId == FuncIdOrientation ==>
            (OrientationKey in r <==> idx + 4 <= |ext| && ext[idx + 3] in {1, 3, 6, 8}))
      && (funcId !in {FuncIdOrientation, FuncIdShutter, FuncIdAperture, FuncIdExposureCompensation, FuncIdIso} ==> r == map[])
  {
  }

  /** A field yields at most one entry, under one of the five camera keys, with a truthy value. */
  lemma {:induction false} FieldEntriesShape(funcId: nat, ext: seq<Byte>, idx: nat)
    ensures var r := FieldEntries(funcId, ext, idx);
      r.Keys <= CameraKeys && |r.Keys| <= 1 && forall k :: k in r ==> Truthy(r[k])
  {
  }

  /** The TLV walk from offset idx with the settings found so far: read a
      function id and a length in 32-bit words, stop if the field would
      overrun the buffer, decode it, and skip 4 + 4 * length bytes. */
  function Walk(ext: seq<Byte>, idx: nat, acc: Settings): Settings
    decreases |ext| - idx
  {
    if idx + 4 > |ext| then acc
    else
      var funcId := U16(ext, idx);
      var fieldLength := 4 * U16(ext, idx + 2);
      if idx + 4 + fieldLength > |ext| then acc
      else Walk(ext, idx + 4 + fieldLength, acc + FieldEntries(funcId, ext, idx + 4))
  }

  /** One step of the walk from a position where a field header fits. */
  lemma {:induction false} WalkStep(ext: seq<Byte>, idx: nat, acc: Settings, funcId: nat, fieldLength: nat)
    requires idx + 4 <= |ext| && funcId == U16(ext, idx) && fieldLength == 4 * U16(ext, idx + 2)
    ensures idx + 4 + fieldLength > |ext| ==> Walk(ext, idx, acc) == acc
    ensures idx + 4 + fieldLength <= |ext| ==>
      Walk(ext, idx, acc) == Walk(ext, idx + 4 + fieldLength, acc + FieldEntries(funcId, ext, idx + 4))
  {
  }

  /** What `_parse_extension_data` returns: the walk from offset 0. */
  function ExtensionSettings(ext: seq<Byte>): Settings {
    Walk(ext, 0, map[])
  }

  /** `_parse_extension_data`: the while loop over `idx`. */
  method ParseExtensionData(ext: seq<Byte>) returns (settings: Settings)
    ensures settings == ExtensionSettings(ext)
    ensures settings.Keys <= CameraKeys
    ensures forall k :: k in settings ==> Truthy(settings[k])
  {
    settings := map[];
    var idx: nat := 0;
    ghost var total := ExtensionSettings(ext);
    while idx + 4 <= |ext|
      invariant Walk(ext, idx, settings) == total
      decreases |ext| - idx
    {
      var funcId := U16(ext, idx);
      var length := U16(ext, idx + 2);
      var fieldLength := 4 * length;
      WalkStep(ext, idx, settings, funcId, fieldLength);
      idx := idx + 4;
      if idx + fieldLength > |ext| {
        break;
      }
      settings := settings + FieldEntries(funcId, ext, idx);
      idx := idx + fieldLength;
    }
    WalkKeys(ext, 0, map[]);
  }

  /** Every decoded value is truthy and every key is one of the five camera keys. */
  lemma {:induction false} WalkKeys(ext: seq<Byte>, idx: nat, acc: Settings)
    requires acc.Keys <= CameraKeys && forall k :: k in acc ==> Truthy(acc[k])
    ensures Walk(ext, idx, acc).Keys <= CameraKeys
    ensures forall k :: k in Walk(ext, idx, acc) ==> Truthy(Walk(ext, idx, acc)[k])
    decreases |ext| - idx
  {
    if idx + 4 <= |ext| {
      var funcId := U16(ext, idx);
      var fieldLength := 4 * U16(ext, idx + 2);
      if idx + 4 + fieldLength <= |ext| {
        FieldEntriesShape(funcId, ext, idx + 4);
        WalkKeys(ext, idx + 4 + fieldLength, acc + FieldEntries(funcId, ext, idx + 4));
      }
    }
  }

  /** The receiver hands the parser the whole extension block, 4-byte header
      included, and the walk starts at offset 0: its first "field" is the
      profile word with the block's own length, which spans the rest of the
      block. So the block decodes as one field whose id is the profile word,
      and every inner field is skipped. */
  lemma {:induction false} WholeBlockIsOneField(ext: seq<Byte>)
    requires |ext| >= 4 && |ext| == 4 + 4 * U16(ext, 2)
    ensures ExtensionSettings(ext) == FieldEntries(U16(ext, 0), ext, 4)
  {
    var first := FieldEntries(U16(ext, 0), ext, 4);
    assert map[] + first == first;
    assert Walk(ext, |ext|, first) == first;
  }

  /** Hence a block whose profile word is not one of the five function ids
      yields no settings at all. */
  lemma {:induction false} UnknownProfileYieldsNothing(ext: seq<Byte>)
    requires |ext| >= 4 && |ext| == 4 + 4 * U16(ext, 2)
    requires U16(ext, 0) !in {FuncIdOrientation, FuncIdShutter, FuncIdAperture, FuncIdExposureCompensation, FuncIdIso}
    ensures ExtensionSettings(ext) == map[]
  {
    WholeBlockIsOneField(ext);
  }

  // ------------------------------------------------------------- RTP packet layout

  /** The extension block (header included) when the X flag is set and both
      the 4-byte extension header and the `4 * length + 4` byte block fit;
      otherwise none and the payload starts right after the fixed header. */
  function ExtensionBlock(packet: seq<Byte>): (r: Option<seq<Byte>>)
    requires |packet| >= RtpHeaderSize
    ensures r.Some? <==> HasExtension(packet) && RtpHeaderSize + 4 <= |packet|
                         && RtpHeaderSize + 4 * U16(packet, 14) + 4 <= |packet|
    ensures r.Some? ==> |r.value| == 4 * U16(packet, 14) + 4 && |r.value| >= 4
                        && r.value == packet[RtpHeaderSize..RtpHeaderSize + |r.value|]
  {
    if HasExtension(packet) && RtpHeaderSize + 4 <= |packet| then
      var extLen := U16(packet, RtpHeaderSize + 2) * 4 + 4;
      if RtpHeaderSize + extLen <= |packet| then Some(packet[RtpHeaderSize..RtpHeaderSize + extLen])
      else None
    else None
  }

  /** The JPEG fragment: everything after the fixed header and the extension block. */
  function Payload(packet: seq<Byte>): (p: seq<Byte>)
    requires |packet| >= RtpHeaderSize
    ensures var block := ExtensionBlock(packet);
      packet == packet[..RtpHeaderSize] + (if block.Some? then block.value else []) + p
  {
    var block := ExtensionBlock(packet);
    var start := RtpHeaderSize + (if block.Some? then |block.value| else 0);
    packet[start..]
  }

  // ------------------------------------------------------------- frame assembly

  /** The three assembly fields of the receiver. */
  datatype Assembly = Assembly(frameData: seq<Byte>, hasJpegHeader: bool, currentFrameSeq: int)

  /** The state after construction: no buffer, no header, timestamp -1 (never
      equal to a 32-bit timestamp, so the first packet always opens a frame). */
  const Initial: Assembly := Assembly([], false, -1)

  /** The buffer invariant: empty unless a header was seen, and then it starts
      with the JPEG SOI marker. */
  ghost predicate Inv(a: Assembly) {
    (!a.hasJpegHeader ==> a.frameData == []) && (a.hasJpegHeader ==> StartsWithSoi(a.frameData))
  }

  /** The idle state between frames: empty buffer, no header. */
  ghost predicate Idle(a: Assembly) {
    a.frameData == [] && !a.hasJpegHeader
  }

  /** A timestamp different from the current one starts a new frame: the
      buffer is handed on if a header was seen and it ends with EOI, and is
      dropped either way. The same timestamp changes nothing. */
  function StartFrame(a: Assembly, timestamp: nat): (r: (Assembly, seq<seq<Byte>>))
    ensures Inv(a) ==> Inv(r.0) && forall f :: f in r.1 ==> IsJpeg(f)
    ensures timestamp == a.currentFrameSeq ==> r == (a, [])
    ensures timestamp != a.currentFrameSeq ==>
      && r.0 == Assembly([], false, timestamp)
      && r.1 == (if a.hasJpegHeader && EndsWithEoi(a.frameData) then [a.frameData] else [])
  {
    if timestamp != a.currentFrameSeq then
      var flushed := if a.hasJpegHeader && |a.frameData| > 0 && EndsWithEoi(a.frameData) then [a.frameData] else [];
      (Assembly([], false, timestamp), flushed)
    else (a, [])
  }

  /** A payload starting with SOI sets the header flag; once it is set, every
      non-empty payload is appended. */
  function TakePayload(a: Assembly, payload: seq<Byte>): (r: Assembly)
    ensures Inv(a) ==> Inv(r)
    ensures r.currentFrameSeq == a.currentFrameSeq
    ensures r.hasJpegHeader <==> a.hasJpegHeader || StartsWithSoi(payload)
    ensures r.frameData == if r.hasJpegHeader then a.frameData + payload else a.frameData
  {
    var flag := a.hasJpegHeader || StartsWithSoi(payload);
    var data := if flag && payload != [] then a.frameData + payload else a.frameData;
    Assembly(data, flag, a.currentFrameSeq)
  }

  /** The marker closes the current frame: the buffer is handed on if it ends
      with EOI, and the assembler goes idle. */
  function EndFrame(a: Assembly, marker: bool): (r: (Assembly, seq<seq<Byte>>))
    ensures Inv(a) ==> Inv(r.0) && forall f :: f in r.1 ==> IsJpeg(f)
    ensures r.0.currentFrameSeq == a.currentFrameSeq
    ensures !marker ==> r == (a, [])
    ensures Inv(a) && marker ==> Idle(r.0) && r.1 == (if a.hasJpegHeader && EndsWithEoi(a.frameData) then [a.frameData] else [])
  {
    if marker && a.hasJpegHeader && |a.frameData| > 0 then
      (Assembly([], false, a.currentFrameSeq), if EndsWithEoi(a.frameData) then [a.frameData] else [])
    else (a, [])
  }

  /** One packet's effect on the assembly fields, and the buffers it hands to
      `_add_frame_to_queue` in order: the previous frame at a timestamp change
      and the current one on a marker. */
  function Assemble(a: Assembly, timestamp: nat, marker: bool, payload: seq<Byte>): (r: (Assembly, seq<seq<Byte>>))
    ensures Inv(a) ==> Inv(r.0) && forall f :: f in r.1 ==> IsJpeg(f)
    ensures r.0.currentFrameSeq == timestamp
    ensures |r.1| <= 2
    ensures Inv(a) && marker ==> Idle(r.0)
  {
    var s1 := StartFrame(a, timestamp);
    var s3 := EndFrame(TakePayload(s1.0, payload), marker);
    (s3.0, s1.1 + s3.1)
  }

  /** A fragment that does not begin with SOI, arriving before any SOI of its
      frame, contributes no bytes. */
  lemma {:induction false} NoBytesBeforeSoi(a: Assembly, timestamp: nat, marker: bool, payload: seq<Byte>)
    requires Inv(a) && !StartsWithSoi(payload)
    requires !a.hasJpegHeader || timestamp != a.currentFrameSeq
    ensures Assemble(a, timestamp, marker, payload).0.frameData == []
    ensures !Assemble(a, timestamp, marker, payload).0.hasJpegHeader
  {
  }

  /** A buffer without EOI is dropped at the next timestamp: nothing is handed
      on, and the new frame starts empty. */
  lemma {:induction false} IncompleteFrameDiscarded(a: Assembly, timestamp: nat, marker: bool, payload: seq<Byte>)
    requires Inv(a) && !EndsWithEoi(a.frameData) && timestamp != a.currentFrameSeq
    requires !StartsWithSoi(payload)
    ensures Assemble(a, timestamp, marker, payload) == (Assembly([], false, timestamp), [])
  {
  }

  /** A packet as the assembler sees it. */
  datatype Fragment = Fragment(timestamp: nat, marker: bool, payload: seq<Byte>)

  /** One fragment's step, as a function of the state and the fragment. */
  function Step(a: Assembly, f: Fragment): (r: (Assembly, seq<seq<Byte>>))
    ensures Inv(a) ==> Inv(r.0) && forall b :: b in r.1 ==> IsJpeg(b)
  {
    Assemble(a, f.timestamp, f.marker, f.payload)
  }

  /** Invariant preservation over any run, and the consequence for what is delivered. */
  lemma {:induction false} RunDeliversOnlyJpegs(a: Assembly, frags: seq<Fragment>)
    requires Inv(a)
    ensures Inv(Feed.Run(Step, a, frags).0)
    ensures forall f :: f in Feed.Run(Step, a, frags).1 ==> IsJpeg(f)
    decreases |frags|
  {
    if frags != [] {
      var step := Assemble(a, frags[0].timestamp, frags[0].marker, frags[0].payload);
      RunDeliversOnlyJpegs(step.0, frags[1..]);
    }
  }

  function Concat(frags: seq<Fragment>): seq<Byte>
    decreases |frags|
  {
    if frags == [] then [] else frags[0].payload + Concat(frags[1..])
  }

  /** One well-formed frame: every fragment carries the frame's timestamp,
      only the last one carries the marker, the first holds at least the two
      SOI bytes, and the fragments together form SOI ... EOI. */
  ghost predicate WellFormedFrame(frags: seq<Fragment>) {
    |frags| >= 1 && |frags[0].payload| >= 2 && IsJpeg(Concat(frags))
    && (forall i :: 0 <= i < |frags| ==> frags[i].timestamp == frags[0].timestamp)
    && (forall i :: 0 <= i < |frags| ==> (frags[i].marker <==> i == |frags| - 1))
  }

  /** One fragment inside a frame whose header was seen: its bytes are
      appended, and a marker hands the frame on and goes idle. */
  lemma {:induction false} AssembleInFrame(data: seq<Byte>, ts: nat, marker: bool, payload: seq<Byte>)
    requires |data| > 0
    ensures !marker ==> Assemble(Assembly(data, true, ts), ts, marker, payload) == (Assembly(data + payload, true, ts), [])
    ensures marker ==> Assemble(Assembly(data, true, ts), ts, marker, payload)
                       == (Assembly([], false, ts), if EndsWithEoi(data + payload) then [data + payload] else [])
  {
    var a0 := Assembly(data, true, ts);
    assert StartFrame(a0, ts) == (a0, []);
    assert payload == [] ==> data + payload == data;
    assert TakePayload(a0, payload) == Assembly(data + payload, true, ts);
    assert [] + [data + payload] == [data + payload];
  }

  /** The marked last fragment of a frame whose header was seen hands on
      the whole buffer and leaves the assembler idle. */
  lemma {:induction false} LastFragment(data: seq<Byte>, ts: nat, frags: seq<Fragment>)
    requires |data| > 0 && |frags| == 1 && frags[0].timestamp == ts && frags[0].marker
    requires EndsWithEoi(data + Concat(frags))
    ensures Feed.Run(Step, Assembly(data, true, ts), frags) == (Assembly([], false, ts), [data + Concat(frags)])
  {
    var f := frags[0];
    assert Concat(frags) == f.payload by {
      assert frags[1..] == [] && Concat(frags[1..]) == [];
      assert f.payload + [] == f.payload;
    }
    AssembleInFrame(data, ts, f.marker, f.payload);
    var step := Assemble(Assembly(data, true, ts), ts, f.marker, f.payload);
    assert Feed.Run(Step, step.0, frags[1..]) == (step.0, []);
    assert step.1 + [] == step.1;
  }

  /** An unmarked fragment of a frame whose header was seen is appended and
      hands nothing on: the run goes on from the longer buffer. */
  lemma {:induction false} InnerFragment(data: seq<Byte>, ts: nat, frags: seq<Fragment>)
    requires |data| > 0 && |frags| >= 1 && frags[0].timestamp == ts && !frags[0].marker
    ensures Feed.Run(Step, Assembly(data, true, ts), frags) == Feed.Run(Step, Assembly(data + frags[0].payload, true, ts), frags[1..])
  {
    AssembleInFrame(data, ts, frags[0].marker, frags[0].payload);
    Feed.RunSilentFirst(Step, Assembly(data, true, ts), frags, Assembly(data + frags[0].payload, true, ts));
  }

  /** The fragments after the first of a frame are again a frame tail. */
  lemma {:induction false} TailOfTail(ts: nat, frags: seq<Fragment>)
    requires |frags| >= 2
    requires forall i :: 0 <= i < |frags| ==> frags[i].timestamp == ts
    requires forall i :: 0 <= i < |frags| ==> (frags[i].marker <==> i == |frags| - 1)
    ensures !frags[0].marker && frags[0].timestamp == ts
    ensures forall i :: 0 <= i < |frags| - 1 ==> frags[1..][i].timestamp == ts
    ensures forall i :: 0 <= i < |frags| - 1 ==> (frags[1..][i].marker <==> i == |frags| - 2)
  {
    forall i | 0 <= i < |frags| - 1
      ensures frags[1..][i].timestamp == ts && (frags[1..][i].marker <==> i == |frags| - 2)
    {
      assert frags[1..][i] == frags[i + 1];
    }
  }

  /** Inside a frame whose header was seen: the rest of the fragments are appended
      and the marker on the last one hands the whole frame on. */
  lemma {:induction false} FrameTail(data: seq<Byte>, ts: nat, frags: seq<Fragment>)
    requires |data| > 0 && |frags| >= 1 && EndsWithEoi(data + Concat(frags))
    requires forall i :: 0 <= i < |frags| ==> frags[i].timestamp == ts
    requires forall i :: 0 <= i < |frags| ==> (frags[i].marker <==> i == |frags| - 1)
    ensures Feed.Run(Step, Assembly(data, true, ts), frags) == (Assembly([], false, ts), [data + Concat(frags)])
    decreases |frags|
  {
    if |frags| == 1 {
      LastFragment(data, ts, frags);
    } else {
      TailOfTail(ts, frags);
      assert data + frags[0].payload + Concat(frags[1..]) == data + Concat(frags) by {
        assert Concat(frags) == frags[0].payload + Concat(frags[1..]);
      }
      FrameTail(data + frags[0].payload, ts, frags[1..]);
      InnerFragment(data, ts, frags);
    }
  }

  /** From the idle state, a fragment opening with SOI sets the header
      flag and starts the buffer with its bytes; with the marker as well, it
      is a whole frame on its own. */
  lemma {:induction false} FirstFragment(a: Assembly, f: Fragment)
    requires Idle(a) && StartsWithSoi(f.payload)
    ensures !f.marker ==> Step(a, f) == (Assembly(f.payload, true, f.timestamp), [])
    ensures f.marker && EndsWithEoi(f.payload) ==> Step(a, f) == (Assembly([], false, f.timestamp), [f.payload])
  {
    var s1 := StartFrame(a, f.timestamp);
    assert s1.0 == Assembly([], false, f.timestamp) && s1.1 == [];
    assert [] + f.payload == f.payload;
    assert TakePayload(s1.0, f.payload) == Assembly(f.payload, true, f.timestamp);
    assert [] + [f.payload] == [f.payload];
  }

  /** A one-fragment frame from the idle state. */
  lemma {:induction false} WholeFrameInOne(a: Assembly, frags: seq<Fragment>)
    requires Idle(a) && |frags| == 1 && frags[0].marker && IsJpeg(Concat(frags))
    ensures Feed.Run(Step, a, frags) == (Assembly([], false, frags[0].timestamp), [Concat(frags)])
  {
    var f := frags[0];
    assert Concat(frags) == f.payload by {
      assert frags[1..] == [] && Concat(frags[1..]) == [];
      assert f.payload + [] == f.payload;
    }
    FirstFragment(a, f);
    assert Feed.Run(Step, Assembly([], false, f.timestamp), frags[1..]) == (Assembly([], false, f.timestamp), []);
    assert [f.payload] + [] == [f.payload];
  }

  /** The first of several fragments from the idle state opens the buffer,
      so the frame the remaining fragments complete is the whole frame. */
  lemma {:induction false} OpenFrame(a: Assembly, frags: seq<Fragment>)
    requires Idle(a) && |frags| >= 2 && !frags[0].marker && StartsWithSoi(frags[0].payload)
    requires Feed.Run(Step, Assembly(frags[0].payload, true, frags[0].timestamp), frags[1..])
             == (Assembly([], false, frags[0].timestamp), [frags[0].payload + Concat(frags[1..])])
    ensures Feed.Run(Step, a, frags) == (Assembly([], false, frags[0].timestamp), [Concat(frags)])
  {
    FirstFragment(a, frags[0]);
    Feed.RunSilentFirst(Step, a, frags, Assembly(frags[0].payload, true, frags[0].timestamp));
  }

  /** From the idle state a well-formed frame is delivered exactly once, whole,
      and the assembler is idle again. */
  lemma {:induction false} OneFrame(a: Assembly, frags: seq<Fragment>)
    requires Idle(a) && WellFormedFrame(frags)
    ensures Feed.Run(Step, a, frags) == (Assembly([], false, frags[0].timestamp), [Concat(frags)])
  {
    var ts := frags[0].timestamp;
    if |frags| == 1 {
      WholeFrameInOne(a, frags);
    } else {
      TailOfTail(ts, frags);
      assert frags[0].payload + Concat(frags[1..]) == Concat(frags);
      assert StartsWithSoi(frags[0].payload);
      FrameTail(frags[0].payload, ts, frags[1..]);
      OpenFrame(a, frags);
    }
  }

  /** The fragments of several frames, frame after frame. */
  function Flatten(frames: seq<seq<Fragment>>): seq<Fragment>
    decreases |frames|
  {
    if frames == [] then [] else frames[0] + Flatten(frames[1..])
  }

  /** The whole JPEG of each frame, in order. */
  function Jpegs(frames: seq<seq<Fragment>>): (r: seq<seq<Byte>>)
    ensures |r| == |frames| && forall i :: 0 <= i < |frames| ==> r[i] == Concat(frames[i])
    decreases |frames|
  {
    if frames == [] then [] else [Concat(frames[0])] + Jpegs(frames[1..])
  }

  /** N well-formed frames fed from the idle state come out as exactly
      N frames, in arrival order. */
  lemma {:induction false} FramesDeliveredInOrder(a: Assembly, frames: seq<seq<Fragment>>)
    requires Idle(a)
    requires forall i :: 0 <= i < |frames| ==> WellFormedFrame(frames[i])
    ensures Feed.Run(Step, a, Flatten(frames)).1 == Jpegs(frames)
    decreases |frames|
  {
    if frames == [] {
      assert Flatten(frames) == [];
    } else {
      var rest := frames[1..];
      assert Flatten(frames) == frames[0] + Flatten(rest);
      OneFrame(a, frames[0]);
      Feed.RunAppend(Step, a, frames[0], Flatten(rest));
      var a' := Assembly([], false, frames[0][0].timestamp);
      assert forall i :: 0 <= i < |rest| ==> WellFormedFrame(rest[i]) by {
        forall i | 0 <= i < |rest| ensures WellFormedFrame(rest[i]) {
          assert rest[i] == frames[i + 1];
        }
      }
      FramesDeliveredInOrder(a', rest);
      assert Jpegs(frames) == [Concat(frames[0])] + Jpegs(rest);
    }
  }

  // ------------------------------------------------------------- the receiver

  /** What `_add_frame_to_queue` enqueues: the JPEG bytes with the last extension block seen. */
  datatype CameraFrame = CameraFrame(jpeg: seq<Byte>, extension: Option<seq<Byte>>)

  function AsFrames(buffers: seq<seq<Byte>>, ext: Option<seq<Byte>>): (r: seq<CameraFrame>)
    ensures |r| == |buffers| && forall i :: 0 <= i < |r| ==> r[i] == CameraFrame(buffers[i], ext)
  {
    seq(|buffers|, i requires 0 <= i < |buffers| => CameraFrame(buffers[i], ext))
  }

  lemma {:induction false} AsFramesAppend(xs: seq<seq<Byte>>, ys: seq<seq<Byte>>, ext: Option<seq<Byte>>)
    ensures AsFrames(xs + ys, ext) == AsFrames(xs, ext) + AsFrames(ys, ext)
  {
  }

  /** The status-queue side of `update_packet_data`: a copy of the whole merged
      map is pushed (drop-oldest) only if a queue exists and the parse found something. */
  function Publish(queue: Option<seq<Settings>>, cap: nat, parsed: Settings, merged: Settings): (r: Option<seq<Settings>>)
    requires 1 <= cap && (queue.Some? ==> |queue.value| <= cap)
    ensures r.Some? <==> queue.Some?
    ensures r.Some? ==> |r.value| <= cap
    ensures queue.Some? && parsed != map[] ==> r == Some(BoundedQueue.Newest(cap, queue.value + [merged]))
    ensures queue.Some? && parsed != map[] ==> |r.value| >= 1 && r.value[|r.value| - 1] == merged
    ensures parsed == map[] ==> r == queue
  {
    if queue.Some? && parsed != map[] then
      var pushed := BoundedQueue.Push(queue.value, cap, merged);
      assert |pushed| >= 1 && pushed[|pushed| - 1] == merged;
      Some(pushed)
    else queue
  }

  class ExtendedLiveViewReceiver {
    var frameData: seq<Byte>
    var hasJpegHeader: bool
    var currentFrameSeq: int
    var cameraSettings: Settings
    var lastRtpExtension: Option<seq<Byte>>
    var imgQueue: seq<CameraFrame>
    var statusQueue: Option<seq<Settings>>
    const imgCapacity: nat
    const statusCapacity: nat

    ghost function State(): Assembly
      reads this`frameData, this`hasJpegHeader, this`currentFrameSeq
    {
      Assembly(frameData, hasJpegHeader, currentFrameSeq)
    }

    /** The image queue is within its capacity and holds only complete JPEGs. */
    ghost predicate ImagesValid()
      reads this`imgQueue
    {
      1 <= imgCapacity && |imgQueue| <= imgCapacity && forall i :: 0 <= i < |imgQueue| ==> IsJpeg(imgQueue[i].jpeg)
    }

    ghost predicate StatusValid()
      reads this`statusQueue
    {
      1 <= statusCapacity && (statusQueue.Some? ==> |statusQueue.value| <= statusCapacity)
    }

    ghost predicate Valid()
      reads this`imgQueue, this`statusQueue, this`frameData, this`hasJpegHeader, this`currentFrameSeq
    {
      ImagesValid() && StatusValid() && Inv(State())
    }

    /** `__init__`: empty queues of the given capacities (the status queue optional). */
    constructor (imgCapacity: nat, statusCapacity: nat, withStatusQueue: bool)
      requires 1 <= imgCapacity && 1 <= statusCapacity
      ensures Valid()
      ensures State() == Initial && cameraSettings == map[] && lastRtpExtension == None
      ensures imgQueue == [] && statusQueue == (if withStatusQueue then Some([]) else None)
    {
      this.imgCapacity := imgCapacity;
      this.statusCapacity := statusCapacity;
      frameData := [];
      hasJpegHeader := false;
      currentFrameSeq := -1;
      cameraSettings := map[];
      lastRtpExtension := None;
      imgQueue := [];
      statusQueue := if withStatusQueue then Some([]) else None;
    }

    /** `update_packet_data`: empty input is a no-op; otherwise remember the
        block, merge the truthy parsed values and publish a copy. */
    method UpdatePacketData(data: seq<Byte>)
      requires Valid()
      modifies this`cameraSettings, this`lastRtpExtension, this`statusQueue
      ensures Valid()
      ensures data == [] ==> cameraSettings == old(cameraSettings) && lastRtpExtension == old(lastRtpExtension)
                             && statusQueue == old(statusQueue)
      ensures data != [] ==>
        && lastRtpExtension == Some(data)
        && cameraSettings == Merge(old(cameraSettings), ExtensionSettings(data))
        && statusQueue == Publish(old(statusQueue), statusCapacity, ExtensionSettings(data), cameraSettings)
    {
      if data == [] {
        return;
      }
      lastRtpExtension := Some(data);
      var settings := ParseExtensionData(data);
      cameraSettings := Merge(cameraSettings, settings);
      statusQueue := Publish(statusQueue, statusCapacity, settings, cameraSettings);
    }

    /** `_add_frame_to_queue`: wrap the bytes with the last extension block and
        push, evicting the oldest frame when the queue is full. */
    method AddFrameToQueue(data: seq<Byte>)
      requires Valid() && IsJpeg(data)
      modifies this`imgQueue
      ensures Valid()
      ensures imgQueue == BoundedQueue.Push(old(imgQueue), imgCapacity, CameraFrame(data, lastRtpExtension))
    {
      imgQueue := BoundedQueue.Push(imgQueue, imgCapacity, CameraFrame(data, lastRtpExtension));
    }

    /** `get_latest_camera_settings`: a copy of the merged telemetry. */
    method GetLatestCameraSettings() returns (settings: Settings)
      ensures settings == cameraSettings
    {
      settings := cameraSettings;
    }

    /** The EOI check both call sites of `_add_frame_to_queue` make, followed
        by the reset of the buffer and the header flag. */
    method FlushIfComplete()
      requires Valid() && hasJpegHeader
      modifies this`frameData, this`hasJpegHeader, this`imgQueue
      ensures Valid() && Idle(State())
      ensures imgQueue == if EndsWithEoi(old(frameData))
                          then BoundedQueue.Push(old(imgQueue), imgCapacity, CameraFrame(old(frameData), lastRtpExtension))
                          else old(imgQueue)
    {
      if |frameData| >= 2 && frameData[|frameData| - 2] == 0xFF && frameData[|frameData| - 1] == 0xD9 {
        AddFrameToQueue(frameData);
      }
      frameData := [];
      hasJpegHeader := false;
    }

    /** The timestamp check at the top of `_process_packet`. */
    method BeginFrameIfNew(timestamp: nat)
      requires Valid()
      modifies this`frameData, this`hasJpegHeader, this`currentFrameSeq, this`imgQueue
      ensures Valid()
      ensures State() == StartFrame(old(State()), timestamp).0
      ensures imgQueue == BoundedQueue.PushAll(old(imgQueue), imgCapacity, AsFrames(StartFrame(old(State()), timestamp).1, lastRtpExtension))
    {
      ghost var r := StartFrame(State(), timestamp);
      if timestamp != currentFrameSeq {
        if hasJpegHeader && |frameData| > 0 {
          FlushIfComplete();
        }
        frameData := [];
        hasJpegHeader := false;
        currentFrameSeq := timestamp;
      }
      OnePush(old(imgQueue), r.1);
    }

    /** The marker check at the bottom of `_process_packet`. */
    method EndFrameOnMarker(marker: bool)
      requires Valid()
      modifies this`frameData, this`hasJpegHeader, this`imgQueue
      ensures Valid()
      ensures State() == EndFrame(old(State()), marker).0
      ensures imgQueue == BoundedQueue.PushAll(old(imgQueue), imgCapacity, AsFrames(EndFrame(old(State()), marker).1, lastRtpExtension))
    {
      ghost var r := EndFrame(State(), marker);
      if marker && hasJpegHeader && |frameData| > 0 {
        FlushIfComplete();
      }
      OnePush(old(imgQueue), r.1);
    }

    /** Pushing zero or one buffer is PushAll over its frames. */
    lemma {:induction false} OnePush(q0: seq<CameraFrame>, handed: seq<seq<Byte>>)
      requires 1 <= imgCapacity && |q0| <= imgCapacity && |handed| <= 1
      ensures handed == [] ==> BoundedQueue.PushAll(q0, imgCapacity, AsFrames(handed, lastRtpExtension)) == q0
      ensures |handed| == 1 ==>
        BoundedQueue.PushAll(q0, imgCapacity, AsFrames(handed, lastRtpExtension))
          == BoundedQueue.Push(q0, imgCapacity, CameraFrame(handed[0], lastRtpExtension))
    {
      var frames := AsFrames(handed, lastRtpExtension);
      if |handed| == 1 {
        assert frames[1..] == [];
      }
    }

    /** The frame-assembly half of `_process_packet`: one fragment's payload
        under its timestamp and marker. */
    method AssembleFragment(timestamp: nat, marker: bool, payload: seq<Byte>)
      requires Valid()
      modifies this`frameData, this`hasJpegHeader, this`currentFrameSeq, this`imgQueue
      ensures Valid()
      ensures State() == Assemble(old(State()), timestamp, marker, payload).0
      ensures imgQueue == BoundedQueue.PushAll(old(imgQueue), imgCapacity,
                                               AsFrames(Assemble(old(State()), timestamp, marker, payload).1, lastRtpExtension))
    {
      ghost var a0 := State();
      ghost var q0 := imgQueue;
      BeginFrameIfNew(timestamp);
      if |payload| >= 2 && payload[0] == 0xFF && payload[1] == 0xD8 {
        hasJpegHeader := true;
      }
      if hasJpegHeader && payload != [] {
        frameData := frameData + payload;
      }
      assert State() == TakePayload(StartFrame(a0, timestamp).0, payload);
      EndFrameOnMarker(marker);
      ghost var s1 := StartFrame(a0, timestamp).1;
      ghost var s3 := EndFrame(TakePayload(StartFrame(a0, timestamp).0, payload), marker).1;
      AsFramesAppend(s1, s3, lastRtpExtension);
      BoundedQueue.PushAllAppend(q0, imgCapacity, AsFrames(s1, lastRtpExtension), AsFrames(s3, lastRtpExtension));
    }

    /** `_process_packet`: a datagram shorter than the fixed header is ignored;
        otherwise the telemetry of the first packet of a frame is merged, and
        the payload is assembled. Frames handed on by this packet carry the
        extension block seen last, which may be this packet's own. */
    method ProcessPacket(packet: seq<Byte>)
      requires Valid()
      modifies this`frameData, this`hasJpegHeader, this`currentFrameSeq, this`imgQueue, this`cameraSettings, this`lastRtpExtension, this`statusQueue
      ensures Valid()
      ensures |packet| < RtpHeaderSize ==>
        && State() == old(State()) && imgQueue == old(imgQueue) && cameraSettings == old(cameraSettings)
        && statusQueue == old(statusQueue) && lastRtpExtension == old(lastRtpExtension)
      ensures |packet| >= RtpHeaderSize && !(ExtensionBlock(packet).Some? && Timestamp(packet) != old(currentFrameSeq)) ==>
        && cameraSettings == old(cameraSettings) && statusQueue == old(statusQueue)
        && lastRtpExtension == old(lastRtpExtension)
      ensures |packet| >= RtpHeaderSize && ExtensionBlock(packet).Some? && Timestamp(packet) != old(currentFrameSeq) ==>
        && lastRtpExtension == ExtensionBlock(packet)
        && cameraSettings == Merge(old(cameraSettings), ExtensionSettings(ExtensionBlock(packet).value))
        && statusQueue == Publish(old(statusQueue), statusCapacity, ExtensionSettings(ExtensionBlock(packet).value), cameraSettings)
      ensures |packet| >= RtpHeaderSize ==>
        && State() == Assemble(old(State()), Timestamp(packet), Marker(packet), Payload(packet)).0
        && imgQueue == BoundedQueue.PushAll(old(imgQueue), imgCapacity,
                                            AsFrames(Assemble(old(State()), Timestamp(packet), Marker(packet), Payload(packet)).1,
                                                     lastRtpExtension))
    {
      if |packet| < RtpHeaderSize {
        return;
      }
      var timestamp, marker, payload := Timestamp(packet), Marker(packet), Payload(packet);
      ghost var a0, q0 := State(), imgQueue;
      MergeTelemetryIfNew(packet);
      assert State() == a0 && imgQueue == q0;
      AssembleFragment(timestamp, marker, payload);
    }

    /** The telemetry half of `_process_packet`: the extension block of the
        first packet of a frame is merged; any other packet leaves the
        telemetry alone. */
    method MergeTelemetryIfNew(packet: seq<Byte>)
      requires Valid() && |packet| >= RtpHeaderSize
      modifies this`cameraSettings, this`lastRtpExtension, this`statusQueue
      ensures Valid()
      ensures !(ExtensionBlock(packet).Some? && Timestamp(packet) != currentFrameSeq) ==>
        && cameraSettings == old(cameraSettings) && statusQueue == old(statusQueue)
        && lastRtpExtension == old(lastRtpExtension)
      ensures ExtensionBlock(packet).Some? && Timestamp(packet) != currentFrameSeq ==>
        && lastRtpExtension == ExtensionBlock(packet)
        && cameraSettings == Merge(old(cameraSettings), ExtensionSettings(ExtensionBlock(packet).value))
        && statusQueue == Publish(old(statusQueue), statusCapacity, ExtensionSettings(ExtensionBlock(packet).value), cameraSettings)
    {
      var block := ExtensionBlock(packet);
      if block.Some? && Timestamp(packet) != currentFrameSeq {
        UpdatePacketData(block.value);
      }
    }
  }
}
