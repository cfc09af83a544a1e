/** The fixed 12-byte RTP header both receivers decode (section 5.1 of
    RFC 3550): the extension flag X is bit 0x10 of byte 0, the marker M is
    bit 0x80 of byte 1, and bytes 4..7 hold the 32-bit timestamp in network
    byte order. The sequence number is read by the receivers but never used. */
module RtpHeader {
  import opened Bytes

  const RtpHeaderSize: nat := 12

  function Timestamp(packet: seq<Byte>): (t: nat)
    requires |packet| >= RtpHeaderSize
    ensures t < 0x1_0000_0000
  {
    U32(packet, 4)
  }

  predicate HasExtension(packet: seq<Byte>)
    requires |packet| >= RtpHeaderSize
  {
    Bit10(packet[0])
  }

  predicate Marker(packet: seq<Byte>)
    requires |packet| >= RtpHeaderSize
  {
    Bit80(packet[1])
  }

  /** A version-2 header with the given flags, payload type 26 (JPEG),
      sequence number seq and timestamp ts, and a zero SSRC. */
  function EncodeHeader(extension: bool, marker: bool, seqNo: nat, ts: nat): (h: seq<Byte>)
    requires seqNo < 0x1_0000 && ts < 0x1_0000_0000
    ensures |h| == RtpHeaderSize
  {
    [if extension then 0x90 else 0x80, if marker then 0x80 + 26 else 26]
      + BE16(seqNo) + BE32(ts) + [0, 0, 0, 0]
  }

  /** Decoding an encoded header gives back its flags and timestamp, whatever follows it. */
  lemma {:induction false} DecodeEncodedHeader(extension: bool, marker: bool, seqNo: nat, ts: nat, rest: seq<Byte>)
    requires seqNo < 0x1_0000 && ts < 0x1_0000_0000
    ensures var p := EncodeHeader(extension, marker, seqNo, ts) + rest;
      && Timestamp(p) == ts && (HasExtension(p) <==> extension) && (Marker(p) <==> marker)
  {
    var pre := [if extension then 0x90 else 0x80, if marker then 0x80 + 26 else 26] + BE16(seqNo);
    var p := EncodeHeader(extension, marker, seqNo, ts) + rest;
    assert p == pre + BE32(ts) + ([0, 0, 0, 0] + rest);
    U32RoundTrip(ts, pre, [0, 0, 0, 0] + rest);
    assert p[0] == pre[0] && p[1] == pre[1];
  }
}
