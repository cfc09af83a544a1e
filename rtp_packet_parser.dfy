/** The telemetry decoder of film_scanner/rtp_packet_parser.py, used by the
    receiver of film_scanner/extended_liveview_receiver.py. It walks the
    vendor fields that follow the 4-byte RTP extension header (section 5.3.1
    of RFC 3550) and renders each known field as display text. It disagrees
    with the camera receiver's own decoder on where the walk starts, on the
    field offsets and on the scales; both are modelled as written. */
module RtpParser {
  import opened Bytes
  import opened Telemetry
  import opened Optional

  const FunctionIdShutterSpeed: nat := 0x08
  const FunctionIdAperture: nat := 0x09
  const FunctionIdExposureCompensation: nat := 0x0A
  const FunctionIdIsoSensitivity: nat := 0x0C
  const FunctionIdExposureWarning: nat := 0x10
  const FunctionIdFocusMode: nat := 0x11

  const NoShutter: string := "---"
  const NoAperture: string := "F--"
  const NoIso: string := "ISO --"
  /** The exposure-compensation text for zero: a plus-minus sign, then 0.0. */
  const ZeroCompensation: string := "\U{00B1}0.0"
  const WarningText: string := "EXP!"
  const UnknownFocusStatus: string := "unknown"
  const IsoLow: nat := 0xFFFE

  // ------------------------------------------------------------- renderings

  /** The shutter text for numerator/denominator. Seconds above one are
      `n"` for a whole number (else a float with one decimal); fractions are
      `1/d` when the numerator is 1 (else `1/` and a float with one decimal). */
  function ShutterText(num: nat, den: nat): (v: Value)
    ensures v == Text(NoShutter) <==> num == 0 || den == 0
    ensures num > den > 0 && den == 1 ==> v == Text(NatToString(num) + "\"")
    ensures 0 < num <= den && num == 1 ==> v == Text("1/" + NatToString(den))
    ensures num > den > 1 ==> v == Decimal("", num, den, 1, "\"")
    ensures 1 < num <= den ==> v == Decimal("1/", den, num, 1, "")
  {
    if num == 0 || den == 0 then Text(NoShutter)
    else if num > den then
      if den == 1 then
        var s := NatToString(num) + "\"";
        assert s[|s| - 1] != NoShutter[|NoShutter| - 1];
        Text(s)
      else Decimal("", num, den, 1, "\"")
    else if num == 1 then
      var s := "1/" + NatToString(den);
      assert s[0] != NoShutter[0];
      Text(s)
    else Decimal("1/", den, num, 1, "")
  }

  /** `F` and the tenths value with one decimal; zero has its own text. */
  function ApertureText(v: nat): (r: Value)
    ensures r == Text(NoAperture) <==> v == 0
    ensures v > 0 ==> r.Text? && |r.s| > 1 && r.s[0] == 'F' && ParseTenths(r.s[1..]) == v
  {
    if v == 0 then Text(NoAperture)
    else
      var s := "F" + Tenths(v);
      assert s[1..] == Tenths(v);
      TenthsRoundTrip(v);
      assert s[|s| - 2] != NoAperture[|NoAperture| - 2];
      Text(s)
  }

  /** The ISO text: `ISO --` for zero, `LOW` for 0xFFFE, else the number,
      prefixed `ISO-A ` in auto mode and `ISO ` otherwise. */
  function IsoText(iso: nat, auto: bool): (r: Value)
    ensures r == Text(NoIso) <==> iso == 0
    ensures iso == IsoLow ==> r == Text((if auto then "ISO-A " else "ISO ") + "LOW")
    ensures iso != 0 && iso != IsoLow ==>
      var prefix := if auto then "ISO-A " else "ISO ";
      r.Text? && |r.s| > |prefix| && r.s[..|prefix|] == prefix && ParseDigits(r.s[|prefix|..]) == iso
  {
    var prefix := if auto then "ISO-A " else "ISO ";
    if iso == 0 then Text(NoIso)
    else
      var s := prefix + (if iso == IsoLow then "LOW" else NatToString(iso));
      assert s[..|prefix|] == prefix && s[|prefix|..] == (if iso == IsoLow then "LOW" else NatToString(iso));
      ParseNatToString(iso);
      assert s != NoIso by {
        if auto { assert s[3] != NoIso[3]; } else { assert s[4] != NoIso[4]; }
      }
      Text(s)
  }

  /** The exposure compensation text for a signed count of tenths: a `+`
      sign for positive values, the tenths with one decimal, and its own
      text for zero (the only value within 0.1 of zero). */
  function ExposureCompensationText(e: int): (r: Value)
    ensures r == Text(ZeroCompensation) <==> e == 0
    ensures e > 0 ==> r.Text? && |r.s| > 1 && r.s[0] == '+' && ParseTenths(r.s[1..]) == e
    ensures e < 0 ==> r.Text? && |r.s| > 1 && r.s[0] == '-' && ParseTenths(r.s) == e
  {
    if e == 0 then Text(ZeroCompensation)
    else
      var s := (if e > 0 then "+" else "") + Tenths(e);
      TenthsRoundTrip(e);
      assert e > 0 ==> s[1..] == Tenths(e);
      assert e < 0 ==> s == Tenths(e);
      assert s[0] != ZeroCompensation[0];
      Text(s)
  }

  /** `S-AF`, `C-AF` or `MF` for focus types 0, 1, 2; empty otherwise. */
  function FocusModeText(focusType: nat): (r: string)
    ensures r != "" <==> focusType <= 2
  {
    if focusType == 0 then "S-AF"
    else if focusType == 1 then "C-AF"
    else if focusType == 2 then "MF"
    else ""
  }

  // ------------------------------------------------------------- field decoders

  /** `_parse_shutter_speed` on a field slice. The numerator and denominator
      are read from bytes 8..15 when the slice has them, else from bytes
      4..11; a slice under 12 bytes gives `---`. */
  function ShutterSpeedField(data: seq<Byte>): (r: Settings)
    ensures r.Keys == {ShutterSpeedKey}
    ensures |data| < 12 ==> r[ShutterSpeedKey] == Text(NoShutter)
  {
    var v := if |data| < 12 then Text(NoShutter)
             else if |data| >= 16 then ShutterText(U32(data, 8), U32(data, 12))
             else ShutterText(U32(data, 4), U32(data, 8));
    map[ShutterSpeedKey := v]
  }

  /** `_parse_aperture`: the 32-bit value at bytes 8..11, in tenths. */
  function ApertureField(data: seq<Byte>): (r: Settings)
    ensures r.Keys == {ApertureKey}
  {
    map[ApertureKey := if |data| < 12 then Text(NoAperture) else ApertureText(U32(data, 8))]
  }

  /** `_parse_iso_sensitivity`: the value at bytes 0..3, the auto flag at bytes 4..5. */
  function IsoField(data: seq<Byte>): (r: Settings)
    ensures r.Keys == {IsoKey}
  {
    map[IsoKey := if |data| < 6 then Text(NoIso) else IsoText(U32(data, 0), U16(data, 4) != 0)]
  }

  /** `_parse_exposure_compensation`: the signed value at bytes 8..11, in tenths. */
  function ExposureCompensationField(data: seq<Byte>): (r: Settings)
    ensures r.Keys == {ExposureCompensationKey}
  {
    map[ExposureCompensationKey := if |data| < 12 then Text("") else ExposureCompensationText(I32(data, 8))]
  }

  /** `_parse_exposure_warning`: `EXP!` for a non-zero word, empty for zero. */
  function ExposureWarningField(data: seq<Byte>): (r: Settings)
    ensures r.Keys == {ExposureWarningKey}
    ensures r[ExposureWarningKey] == Text(WarningText) <==> |data| >= 4 && U32(data, 0) != 0
  {
    map[ExposureWarningKey := if |data| >= 4 && U32(data, 0) != 0 then Text(WarningText) else Text("")]
  }

  /** `_parse_focus_mode`: the mode from the first 16 bits, and a status that
      is always `unknown`. */
  function FocusModeField(data: seq<Byte>): (r: Settings)
    ensures r.Keys == {FocusModeKey, FocusStatusKey}
    ensures r[FocusStatusKey] == Text(UnknownFocusStatus)
  {
    var mode := if |data| < 2 then "" else FocusModeText(U16(data, 0));
    map[FocusModeKey := Text(mode), FocusStatusKey := Text(UnknownFocusStatus)]
  }

  /** The settings one field contributes; `pos` is the offset of its payload.
      A decoder runs only if its fixed slice (12 bytes, or 4 for the warning
      and the focus mode) lies in the buffer, and is handed exactly that slice. */
  function FieldSettings(functionId: nat, ext: seq<Byte>, pos: nat): Settings {
    if functionId == FunctionIdShutterSpeed && pos + 12 <= |ext| then ShutterSpeedField(ext[pos..pos + 12])
    else if functionId == FunctionIdAperture && pos + 12 <= |ext| then ApertureField(ext[pos..pos + 12])
    else if functionId == FunctionIdIsoSensitivity && pos + 12 <= |ext| then IsoField(ext[pos..pos + 12])
    else if functionId == FunctionIdExposureCompensation && pos + 12 <= |ext| then ExposureCompensationField(ext[pos..pos + 12])
    else if functionId == FunctionIdExposureWarning && pos + 4 <= |ext| then ExposureWarningField(ext[pos..pos + 4])
    else if functionId == FunctionIdFocusMode && pos + 4 <= |ext| then FocusModeField(ext[pos..pos + 4])
    else map[]
  }

  /** The shutter decoder is always handed a 12-byte slice, so its read of
      bytes 8..15 always fails and the value comes from field bytes 4..11. */
  lemma {:induction false} ShutterReadsBytesFourToEleven(ext: seq<Byte>, pos: nat)
    requires pos + 12 <= |ext|
    ensures FieldSettings(FunctionIdShutterSpeed, ext, pos)
         == map[ShutterSpeedKey := ShutterText(U32(ext, pos + 4), U32(ext, pos + 8))]
  {
    var data := ext[pos..pos + 12];
    assert U32(data, 4) == U32(ext, pos + 4) && U32(data, 8) == U32(ext, pos + 8);
  }

  // ------------------------------------------------------------- the walk

  /** A length in 32-bit words, in bytes. */
  function Words(n: nat): nat {
    4 * n
  }

  /** The field walk from `pos`: while a field header fits and `pos` is before
      the end the extension header declares, decode the field and skip
      `4 + 4 * length` bytes. Later fields override earlier ones. */
  function Walk(ext: seq<Byte>, pos: nat, end: nat, acc: Settings): Settings
    decreases if pos <= |ext| then |ext| - pos else 0
  {
    if pos + 4 <= |ext| && pos < end then
      Walk(ext, pos + 4 + Words(U16(ext, pos + 2)), end, acc + FieldSettings(U16(ext, pos), ext, pos + 4))
    else acc
  }

  /** What `parse_extension_header` returns: nothing for a block under 4 bytes,
      else the walk from offset 4 up to `4 + 4 * length`. */
  function ExtensionSettings(ext: seq<Byte>): Settings {
    if |ext| < 4 then map[] else Walk(ext, 4, 4 + Words(U16(ext, 2)), map[])
  }

  lemma {:induction false} WalkStep(ext: seq<Byte>, pos: nat, end: nat, acc: Settings, functionId: nat, fieldLength: nat)
    requires pos + 4 <= |ext| && pos < end
    requires functionId == U16(ext, pos) && fieldLength == U16(ext, pos + 2)
    ensures Walk(ext, pos, end, acc) == Walk(ext, pos + 4 + Words(fieldLength), end, acc + FieldSettings(functionId, ext, pos + 4))
  {
  }

  /** The seven keys the parser can produce. */
  const ParserKeys: set<string> :=
    {ShutterSpeedKey, ApertureKey, IsoKey, ExposureCompensationKey, ExposureWarningKey, FocusModeKey, FocusStatusKey}

  lemma {:induction false} FieldSettingsKeys(functionId: nat, ext: seq<Byte>, pos: nat)
    ensures FieldSettings(functionId, ext, pos).Keys <= ParserKeys
  {
  }

  /** Every key the walk produces is one of the seven, and a block whose
      declared length is zero produces nothing. */
  lemma {:induction false} WalkKeys(ext: seq<Byte>, pos: nat, end: nat, acc: Settings)
    requires acc.Keys <= ParserKeys
    ensures Walk(ext, pos, end, acc).Keys <= ParserKeys
    decreases if pos <= |ext| then |ext| - pos else 0
  {
    if pos + 4 <= |ext| && pos < end {
      FieldSettingsKeys(U16(ext, pos), ext, pos + 4);
      WalkKeys(ext, pos + 4 + Words(U16(ext, pos + 2)), end, acc + FieldSettings(U16(ext, pos), ext, pos + 4));
    }
  }

  lemma {:induction false} EmptyDeclaredLengthYieldsNothing(ext: seq<Byte>)
    requires |ext| >= 4 && U16(ext, 2) == 0
    ensures ExtensionSettings(ext) == map[]
  {
  }

  /** Keeps the previous value of a field unless this parse produced its key. */
  function Refresh(previous: Option<Value>, settings: Settings, key: string): (r: Option<Value>)
    ensures key in settings ==> r == Some(settings[key])
    ensures key !in settings ==> r == previous
  {
    if key in settings then Some(settings[key]) else previous
  }

  /** The six fields a parser remembers between packets, as a value. */
  datatype Remembered = Remembered(
    shutterSpeed: Option<Value>, aperture: Option<Value>, iso: Option<Value>,
    exposureComp: Option<Value>, exposureWarning: Option<Value>, focusMode: Option<Value>)

  /** What a new parser remembers: nothing. */
  const Forgotten: Remembered := Remembered(None, None, None, None, None, None)

  /** The remembered fields after a parse that produced `settings`: a field
      whose key was produced takes the new value, any other keeps its own, so
      a field once remembered is never forgotten. */
  function Remember(r: Remembered, settings: Settings): (n: Remembered)
    ensures settings == map[] ==> n == r
    ensures && (r.shutterSpeed.Some? ==> n.shutterSpeed.Some?) && (r.aperture.Some? ==> n.aperture.Some?)
            && (r.iso.Some? ==> n.iso.Some?) && (r.exposureComp.Some? ==> n.exposureComp.Some?)
            && (r.exposureWarning.Some? ==> n.exposureWarning.Some?) && (r.focusMode.Some? ==> n.focusMode.Some?)
    ensures n.shutterSpeed == Refresh(r.shutterSpeed, settings, ShutterSpeedKey)
    ensures n.aperture == Refresh(r.aperture, settings, ApertureKey)
    ensures n.iso == Refresh(r.iso, settings, IsoKey)
    ensures n.exposureComp == Refresh(r.exposureComp, settings, ExposureCompensationKey)
    ensures n.exposureWarning == Refresh(r.exposureWarning, settings, ExposureWarningKey)
    ensures n.focusMode == Refresh(r.focusMode, settings, FocusModeKey)
  {
    Remembered(Refresh(r.shutterSpeed, settings, ShutterSpeedKey), Refresh(r.aperture, settings, ApertureKey),
               Refresh(r.iso, settings, IsoKey), Refresh(r.exposureComp, settings, ExposureCompensationKey),
               Refresh(r.exposureWarning, settings, ExposureWarningKey), Refresh(r.focusMode, settings, FocusModeKey))
  }

  /** The loop of `parse_extension_header` over `position`. */
  method WalkFields(ext: seq<Byte>) returns (settings: Settings)
    ensures settings == ExtensionSettings(ext)
    ensures settings.Keys <= ParserKeys
    ensures |ext| < 4 ==> settings == map[]
  {
    if |ext| < 4 {
      return map[];
    }
    var length := U16(ext, 2);
    var position: nat := 4;
    var endPosition := 4 + Words(length);
    settings := map[];
    ghost var total := ExtensionSettings(ext);
    while position + 4 <= |ext| && position < endPosition
      invariant Walk(ext, position, endPosition, settings) == total
      decreases |ext| - position
    {
      var functionId := U16(ext, position);
      var fieldLength := U16(ext, position + 2);
      WalkStep(ext, position, endPosition, settings, functionId, fieldLength);
      position := position + 4;
      settings := settings + FieldSettings(functionId, ext, position);
      position := position + Words(fieldLength);
    }
    WalkKeys(ext, 4, endPosition, map[]);
  }

  class RtpPacketParser {
    var shutterSpeed: Option<Value>
    var aperture: Option<Value>
    var iso: Option<Value>
    var exposureComp: Option<Value>
    var exposureWarning: Option<Value>
    var focusMode: Option<Value>

    /** The remembered fields, as a value. */
    function Fields(): (r: Remembered)
      reads this
      ensures r.shutterSpeed == shutterSpeed && r.aperture == aperture && r.iso == iso
      ensures r.exposureComp == exposureComp && r.exposureWarning == exposureWarning && r.focusMode == focusMode
    {
      Remembered(shutterSpeed, aperture, iso, exposureComp, exposureWarning, focusMode)
    }

    /** `__init__`: every field starts as None. */
    constructor ()
      ensures shutterSpeed == None && aperture == None && iso == None
      ensures exposureComp == None && exposureWarning == None && focusMode == None
      ensures Fields() == Forgotten
    {
      shutterSpeed := None;
      aperture := None;
      iso := None;
      exposureComp := None;
      exposureWarning := None;
      focusMode := None;
    }

    /** `parse_extension_header`: the walk, then each instance field is
        overwritten only if its key was decoded. */
    method ParseExtensionHeader(ext: seq<Byte>) returns (settings: Settings)
      modifies this
      ensures settings == ExtensionSettings(ext)
      ensures settings.Keys <= ParserKeys
      ensures shutterSpeed == Refresh(old(shutterSpeed), settings, ShutterSpeedKey)
      ensures aperture == Refresh(old(aperture), settings, ApertureKey)
      ensures iso == Refresh(old(iso), settings, IsoKey)
      ensures exposureComp == Refresh(old(exposureComp), settings, ExposureCompensationKey)
      ensures exposureWarning == Refresh(old(exposureWarning), settings, ExposureWarningKey)
      ensures focusMode == Refresh(old(focusMode), settings, FocusModeKey)
      ensures Fields() == Remember(old(Fields()), settings)
    {
      settings := WalkFields(ext);
      if ShutterSpeedKey in settings {
        shutterSpeed := Some(settings[ShutterSpeedKey]);
      }
      if ApertureKey in settings {
        aperture := Some(settings[ApertureKey]);
      }
      if IsoKey in settings {
        iso := Some(settings[IsoKey]);
      }
      if ExposureCompensationKey in settings {
        exposureComp := Some(settings[ExposureCompensationKey]);
      }
      if ExposureWarningKey in settings {
        exposureWarning := Some(settings[ExposureWarningKey]);
      }
      if FocusModeKey in settings {
        focusMode := Some(settings[FocusModeKey]);
      }
    }

    /** `get_all_settings`: the six remembered fields under their keys. */
    function AllSettings(): (r: map<string, Option<Value>>)
      reads this
      ensures r.Keys == {ShutterSpeedKey, ApertureKey, IsoKey, ExposureCompensationKey, ExposureWarningKey, FocusModeKey}
      ensures r[ShutterSpeedKey] == shutterSpeed && r[ApertureKey] == aperture && r[IsoKey] == iso
      ensures r[ExposureCompensationKey] == exposureComp && r[ExposureWarningKey] == exposureWarning
      ensures r[FocusModeKey] == focusMode
    {
      map[ShutterSpeedKey := shutterSpeed, ApertureKey := aperture, IsoKey := iso,
          ExposureCompensationKey := exposureComp, ExposureWarningKey := exposureWarning,
          FocusModeKey := focusMode]
    }
  }

  // ------------------------------------------------------------- examples

  /** 28 tenths is F2.8. */
  lemma {:induction false} ApertureExample()
    ensures ApertureText(28) == Text("F2.8")
  {
    assert NatToString(2) == "2";
  }

  /** 1/60 s is `1/60`, and 2/1 s is `2"`. */
  lemma {:induction false} ShutterExamples()
    ensures ShutterText(1, 60) == Text("1/60")
    ensures ShutterText(2, 1) == Text("2\"")
  {
    assert NatToString(6) == "6";
    assert NatToString(60) == NatToString(6) + "0";
    assert NatToString(2) == "2";
  }

  /** -15 tenths is `-1.5`, and +5 tenths is `+0.5`. */
  lemma {:induction false} ExposureCompensationExamples()
    ensures ExposureCompensationText(-15) == Text("-1.5")
    ensures ExposureCompensationText(5) == Text("+0.5")
  {
    assert NatToString(1) == "1";
    assert NatToString(0) == "0";
  }
}
