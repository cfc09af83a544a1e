/** Camera telemetry values and the sticky-latest merge that both receivers
    apply to their persistent `camera_settings` dictionary. */
module Telemetry {

  /** A telemetry value as the decoders store it. `Text` is a string whose
      characters the model computes exactly; `Int` is a number stored as is
      (the orientation); `Decimal` stands for the string
      `prefix + format(num / den, "." + places + "f") + suffix`, a float
      rendering whose rounding the model leaves unevaluated. */
  datatype Value =
    | Text(s: string)
    | Int(n: int)
    | Decimal(prefix: string, num: int, den: nat, places: nat, suffix: string)

  /** Python truthiness of the stored value: a non-empty string, a non-zero
      number. A float rendering is never the empty string. */
  predicate Truthy(v: Value) {
    match v
    case Text(s) => s != ""
    case Int(n) => n != 0
    case Decimal(_, _, _, _, _) => true
  }

  /** A telemetry dictionary: field name to value. */
  type Settings = map<string, Value>

  const ApertureKey: string := "aperture"
  const ShutterSpeedKey: string := "shutter_speed"
  const IsoKey: string := "iso"
  const ExposureCompensationKey: string := "exposure_compensation"
  const OrientationKey: string := "orientation"
  const ExposureWarningKey: string := "exposure_warning"
  const FocusModeKey: string := "focus_mode"
  const FocusStatusKey: string := "focus_status"

  /** The part of an update that is allowed to overwrite: its truthy entries. */
  function TruthyPart(update: Settings): (r: Settings)
    ensures forall k :: k in r <==> k in update && Truthy(update[k])
    ensures forall k :: k in r ==> r[k] == update[k]
  {
    map k | k in update && Truthy(update[k]) :: update[k]
  }

  /** `for key, value in settings.items(): if value: camera_settings[key] = value` */
  function Merge(current: Settings, update: Settings): (r: Settings)
    ensures r.Keys == current.Keys + TruthyPart(update).Keys
    ensures forall k :: k in update && Truthy(update[k]) ==> r[k] == update[k]
    ensures forall k :: k in current && !(k in update && Truthy(update[k])) ==> r[k] == current[k]
  {
    current + TruthyPart(update)
  }

  /** Sticky-latest: a key is never lost, and a key whose update is absent or
      empty keeps the value it had. */
  lemma {:induction false} MergeIsSticky(current: Settings, update: Settings, k: string)
    requires k in current
    ensures k in Merge(current, update)
    ensures Merge(current, update)[k] == if k in update && Truthy(update[k]) then update[k] else current[k]
  {
  }

  /** Applying the same update twice changes nothing the second time. */
  lemma {:induction false} MergeIdempotent(current: Settings, update: Settings)
    ensures Merge(Merge(current, update), update) == Merge(current, update)
  {
  }

  /** Merging u1 then u2 equals merging once with u1 overridden by u2's truthy entries. */
  lemma {:induction false} MergeCompose(current: Settings, u1: Settings, u2: Settings)
    ensures Merge(Merge(current, u1), u2) == Merge(current, TruthyPart(u1) + TruthyPart(u2))
  {
    var left := Merge(Merge(current, u1), u2);
    var right := Merge(current, TruthyPart(u1) + TruthyPart(u2));
    assert left.Keys == right.Keys;
    forall k | k in left ensures left[k] == right[k] {
    }
  }

  /** The worked example: aperture then ISO leaves both, nothing lost. */
  lemma {:induction false} MergeTwoPartialUpdates()
    ensures Merge(Merge(map[], map[ApertureKey := Text("F2.8")]), map[IsoKey := Text("ISO 200")])
         == map[ApertureKey := Text("F2.8"), IsoKey := Text("ISO 200")]
  {
  }
}
