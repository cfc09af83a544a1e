/** film_scanner/util/settings_manager.py: application settings as nested
    dictionaries, read and written by dotted key ("ui.status_bar_color").

    The defaults table belongs to the class, and both the constructor and
    `reset_to_defaults` copy it only one level deep: afterwards a nested
    dictionary such as "ui" is the very object the defaults hold, so a dotted
    `set` into it also changes the defaults. The model tracks which top-level
    keys share their table with the defaults. */
module Settings {
  import opened Optional

  /** A JSON-like setting value. */
  datatype Setting = Text(s: string) | Number(n: int) | Flag(b: bool) | Table(entries: map<string, Setting>)

  // ------------------------------------------------------------- dotted keys

  /** `key.split('.')`. */
  function Split(key: string): (parts: seq<string>)
    ensures |parts| >= 1
    ensures '.' in key <==> |parts| > 1
    ensures forall i :: 0 <= i < |parts| ==> '.' !in parts[i]
    ensures '.' !in key ==> parts == [key]
  {
    if key == [] then [""]
    else
      var rest := Split(key[1..]);
      assert '.' in key <==> key[0] == '.' || '.' in key[1..];
      if key[0] == '.' then [""] + rest
      else
        assert key == [key[0]] + key[1..];
        assert forall i :: 1 <= i < |rest| ==> ([[key[0]] + rest[0]] + rest[1..])[i] == rest[i];
        [[key[0]] + rest[0]] + rest[1..]
  }

  /** A key with one dot splits into the parts either side of it. */
  lemma {:induction false} SplitTwo(a: string, b: string)
    requires '.' !in a && '.' !in b
    ensures Split(a + "." + b) == [a, b]
    decreases |a|
  {
    if a == [] {
      assert a + "." + b == ['.'] + b;
      assert (['.'] + b)[1..] == b;
    } else {
      SplitTwo(a[1..], b);
      assert (a + "." + b)[1..] == a[1..] + "." + b;
      assert a == [a[0]] + a[1..];
    }
  }

  /** `'.'.join(parts)`. */
  function Join(parts: seq<string>): string
    requires |parts| >= 1
    decreases |parts|
  {
    if |parts| == 1 then parts[0] else parts[0] + "." + Join(parts[1..])
  }

  /** Putting a character in front of the first part puts it in front of
      the joined key. */
  lemma {:induction false} JoinPrefix(c: char, parts: seq<string>)
    requires |parts| >= 1
    ensures Join([[c] + parts[0]] + parts[1..]) == [c] + Join(parts)
  {
    var first := parts[0];
    var front := [[c] + first] + parts[1..];
    if |parts| == 1 {
      assert front == [[c] + first];
    } else {
      var tail := Join(parts[1..]);
      calc {
        Join(front);
      == { assert front[0] == [c] + first && front[1..] == parts[1..]; }
        ([c] + first) + "." + tail;
      ==
        [c] + (first + "." + tail);
      }
    }
  }

  /** Splitting loses nothing: joining the parts gives the key back. */
  lemma {:induction false} SplitJoin(key: string)
    ensures Join(Split(key)) == key
    decreases |key|
  {
    if key != [] {
      var rest := Split(key[1..]);
      SplitJoin(key[1..]);
      assert key == [key[0]] + key[1..];
      if key[0] == '.' {
        var parts := [""] + rest;
        assert parts[1..] == rest;
        assert Join(parts) == "" + "." + Join(rest);
      } else {
        JoinPrefix(key[0], rest);
      }
    }
  }

  // ------------------------------------------------------------- get and set on values

  /** The value at a path of keys, walking nested tables; None as soon as a
      part is missing or the value reached is not a table. */
  function GetPath(v: Setting, parts: seq<string>): Option<Setting>
    decreases |parts|
  {
    if parts == [] then Some(v)
    else if v.Table? && parts[0] in v.entries then GetPath(v.entries[parts[0]], parts[1..])
    else None
  }

  /** `get(key, default)`: a dotted key walks nested tables, a plain key
      reads the top level. */
  function GetKey(settings: map<string, Setting>, key: string, default: Setting): (r: Setting)
    ensures r == GetPath(Table(settings), Split(key)).GetOr(default)
  {
    if '.' in key then GetPath(Table(settings), Split(key)).GetOr(default)
    else
      assert Split(key) == [key];
      if key in settings then settings[key] else default
  }

  /** Writes value at the path, creating missing tables on the way; None
      when an existing value on the way is not a table, where the source
      raises a TypeError before changing anything. */
  function SetPath(m: map<string, Setting>, parts: seq<string>, value: Setting): Option<map<string, Setting>>
    requires |parts| >= 1
    decreases |parts|
  {
    if |parts| == 1 then Some(m[parts[0] := value])
    else
      var child := if parts[0] in m then m[parts[0]] else Table(map[]);
      if !child.Table? then None
      else
        match SetPath(child.entries, parts[1..], value)
        case None => None
        case Some(c) => Some(m[parts[0] := Table(c)])
  }

  /** `set(key, value)`: a dotted key writes along its path, a plain key the
      top level. */
  function SetKey(settings: map<string, Setting>, key: string, value: Setting): (r: Option<map<string, Setting>>)
    ensures r == SetPath(settings, Split(key), value)
  {
    if '.' in key then SetPath(settings, Split(key), value)
    else
      assert Split(key) == [key];
      Some(settings[key := value])
  }

  /** After a successful set, reading the same path gives the value set. */
  lemma {:induction false} SetThenGetPath(m: map<string, Setting>, parts: seq<string>, value: Setting)
    requires |parts| >= 1 && SetPath(m, parts, value).Some?
    ensures GetPath(Table(SetPath(m, parts, value).value), parts) == Some(value)
    decreases |parts|
  {
    if |parts| > 1 {
      var child := if parts[0] in m then m[parts[0]] else Table(map[]);
      SetThenGetPath(child.entries, parts[1..], value);
    }
  }

  /** Round trip: after a successful `set(key, v)`, `get(key, d)` is v. */
  lemma {:induction false} SetThenGet(settings: map<string, Setting>, key: string, value: Setting, default: Setting)
    requires SetKey(settings, key, value).Some?
    ensures GetKey(SetKey(settings, key, value).value, key, default) == value
  {
    SetThenGetPath(settings, Split(key), value);
  }

  /** Two paths that part ways at some position. */
  predicate Diverge(p: seq<string>, q: seq<string>) {
    exists i :: 0 <= i < |p| && i < |q| && p[i] != q[i]
  }

  /** A set changes nothing off its own path: every path that parts ways
      with it reads as before. */
  lemma {:induction false} SetLeavesOthers(m: map<string, Setting>, parts: seq<string>, value: Setting, q: seq<string>)
    requires |parts| >= 1 && SetPath(m, parts, value).Some? && Diverge(parts, q)
    ensures GetPath(Table(SetPath(m, parts, value).value), q) == GetPath(Table(m), q)
    decreases |parts|
  {
    var m' := SetPath(m, parts, value).value;
    var i :| 0 <= i < |parts| && i < |q| && parts[i] != q[i];
    if parts[0] != q[0] {
      assert q[0] in m' <==> q[0] in m;
    } else {
      assert i > 0;
      var child := if parts[0] in m then m[parts[0]] else Table(map[]);
      assert Diverge(parts[1..], q[1..]) by {
        assert parts[1..][i - 1] != q[1..][i - 1];
      }
      SetLeavesOthers(child.entries, parts[1..], value, q[1..]);
      if parts[0] !in m {
        assert GetPath(Table(map[]), q[1..]) == None;
      }
    }
  }

  /** Every existing value strictly before the end of the path is a table. */
  predicate PathOpen(m: map<string, Setting>, parts: seq<string>) {
    forall j :: 1 <= j < |parts| ==> var v := GetPath(Table(m), parts[..j]); v.Some? ==> v.value.Table?
  }

  /** Walking one more part is walking from the child. */
  lemma {:induction false} GetPathStep(m: map<string, Setting>, parts: seq<string>, j: nat)
    requires 1 <= j <= |parts| && parts[0] in m
    ensures GetPath(Table(m), parts[..j]) == GetPath(m[parts[0]], parts[1..][..j - 1])
  {
    assert parts[..j][0] == parts[0];
    assert parts[..j][1..] == parts[1..][..j - 1];
  }

  /** Nothing below a missing key can be read. */
  lemma {:induction false} GetPathMissing(m: map<string, Setting>, parts: seq<string>, j: nat)
    requires 1 <= j <= |parts| && parts[0] !in m
    ensures GetPath(Table(m), parts[..j]) == None
  {
    assert parts[..j][0] == parts[0];
  }

  /** A set succeeds exactly when every existing value on the way is a
      table; in particular it always succeeds when it creates the rest. */
  lemma {:induction false} SetSucceedsIff(m: map<string, Setting>, parts: seq<string>, value: Setting)
    requires |parts| >= 1
    ensures SetPath(m, parts, value).Some? <==> PathOpen(m, parts)
    decreases |parts|
  {
    if |parts| > 1 {
      var rest := parts[1..];
      if parts[0] in m {
        var child := m[parts[0]];
        GetPathStep(m, parts, 1);
        assert parts[1..][..0] == [];
        if child.Table? {
          SetSucceedsIff(child.entries, rest, value);
          forall j | 1 <= j < |parts|
            ensures GetPath(Table(m), parts[..j]) == GetPath(child, rest[..j - 1])
          {
            GetPathStep(m, parts, j);
          }
          assert child == Table(child.entries);
          if PathOpen(m, parts) {
            forall j | 1 <= j < |rest| ensures var v := GetPath(child, rest[..j]); v.Some? ==> v.value.Table? {
              assert GetPath(Table(m), parts[..j + 1]) == GetPath(child, rest[..j]);
            }
          }
          if PathOpen(child.entries, rest) {
            forall j | 1 <= j < |parts| ensures var v := GetPath(Table(m), parts[..j]); v.Some? ==> v.value.Table? {
              if j > 1 {
                assert GetPath(Table(m), parts[..j]) == GetPath(child, rest[..j - 1]);
              }
            }
          }
        } else {
          assert !PathOpen(m, parts) by {
            assert GetPath(Table(m), parts[..1]) == Some(child);
          }
        }
      } else {
        var empty: map<string, Setting> := map[];
        SetSucceedsIff(empty, rest, value);
        forall j | 1 <= j < |rest| ensures GetPath(Table(empty), rest[..j]) == None {
          assert rest[..j][0] !in empty;
        }
        forall j | 1 <= j < |parts| ensures GetPath(Table(m), parts[..j]) == None {
          GetPathMissing(m, parts, j);
        }
      }
    }
  }

  // ------------------------------------------------------------- the manager

  /** `DEFAULT_SETTINGS`. */
  const DefaultEntries: map<string, Setting> := map[
    "output_directory" := Text("~/Pictures/FilmScans"),
    "live_view_quality" := Text("0640x0480"),
    "quality_index" := Number(1),
    "show_fps" := Flag(true),
    "auto_invert_negatives" := Flag(false),
    "create_dated_subdirectories" := Flag(true),
    "prefer_raw_files" := Flag(true),
    "auto_start_live_view" := Flag(true),
    "ui" := Table(DefaultUi)]

  /** The "ui" table of `DEFAULT_SETTINGS`. */
  const DefaultUi: map<string, Setting> := map[
    "show_camera_status" := Flag(true),
    "camera_status_height" := Number(30),
    "status_bar_color" := Text("#222222"),
    "status_text_color" := Text("#ffffff")]

  /** The top-level keys holding a nested table: those a one-level copy
      shares with the table copied. */
  function TablesOf(m: map<string, Setting>): (r: set<string>)
    ensures forall k :: k in r <==> k in m && m[k].Table?
  {
    set k | k in m && m[k].Table?
  }

  /** The class-level defaults table, which every manager copies from. */
  class DefaultSettings {
    var entries: map<string, Setting>

    constructor ()
      ensures entries == DefaultEntries
    {
      entries := DefaultEntries;
    }
  }

  class SettingsManager {
    const defaults: DefaultSettings
    var settings: map<string, Setting>
    /** Top-level keys whose table is the same object as the defaults' one. */
    var shared: set<string>

    /** A shared key holds the same table here and in the defaults. */
    ghost predicate Valid()
      reads this`settings, this`shared, defaults`entries
    {
      forall k :: k in shared ==>
        k in settings && k in defaults.entries && settings[k] == defaults.entries[k] && settings[k].Table?
    }

    /** Starts from a one-level copy of the defaults (the settings file is
        not read here). */
    constructor (defaults: DefaultSettings)
      ensures Valid() && this.defaults == defaults
      ensures settings == defaults.entries && shared == TablesOf(defaults.entries)
    {
      this.defaults := defaults;
      settings := defaults.entries;
      shared := TablesOf(defaults.entries);
    }

    /** `get(key, default)`. */
    function Get(key: string, default: Setting): (r: Setting)
      reads this`settings
      ensures r == GetPath(Table(settings), Split(key)).GetOr(default)
    {
      GetKey(settings, key, default)
    }

    /** `set(key, value)`; `ok` is false where the source raises. A dotted
        set under a shared table also changes the defaults; a plain set
        replaces the top-level value, which is then no longer shared. */
    method Set(key: string, value: Setting) returns (ok: bool)
      requires Valid()
      modifies this`settings, this`shared, defaults`entries
      ensures Valid()
      ensures ok <==> SetKey(old(settings), key, value).Some?
      ensures ok <==> PathOpen(old(settings), Split(key))
      ensures ok ==> settings == SetKey(old(settings), key, value).value && forall d :: Get(key, d) == value
      ensures !ok ==> settings == old(settings) && shared == old(shared) && defaults.entries == old(defaults.entries)
      ensures ok && '.' !in key ==> shared == old(shared) - {key} && defaults.entries == old(defaults.entries)
      ensures ok && '.' in key ==>
        var first := Split(key)[0];
        && shared == old(shared)
        && defaults.entries == if first in old(shared) then old(defaults.entries)[first := settings[first]] else old(defaults.entries)
    {
      SetSucceedsIff(settings, Split(key), value);
      var updated := SetKey(settings, key, value);
      if updated.None? {
        return false;
      }
      forall d ensures GetKey(updated.value, key, d) == value {
        SetThenGet(settings, key, value, d);
      }
      var first := Split(key)[0];
      if '.' !in key {
        assert first == key;
        shared := shared - {key};
      } else if first in shared {
        assert updated.value[first].Table?;
        defaults.entries := defaults.entries[first := updated.value[first]];
      }
      settings := updated.value;
      ok := true;
    }

    /** `get_all`: the whole settings map (a value, so a copy). */
    function GetAll(): (r: map<string, Setting>)
      reads this`settings
      ensures forall k :: k in r <==> k in settings
      ensures forall k, d :: '.' !in k ==> Get(k, d) == if k in r then r[k] else d
    {
      settings
    }

    /** Back to a one-level copy of the defaults as they are now. */
    method ResetToDefaults()
      modifies this`settings, this`shared
      ensures Valid()
      ensures settings == defaults.entries && shared == TablesOf(defaults.entries)
    {
      settings := defaults.entries;
      shared := TablesOf(defaults.entries);
    }
  }

  /** A dotted set under a table shared with the defaults outlives a reset:
      the set wrote into the defaults, which the reset copies back. */
  method SetSharedThenReset(manager: SettingsManager, first: string, second: string, value: Setting)
    returns (after: Setting)
    requires manager.Valid() && first in manager.shared && '.' !in first && '.' !in second
    modifies manager`settings, manager`shared, manager.defaults`entries
    ensures manager.Valid() && after == value
  {
    var key := first + "." + second;
    var path := [first, second];
    SplitTwo(first, second);
    var start := manager.settings;
    assert PathOpen(start, path) by {
      assert path[..1] == [first];
    }
    SetSucceedsIff(start, path, value);
    SetThenGetPath(start, path, value);
    var ok := manager.Set(key, value);
    var changed := manager.settings[first];
    assert GetPath(Table(manager.settings), path) == GetPath(changed, path[1..]);
    manager.ResetToDefaults();
    assert manager.settings[first] == changed;
    assert GetPath(Table(manager.settings), path) == GetPath(changed, path[1..]);
    after := manager.Get(key, value);
  }

  /** The shipped defaults hold a "ui" table whose status bar colour is
      "#222222". */
  lemma {:induction false} DefaultStatusBarColor(first: string, second: string)
    requires first == "ui" && second == "status_bar_color"
    ensures first in DefaultEntries && DefaultEntries[first].Table?
    ensures GetKey(DefaultEntries, first + "." + second, Text("")) == Text("#222222")
  {
    assert DefaultEntries[first] == Table(DefaultUi);
    assert DefaultUi[second] == Text("#222222");
    SplitTwo(first, second);
    assert [first, second][1..] == [second];
    assert GetPath(Table(DefaultEntries), [first, second]) == GetPath(Table(DefaultUi), [second]);
    assert [second][1..] == [];
    assert GetPath(Table(DefaultUi), [second]) == Some(Text("#222222"));
    assert Split(first + "." + second) == [first, second];
  }

  /** With the shipped defaults: a new colour set through "ui.status_bar_color"
      is still there after a reset to the defaults. */
  method StatusBarColorSurvivesReset(color: Setting) returns (before: Setting, after: Setting)
    ensures before == Text("#222222") && after == color
  {
    var first, second := "ui", "status_bar_color";
    var defaults := new DefaultSettings();
    var manager := new SettingsManager(defaults);
    DefaultStatusBarColor(first, second);
    before := manager.Get(first + "." + second, Text(""));
    after := SetSharedThenReset(manager, first, second, color);
  }
}
