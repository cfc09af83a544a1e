/** film_scanner/control/keyboard_controller.py: key bindings that run a
    command depending on the application state. Commands are identified by
    number; running one is recorded in a log. The window-system binding
    table is modelled as a map from the key event bound to the key name the
    press handler receives. */
module Keyboard {
  import opened StateMachine
  import opened Optional

  /** A command handler, by identity. */
  type Command = nat

  predicate IsUpper(c: char) {
    'A' <= c <= 'Z'
  }

  predicate IsLower(c: char) {
    'a' <= c <= 'z'
  }

  /** `isalpha` on the ASCII letters. */
  predicate IsAlpha(c: char) {
    IsUpper(c) || IsLower(c)
  }

  /** ASCII `lower()` of one character. */
  function LowerChar(c: char): (r: char)
    ensures IsUpper(c) ==> IsLower(r) && r as int == c as int + 32
    ensures !IsUpper(c) ==> r == c
  {
    if IsUpper(c) then (c as int + 32) as char else c
  }

  /** ASCII `upper()` of one character. */
  function UpperChar(c: char): (r: char)
    ensures IsLower(c) ==> IsUpper(r) && LowerChar(r) == c
    ensures !IsLower(c) ==> r == c
  {
    if IsLower(c) then (c as int - 32) as char else c
  }

  /** The key name a binding made for `key` hands to the press handler:
      a single character in lower case, any longer name such as
      "<Escape>" as it is. */
  function DispatchedKey(key: string): (k: string)
    ensures |k| == |key|
    ensures |key| == 1 ==> k == [LowerChar(key[0])]
    ensures |key| != 1 ==> k == key
  {
    if |key| == 1 then [LowerChar(key[0])] else key
  }

  /** A key name the press handler can receive: never a single upper-case
      letter. */
  predicate Dispatchable(k: string) {
    |k| == 1 ==> !IsUpper(k[0])
  }

  /** The bindings after `_bind_key(key)`: the lower-case form of a single
      character, and for a letter also its upper-case form (for when shift
      is held), both hand on the lower-case key; a longer name hands on
      itself. Earlier bindings of the same events are replaced. */
  function BindKey(bindings: map<string, string>, key: string): (r: map<string, string>)
    ensures DispatchedKey(key) in r && r[DispatchedKey(key)] == DispatchedKey(key)
    ensures |key| == 1 && IsAlpha(key[0]) ==>
      var shifted := [UpperChar(LowerChar(key[0]))];
      shifted in r && r[shifted] == DispatchedKey(key)
    ensures forall e :: e in bindings ==> e in r
    ensures forall e :: e in r && e !in bindings ==> r[e] == DispatchedKey(key)
  {
    var k := DispatchedKey(key);
    var b := bindings[k := k];
    if |key| == 1 && IsAlpha(key[0]) then b[[UpperChar(key[0])] := k] else b
  }

  /** Every binding hands on a key the press handler can receive. */
  predicate BindingsDispatchable(bindings: map<string, string>) {
    forall e :: e in bindings ==> Dispatchable(bindings[e])
  }

  /** Binding a key keeps every binding dispatchable. */
  lemma {:induction false} BindKeepsDispatchable(bindings: map<string, string>, key: string)
    requires BindingsDispatchable(bindings)
    ensures BindingsDispatchable(BindKey(bindings, key))
  {
    var k := DispatchedKey(key);
    assert Dispatchable(k);
    if |key| == 1 && IsAlpha(key[0]) {
      assert UpperChar(key[0]) == UpperChar(LowerChar(key[0]));
    }
  }

  /** A command registered under a single upper-case letter is never run:
      no binding hands that key to the press handler, which looks commands
      up only by the key it receives. */
  lemma {:induction false} UpperCaseKeyNeverDispatched(bindings: map<string, string>, c: char)
    requires BindingsDispatchable(bindings) && IsUpper(c)
    ensures forall e :: e in bindings ==> bindings[e] != [c]
  {
    forall e | e in bindings ensures bindings[e] != [c] {
      assert Dispatchable(bindings[e]);
    }
  }

  /** The command map after registering `handler` for `key` in each of
      `states`, in order. */
  function WithStates(commands: map<(string, AppState), Command>, key: string, states: seq<AppState>, handler: Command)
    : (r: map<(string, AppState), Command>)
    ensures forall s :: s in states ==> (key, s) in r && r[(key, s)] == handler
    ensures forall k, s :: (k, s) in commands && (k != key || s !in states) ==> (k, s) in r && r[(k, s)] == commands[(k, s)]
    ensures forall k, s :: (k, s) in r ==> (k, s) in commands || (k == key && s in states)
    decreases |states|
  {
    if states == [] then commands
    else
      var front := states[..|states| - 1];
      assert forall s :: s in states ==> s in front || s == states[|states| - 1];
      WithStates(commands, key, front, handler)[(key, states[|states| - 1]) := handler]
  }

  /** Global registrations of each (key, handler) entry in turn. */
  function WithGlobals(globals: map<string, Command>, entries: seq<(string, Command)>): (r: map<string, Command>)
    ensures forall k :: k in r <==> k in globals || exists i :: 0 <= i < |entries| && entries[i].0 == k
    decreases |entries|
  {
    if entries == [] then globals
    else
      var front := entries[..|entries| - 1];
      var last := entries[|entries| - 1];
      assert forall i :: 0 <= i < |front| ==> front[i] == entries[i];
      WithGlobals(globals, front)[last.0 := last.1]
  }

  /** Registrations of each (key, handler) entry for one state, in turn. */
  function WithStateEntries(commands: map<(string, AppState), Command>, state: AppState, entries: seq<(string, Command)>)
    : (r: map<(string, AppState), Command>)
    decreases |entries|
  {
    if entries == [] then commands
    else
      var last := entries[|entries| - 1];
      WithStates(WithStateEntries(commands, state, entries[..|entries| - 1]), last.0, [state], last.1)
  }

  /** The bindings after binding each key of the entries in turn. */
  function BindAll(bindings: map<string, string>, entries: seq<(string, Command)>): map<string, string>
    decreases |entries|
  {
    if entries == [] then bindings
    else BindKey(BindAll(bindings, entries[..|entries| - 1]), entries[|entries| - 1].0)
  }

  /** Binding any number of keys keeps every binding dispatchable. */
  lemma {:induction false} BindAllKeepsDispatchable(bindings: map<string, string>, entries: seq<(string, Command)>)
    requires BindingsDispatchable(bindings)
    ensures BindingsDispatchable(BindAll(bindings, entries))
    decreases |entries|
  {
    if entries != [] {
      BindAllKeepsDispatchable(bindings, entries[..|entries| - 1]);
      BindKeepsDispatchable(BindAll(bindings, entries[..|entries| - 1]), entries[|entries| - 1].0);
    }
  }

  /** The command `_handle_key_press(key)` runs in `state`: the command
      for (key, state) if there is one, else the global command for key,
      else none. */
  function Lookup(commands: map<(string, AppState), Command>, globals: map<string, Command>, key: string, state: AppState)
    : (r: Option<Command>)
    ensures (key, state) in commands ==> r == Some(commands[(key, state)])
    ensures (key, state) !in commands && key in globals ==> r == Some(globals[key])
    ensures r == None <==> (key, state) !in commands && key !in globals
  {
    if (key, state) in commands then Some(commands[(key, state)])
    else if key in globals then Some(globals[key])
    else None
  }

  class KeyboardController<V> {
    const stateManager: StateManager<V>
    /** Commands per (key, state). */
    var commands: map<(string, AppState), Command>
    /** Commands for every state, per key. */
    var globalCommands: map<string, Command>
    /** Window-system key event bound to the key name handed on. */
    var bindings: map<string, string>
    /** Every command run, in order. */
    var ran: seq<Command>

    ghost predicate Valid()
      reads this`bindings
    {
      BindingsDispatchable(bindings)
    }

    constructor (stateManager: StateManager<V>)
      ensures Valid() && this.stateManager == stateManager
      ensures commands == map[] && globalCommands == map[] && bindings == map[] && ran == []
    {
      this.stateManager := stateManager;
      commands := map[];
      globalCommands := map[];
      bindings := map[];
      ran := [];
    }

    /** Without states the command becomes global; with states it is
        written once per state, replacing any earlier one. Either way the
        key is then bound. */
    method RegisterCommand(key: string, handler: Command, states: Option<seq<AppState>>)
      requires Valid()
      modifies this`commands, this`globalCommands, this`bindings
      ensures Valid()
      ensures states.None? ==> globalCommands == old(globalCommands)[key := handler] && commands == old(commands)
      ensures states.Some? ==>
        commands == WithStates(old(commands), key, states.value, handler) && globalCommands == old(globalCommands)
      ensures bindings == BindKey(old(bindings), key)
    {
      if states.None? {
        globalCommands := globalCommands[key := handler];
      } else {
        var list := states.value;
        var i := 0;
        while i < |list|
          invariant 0 <= i <= |list|
          invariant commands == WithStates(old(commands), key, list[..i], handler)
          invariant globalCommands == old(globalCommands) && bindings == old(bindings)
        {
          assert list[..i + 1][..i] == list[..i];
          commands := commands[(key, list[i]) := handler];
          i := i + 1;
        }
        assert list[..i] == list;
      }
      BindKeepsDispatchable(bindings, key);
      bindings := BindKey(bindings, key);
    }

    /** Runs the command that the current state selects for the key, if any. */
    method HandleKeyPress(key: string)
      modifies this`ran
      ensures var cmd := Lookup(commands, globalCommands, key, stateManager.currentState);
        ran == old(ran) + (if cmd.Some? then [cmd.value] else [])
    {
      var state := stateManager.currentState;
      if (key, state) in commands {
        ran := ran + [commands[(key, state)]];
        return;
      }
      if key in globalCommands {
        ran := ran + [globalCommands[key]];
        return;
      }
    }

    /** Registers every entry as a global command, in order. */
    method RegisterDefaultCommands(commandMap: seq<(string, Command)>)
      requires Valid()
      modifies this`commands, this`globalCommands, this`bindings
      ensures Valid()
      ensures globalCommands == WithGlobals(old(globalCommands), commandMap)
      ensures commands == old(commands)
      ensures bindings == BindAll(old(bindings), commandMap)
    {
      var i := 0;
      while i < |commandMap|
        invariant 0 <= i <= |commandMap|
        invariant Valid()
        invariant globalCommands == WithGlobals(old(globalCommands), commandMap[..i])
        invariant bindings == BindAll(old(bindings), commandMap[..i])
        invariant commands == old(commands)
      {
        assert commandMap[..i + 1][..i] == commandMap[..i];
        RegisterCommand(commandMap[i].0, commandMap[i].1, None);
        i := i + 1;
      }
      assert commandMap[..i] == commandMap;
    }

    /** Registers every entry for the one state, as `register_command` with
        the list [state] would, in order. */
    method RegisterStateCommands(state: AppState, commandMap: seq<(string, Command)>)
      requires Valid()
      modifies this`commands, this`globalCommands, this`bindings
      ensures Valid()
      ensures commands == WithStateEntries(old(commands), state, commandMap)
      ensures globalCommands == old(globalCommands)
      ensures bindings == BindAll(old(bindings), commandMap)
    {
      var i := 0;
      while i < |commandMap|
        invariant 0 <= i <= |commandMap|
        invariant Valid()
        invariant commands == WithStateEntries(old(commands), state, commandMap[..i])
        invariant bindings == BindAll(old(bindings), commandMap[..i])
        invariant globalCommands == old(globalCommands)
      {
        assert commandMap[..i + 1][..i] == commandMap[..i];
        RegisterCommand(commandMap[i].0, commandMap[i].1, Some([state]));
        i := i + 1;
      }
      assert commandMap[..i] == commandMap;
    }
  }
}
