/** The first client's hotkey manager (`src/hotkey_manager.py`): three fixed
    actions, each bound to the hotkey the flat configuration names for it. */
module LegacyHotkeys {
  import opened Wrappers
  import opened PyDict
  import opened Json
  import opened Text
  import opened HotkeyFormat

  /** The slot a registered hotkey calls. */
  datatype Action = OnStart | OnStop | OnSetup

  const StartKey: string := "hotkey_start_translate"
  const StopKey: string := "hotkey_stop_translate"
  const SetupKey: string := "hotkey_toggle_setup_window"

  /** `parse_hotkey(value)`: `None` for a missing, empty or non-string value,
      otherwise the value in `pynput` notation. */
  function ParseHotkey(v: Option<Value>): (r: Option<string>)
    ensures r.Some? <==> v.Some? && v.value.Str? && v.value.s != []
    ensures r.Some? ==> |Split(r.value, '+')| == |Split(v.value.s, '+')|
    ensures r.Some? ==> Format(r.value) == r.value
  {
    if v.Some? && v.value.Str? && v.value.s != [] then
      SplitFormat(v.value.s);
      FormatTwice(v.value.s);
      Some(Format(v.value.s))
    else None
  }

  /** The dictionary literal `parsed_map`: three assignments in order, so a
      later action takes over the entry of an earlier one with the same key. */
  function ParsedMap(config: Dict<string, Value>): Dict<Option<string>, Action> {
    var start := ParseHotkey(Get(config, StartKey));
    var stop := ParseHotkey(Get(config, StopKey));
    var setup := ParseHotkey(Get(config, SetupKey));
    Put(Put(Put([], start, OnStart), stop, OnStop), setup, OnSetup)
  }

  /** `{k: v for k, v in d.items() if k}`: entries whose key is `None` or the
      empty string are dropped. */
  function KeepTruthy(d: Dict<Option<string>, Action>): (r: Dict<string, Action>)
    ensures forall i :: 0 <= i < |r| ==> r[i].0 != []
    ensures forall h :: Get(r, h) == if h == [] then None else Get(d, Some(h))
  {
    if d == [] then []
    else
      var rest := KeepTruthy(d[1..]);
      if d[0].0.Some? && d[0].0.value != [] then
        var r := [(d[0].0.value, d[0].1)] + rest;
        assert r[1..] == rest;
        r
      else rest
  }

  /** `registered_hotkeys`. */
  function Registered(config: Dict<string, Value>): Dict<string, Action> {
    KeepTruthy(ParsedMap(config))
  }

  /** The action a hotkey calls, read off the three settings directly: the setup
      hotkey wins over the stop hotkey, which wins over the start hotkey, and
      an unset hotkey or one that formats to the empty string calls nothing. */
  function Intended(config: Dict<string, Value>, h: string): Option<Action> {
    if h == [] then None
    else if ParseHotkey(Get(config, SetupKey)) == Some(h) then Some(OnSetup)
    else if ParseHotkey(Get(config, StopKey)) == Some(h) then Some(OnStop)
    else if ParseHotkey(Get(config, StartKey)) == Some(h) then Some(OnStart)
    else None
  }

  /** `registered_hotkeys` binds exactly the intended actions, and never the
      empty hotkey. */
  lemma RegisteredBindings(config: Dict<string, Value>, h: string)
    ensures Get(Registered(config), h) == Intended(config, h)
    ensures forall i :: 0 <= i < |Registered(config)| ==> Registered(config)[i].0 != []
  {
    var start := ParseHotkey(Get(config, StartKey));
    var stop := ParseHotkey(Get(config, StopKey));
    var setup := ParseHotkey(Get(config, SetupKey));
    var d := ParsedMap(config);
    assert d == Put(Put(Put([], start, OnStart), stop, OnStop), setup, OnSetup);
    assert Registered(config) == KeepTruthy(d);
    if h != [] {
      LaterWins(start, stop, setup, Some(h));
      assert Get(Registered(config), h) == Get(d, Some(h));
    }
  }

  /** Three assignments in order: the last one to a key decides its action. */
  lemma LaterWins(start: Option<string>, stop: Option<string>, setup: Option<string>, k: Option<string>)
    ensures Get(Put(Put(Put([], start, OnStart), stop, OnStop), setup, OnSetup), k)
      == if setup == k then Some(OnSetup) else if stop == k then Some(OnStop)
         else if start == k then Some(OnStart) else None
  {
    var d1 := Put([], start, OnStart);
    var d2 := Put(d1, stop, OnStop);
    assert Get(d1, k) == if start == k then Some(OnStart) else None;
    assert Get(d2, k) == if stop == k then Some(OnStop) else Get(d1, k);
  }

  /** A configuration with no hotkey settings registers nothing. */
  lemma NothingConfigured(config: Dict<string, Value>)
    requires StartKey !in Keys(config) && StopKey !in Keys(config) && SetupKey !in Keys(config)
    ensures Registered(config) == []
  {
    var d := ParsedMap(config);
    assert d == [(None, OnSetup)];
    assert KeepTruthy(d[1..]) == [];
  }

  /** `HotkeyManager`: the registered hotkeys and the running listener, given
      here as the hotkey map it was started with. */
  class HotkeyManager {
    const registered: Dict<string, Action>
    var listener: Option<Dict<string, Action>>

    constructor (config: Dict<string, Value>)
      ensures registered == Registered(config) && listener == None
    {
      listener := None;
      registered := Registered(config);
    }

    /** `start()`: nothing happens when a listener exists or nothing is
        registered. `accepted` says whether `pynput` accepts the hotkey map;
        when it does not, the failure is caught and no listener is kept. */
    method Start(accepted: bool)
      modifies this
      ensures old(listener).Some? || registered == [] ==> listener == old(listener)
      ensures old(listener).None? && registered != [] ==> listener == if accepted then Some(registered) else None
    {
      if listener.Some? || registered == [] {
        return;
      }
      if accepted {
        listener := Some(registered);
      }
    }

    /** `stop()`. */
    method Stop()
      modifies this
      ensures listener == None
    {
      if listener.Some? {
        listener := None;
      }
    }
  }
}
