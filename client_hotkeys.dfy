/** The second client's hotkey manager (`ariel_client/src/core/hotkey_manager.py`):
    every `hotkey_*` setting of the active profile becomes a global hotkey that
    reports the setting's name as its action. */
module ClientHotkeys {
  import opened Wrappers
  import opened PyDict
  import opened Json
  import opened Text
  import opened HotkeyFormat
  import opened ProfileConfig

  const HotkeyPrefix: string := "hotkey_"

  /** The action names the tray icon's handler compares against. */
  const TrayActions: set<string> := {"toggle_stt", "toggle_ocr", "toggle_setup", "quit_app"}

  /** A profile entry `load_hotkeys` turns into a hotkey: its key starts with
      `hotkey_` and its value is a non-empty string. */
  predicate Bound(e: (string, Value)) {
    StartsWith(e.0, HotkeyPrefix) && e.1.Str? && e.1.s != []
  }

  /** Entry `e` binds the (lower-cased) hotkey `h`. */
  predicate BindsTo(e: (string, Value), h: string) {
    Bound(e) && Lower(e.1.s) == h
  }

  /** The `self.hotkeys` dictionary `load_hotkeys` builds from a profile, entry
      by entry in profile order. Every action is the full name of a profile
      setting, prefix included. */
  function HotkeyTable(profile: Profile): (t: Dict<string, string>)
    ensures forall h :: Get(t, h).Some? ==> StartsWith(Get(t, h).value, HotkeyPrefix) && Get(t, h).value in Keys(profile)
    decreases |profile|
  {
    if profile == [] then []
    else
      var front := profile[..|profile| - 1];
      var e := profile[|profile| - 1];
      assert Keys(profile) == Keys(front) + [e.0];
      var prev := HotkeyTable(front);
      if Bound(e) then Put(prev, Lower(e.1.s), e.0) else prev
  }

  lemma HotkeyTableNext(profile: Profile, i: nat)
    requires i < |profile|
    ensures HotkeyTable(profile[..i + 1]) ==
      if Bound(profile[i]) then Put(HotkeyTable(profile[..i]), Lower(profile[i].1.s), profile[i].0)
      else HotkeyTable(profile[..i])
  {
    assert profile[..i + 1][..i] == profile[..i];
  }

  /** When several settings bind the same hotkey (ignoring case), the last one
      in profile order owns it. */
  lemma {:induction false} LaterSettingWins(profile: Profile, h: string, i: nat)
    requires i < |profile| && BindsTo(profile[i], h)
    requires forall j :: i < j < |profile| ==> !BindsTo(profile[j], h)
    ensures Get(HotkeyTable(profile), h) == Some(profile[i].0)
    decreases |profile|
  {
    var front := profile[..|profile| - 1];
    var e := profile[|profile| - 1];
    if i < |profile| - 1 {
      assert !BindsTo(e, h);
      assert front[i] == profile[i];
      LaterSettingWins(front, h, i);
    }
  }

  /** A hotkey no setting binds is not in the table. */
  lemma {:induction false} UnboundHotkey(profile: Profile, h: string)
    requires forall j :: 0 <= j < |profile| ==> !BindsTo(profile[j], h)
    ensures Get(HotkeyTable(profile), h) == None
    decreases |profile|
  {
    if profile != [] {
      var front := profile[..|profile| - 1];
      assert forall j :: 0 <= j < |front| ==> front[j] == profile[j];
      UnboundHotkey(front, h);
      assert !BindsTo(profile[|profile| - 1], h);
    }
  }

  /** None of the actions the table reports is a name the tray icon handles:
      they all keep the `hotkey_` prefix. */
  lemma ActionsMissTray(profile: Profile, h: string, a: string)
    requires Get(HotkeyTable(profile), h) == Some(a)
    ensures a !in TrayActions
  {
    var t := HotkeyTable(profile);
    assert Get(t, h).Some? && Get(t, h).value == a;
    assert StartsWith(a, HotkeyPrefix);
    assert a[0] == HotkeyPrefix[0] == 'h';
    forall x | x in TrayActions ensures x[0] != 'h' {
    }
  }

  /** The `hotkey_map` that `start` hands to `pynput`: each table entry in
      order, its hotkey in `pynput` notation. Every hotkey of the table is
      registered, and every registered action comes from the table; two
      hotkeys with the same notation collapse onto one entry. */
  function ListenerMap(table: Dict<string, string>): (m: Dict<string, string>)
    ensures m == [] <==> table == []
    decreases |table|
  {
    if table == [] then []
    else
      var front := table[..|table| - 1];
      var e := table[|table| - 1];
      assert forall i :: 0 <= i < |front| ==> table[i] == front[i];
      Put(ListenerMap(front), Format(e.0), e.1)
  }

  lemma ListenerMapNext(table: Dict<string, string>, i: nat)
    requires i < |table|
    ensures ListenerMap(table[..i + 1]) == Put(ListenerMap(table[..i]), Format(table[i].0), table[i].1)
  {
    assert table[..i + 1][..i] == table[..i];
  }

  /** Every hotkey of the table is registered, in `pynput` notation. */
  lemma {:induction false} ListenerKeys(table: Dict<string, string>, i: nat)
    requires i < |table|
    ensures Format(table[i].0) in Keys(ListenerMap(table))
    decreases |table|
  {
    var front := table[..|table| - 1];
    var e := table[|table| - 1];
    if i < |table| - 1 {
      assert front[i] == table[i];
      ListenerKeys(front, i);
    }
  }

  /** Every action registered with `pynput` is the action of some table entry. */
  lemma {:induction false} ListenerActions(table: Dict<string, string>, p: string, a: string)
    requires Get(ListenerMap(table), p) == Some(a)
    ensures exists i :: 0 <= i < |table| && table[i].1 == a
    decreases |table|
  {
    var front := table[..|table| - 1];
    var e := table[|table| - 1];
    if p == Format(e.0) {
      assert table[|table| - 1].1 == a;
    } else {
      ListenerActions(front, p, a);
      var i :| 0 <= i < |front| && front[i].1 == a;
      assert table[i].1 == a;
    }
  }

  /** The `HotkeyManager`: the configuration store it reads, the hotkey table,
      and the running listener, given here as the hotkey map it was started with. */
  class HotkeyManager {
    const store: ConfigManager
    var hotkeys: Dict<string, string>
    var listener: Option<Dict<string, string>>

    /** The fields `__init__` sets before it loads the table. */
    constructor Empty(store: ConfigManager)
      ensures this.store == store && hotkeys == [] && listener == None
    {
      this.store := store;
      hotkeys := [];
      listener := None;
    }

    /** `HotkeyManager(config_manager)`: `None` when loading the table raises
        out of the constructor. */
    static method Open(store: ConfigManager) returns (m: Option<HotkeyManager>)
      ensures m.None? <==> ActiveProfile(store.config).Raises?
      ensures m.Some? ==>
        && fresh(m.value) && m.value.store == store && m.value.listener == None
        && m.value.hotkeys == HotkeyTable(ActiveProfile(store.config).value)
    {
      var manager := new HotkeyManager.Empty(store);
      var raised := manager.LoadHotkeys();
      if raised {
        return None;
      }
      return Some(manager);
    }

    /** `load_hotkeys()`: the active profile is read first, so when reading it
        raises, the table is left as it was. */
    method LoadHotkeys() returns (raised: bool)
      modifies this
      ensures raised <==> ActiveProfile(store.config).Raises?
      ensures raised ==> hotkeys == old(hotkeys)
      ensures !raised ==> hotkeys == HotkeyTable(ActiveProfile(store.config).value)
      ensures listener == old(listener)
    {
      var active := ActiveProfile(store.config);
      if active.Raises? {
        return true;
      }
      hotkeys := BuildHotkeyTable(active.value);
      return false;
    }

    /** The loop of `load_hotkeys()` over the profile's settings. */
    static method BuildHotkeyTable(profile: Profile) returns (table: Dict<string, string>)
      ensures table == HotkeyTable(profile)
    {
      table := [];
      var i := 0;
      while i < |profile|
        invariant 0 <= i <= |profile|
        invariant table == HotkeyTable(profile[..i])
      {
        HotkeyTableNext(profile, i);
        var (key, value) := profile[i];
        if StartsWith(key, HotkeyPrefix) && value.Str? && value.s != [] {
          table := Put(table, Lower(value.s), key);
        }
        i := i + 1;
      }
      assert profile[..|profile|] == profile;
    }

    /** The loop of `start()` that builds `hotkey_map`. */
    static method BuildListenerMap(table: Dict<string, string>) returns (m: Dict<string, string>)
      ensures m == ListenerMap(table)
    {
      m := [];
      var i := 0;
      while i < |table|
        invariant 0 <= i <= |table|
        invariant m == ListenerMap(table[..i])
      {
        var (h, action) := table[i];
        var p := ToPynputFormat(h);
        ListenerMapNext(table, i);
        m := Put(m, p, action);
        i := i + 1;
      }
      assert table[..|table|] == table;
    }

    /** `start()`: any running listener is stopped first; with no hotkeys no
        listener is started. `accepted` says whether `pynput` accepts the
        hotkey map; when it does not, the failure is caught and no listener is kept. */
    method Start(accepted: bool)
      modifies this
      ensures hotkeys == old(hotkeys)
      ensures listener == if hotkeys == [] || !accepted then None else Some(ListenerMap(hotkeys))
    {
      if listener.Some? {
        Stop();
      }
      var m := BuildListenerMap(hotkeys);
      if m == [] {
        return;
      }
      if accepted {
        listener := Some(m);
      }
    }

    /** `stop()`. */
    method Stop()
      modifies this
      ensures hotkeys == old(hotkeys) && listener == None
    {
      if listener.Some? {
        listener := None;
      }
    }

    /** `reload_hotkeys()`: stop, reload the table, start. When reading the
        active profile raises, the exception leaves the listener stopped and
        the table as it was. */
    method ReloadHotkeys(accepted: bool) returns (raised: bool)
      modifies this
      ensures raised <==> ActiveProfile(store.config).Raises?
      ensures raised ==> hotkeys == old(hotkeys) && listener == None
      ensures !raised ==>
        && hotkeys == HotkeyTable(ActiveProfile(store.config).value)
        && listener == if hotkeys == [] || !accepted then None else Some(ListenerMap(hotkeys))
    {
      Stop();
      raised := LoadHotkeys();
      if raised {
        return;
      }
      Start(accepted);
    }
  }

  lemma FormatPartsAt(s: string, i: nat)
    requires i < |Split(Lower(s), '+')|
    ensures FormatParts(s)[i] == FormatPart(Split(Lower(s), '+')[i])
  {
  }

  /** `_to_pynput_format(hotkey_str)`: the loop over the parts. */
  method ToPynputFormat(s: string) returns (r: string)
    ensures r == Format(s)
  {
    var parts := Split(Lower(s), '+');
    var formatted: seq<string> := [];
    var i := 0;
    while i < |parts|
      invariant 0 <= i <= |parts|
      invariant formatted == FormatParts(s)[..i]
    {
      var part := Strip(parts[i]);
      FormatPartsAt(s, i);
      assert FormatParts(s)[..i + 1] == FormatParts(s)[..i] + [FormatPart(parts[i])];
      if part in Modifiers {
        formatted := formatted + ["<" + part + ">"];
      } else {
        formatted := formatted + [part];
      }
      i := i + 1;
    }
    assert formatted == FormatParts(s);
    r := Join(formatted, "+");
  }
}
