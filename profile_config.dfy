/** The profile-based configuration store of the Ariel client.

    The configuration is a dictionary of global settings plus a dictionary of
    named profiles, one of which the global `active_profile` entry names. Reads
    look at the global entries first and then at the active profile; writes go
    to one of the two; profiles can be added, removed, renamed and switched.
    Loading merges missing keys in from the defaults without overwriting stored
    values. */
module ProfileConfig {
  import opened Wrappers
  import opened PyDict
  import opened Json
  import opened Text

  type Profile = Dict<string, Value>
  type Profiles = Dict<string, Profile>

  const DefaultProfileName: string := "기본 프로필"
  const ActiveProfileKey: string := "active_profile"
  const ProfilesKey: string := "profiles"
  const FirstRunKey: string := "is_first_run"
  const ThemeColorsKey: string := "custom_theme_colors"

  /** The configuration dictionary with its `profiles` entry held apart from the
      other top-level (global) entries; `profiles == None` when the entry is absent. */
  datatype Config = Config(globals: Dict<string, Value>, profiles: Option<Profiles>)

  /** `self.config.get("profiles", {})`. */
  function ProfilesOf(c: Config): Profiles {
    c.profiles.GetOr([])
  }

  /** The shape every configuration the store produces has: the global entries
      never include `profiles`, and both dictionaries have distinct keys. */
  predicate Valid(c: Config) {
    && ProfilesKey !in Keys(c.globals)
    && DistinctKeys(c.globals)
    && DistinctKeys(ProfilesOf(c))
  }

  /** The default colour scheme of a profile. */
  function ThemeColorDefaults(): Dict<string, Value> {
    [ ("BACKGROUND_PRIMARY", Str("#1e2b37")), ("BACKGROUND_SECONDARY", Str("#283747")),
      ("BACKGROUND_TERTIARY", Str("#212f3c")), ("TEXT_PRIMARY", Str("#eaf2f8")),
      ("TEXT_HEADER", Str("#ffffff")), ("TEXT_MUTED", Str("#85929e")),
      ("INTERACTIVE_NORMAL", Str("#546e7a")), ("INTERACTIVE_HOVER", Str("#607d8b")),
      ("INTERACTIVE_ACCENT", Str("#3498db")), ("INTERACTIVE_ACCENT_HOVER", Str("#5dade2")),
      ("BORDER_COLOR", Str("#3c4f62")) ]
  }

  function OverlayStyle(size: int, background: string): Value {
    Object([ ("font_family", Str("Malgun Gothic")), ("font_size", Int(size)),
             ("font_color", Str("#FFFFFF")), ("background_color", Str(background)) ])
  }

  /** `get_default_profile_settings()`: every setting a profile holds, with its default. */
  function DefaultProfileSettings(): Profile {
    [ ("is_first_run", Bool(true)),
      ("api_base_url", Str("http://127.0.0.1:8000")),
      ("deepl_api_key", Str("")),
      ("source_languages", List([Str("EN-US")])),
      ("target_languages", List([Str("KO")])),
      ("app_theme", Str("dark")),
      ("app_language", Str("en")),
      ("stt_source_language", Str("auto")),
      ("stt_target_language", Str("KO")),
      ("ocr_source_language", Str("auto")),
      ("ocr_target_language", Str("KO")),
      (ThemeColorsKey, Object(ThemeColorDefaults())),
      ("ocr_engine", Str("default")), ("ocr_mode", Str("overlay")), ("vad_sensitivity", Int(3)),
      ("silence_threshold_s", Float(1.0)), ("min_audio_length_s", Float(0.5)),
      ("stt_overlay_style", OverlayStyle(18, "rgba(0, 0, 0, 0.8)")),
      ("ocr_overlay_style", OverlayStyle(14, "rgba(20, 20, 20, 0.9)")),
      ("show_original_text", Bool(true)), ("original_text_font_size_offset", Int(-2)),
      ("original_text_font_color", Str("#BBBBBB")),
      ("overlay_pos_x", Null), ("overlay_pos_y", Null),
      ("overlay_width", Int(800)), ("overlay_height", Int(250)),
      ("hotkey_toggle_stt", Str("alt+1")), ("hotkey_toggle_ocr", Str("alt+2")),
      ("hotkey_toggle_setup", Str("alt+`")), ("hotkey_quit_app", Str("alt+q")),
      ("sound_master_volume", Int(80)),
      ("sound_app_start", Str("assets/sounds/app_start.wav")),
      ("sound_stt_start", Str("assets/sounds/stt_start.wav")),
      ("sound_ocr_start", Str("assets/sounds/ocr_start.wav")),
      ("sound_stt_stop", Str("assets/sounds/stt_stop.wav")),
      ("sound_ocr_stop", Str("assets/sounds/ocr_stop.wav")) ]
  }

  /** `get_default_config()`: first run, the default profile active and present. */
  function DefaultConfig(): (c: Config)
    ensures Valid(c) && ActiveExists(c) && |ProfilesOf(c)| == 1
    ensures Get(c.globals, FirstRunKey) == Some(Bool(true))
    ensures ProfilesOf(c) == [(DefaultProfileName, DefaultProfileSettings())]
  {
    var globals := [(FirstRunKey, Bool(true)), (ActiveProfileKey, Str(DefaultProfileName))];
    var ps := [(DefaultProfileName, DefaultProfileSettings())];
    assert Keys(globals) == [FirstRunKey, ActiveProfileKey];
    assert Keys(ps) == [DefaultProfileName];
    assert Get(globals, ActiveProfileKey) == Some(Str(DefaultProfileName));
    Config(globals, Some(ps))
  }

  /** The configuration as the JSON document it is saved as. */
  function ToDoc(c: Config): Value {
    Object(c.globals + match c.profiles
      case None => []
      case Some(ps) => [(ProfilesKey, Object(ProfileValues(ps)))])
  }

  /** The profiles dictionary with each profile as a JSON object. */
  function ProfileValues(ps: Profiles): (r: Dict<string, Value>)
    ensures Keys(r) == Keys(ps)
  {
    seq(|ps|, i requires 0 <= i < |ps| => (ps[i].0, Object(ps[i].1)))
  }

  // ---------------------------------------------------------------- reading

  /** The name `get_active_profile` starts from: the stored `active_profile`
      (the default name when absent); `None` for a non-string value, which no
      profile name equals; `Raises` for a list or dictionary, which cannot be
      looked up in a dictionary. */
  function ActiveName(c: Config): (r: Outcome<Option<string>>)
    ensures r.Raises? <==> exists v :: Get(c.globals, ActiveProfileKey) == Some(v) && !Hashable(v)
    ensures Get(c.globals, ActiveProfileKey) == None ==> r == Returns(Some(DefaultProfileName))
    ensures forall s :: Get(c.globals, ActiveProfileKey) == Some(Str(s)) ==> r == Returns(Some(s))
  {
    var stored: Option<Value> := Get(c.globals, ActiveProfileKey);
    if stored.None? then Returns(Some(DefaultProfileName))
    else if stored.value.Str? then Returns(Some(stored.value.s))
    else if !Hashable(stored.value) then Raises
    else Returns(None)
  }

  /** `get_active_profile()`: the profile the active name selects; the first
      stored profile when that name is not a profile; fresh defaults when there
      are no profiles at all. */
  function ActiveProfile(c: Config): (r: Outcome<Profile>)
    ensures r.Raises? <==> ActiveName(c).Raises?
    ensures ActiveName(c).Returns? ==> var n := ActiveName(c).value; var ps := ProfilesOf(c);
      && (n.Some? && n.value in Keys(ps) ==> r == Returns(Get(ps, n.value).value))
      && (!(n.Some? && n.value in Keys(ps)) && ps != [] ==> r == Returns(ps[0].1))
      && (ps == [] ==> r == Returns(DefaultProfileSettings()))
  {
    match ActiveName(c)
    case Raises => Raises
    case Returns(n) =>
      var ps := ProfilesOf(c);
      var name := if n.Some? && n.value in Keys(ps) then n.value
                  else if ps != [] then ps[0].0 else DefaultProfileName;
      Returns(Get(ps, name).GetOr(DefaultProfileSettings()))
  }

  /** `get(key, default)`: a global entry wins; otherwise the active profile's
      entry, or `default` when the profile lacks the key. */
  function GetSetting(c: Config, key: string, default: Value): (r: Outcome<Value>)
    ensures key in Keys(c.globals) && key != ProfilesKey ==> r == Returns(Get(c.globals, key).value)
    ensures !(key in Keys(c.globals) && key != ProfilesKey) ==>
      match ActiveProfile(c)
      case Raises => r.Raises?
      case Returns(p) => r == Returns(Get(p, key).GetOr(default))
  {
    if key in Keys(c.globals) && key != ProfilesKey then Returns(Get(c.globals, key).value)
    else match ActiveProfile(c)
      case Raises => Raises
      case Returns(p) => Returns(Get(p, key).GetOr(default))
  }

  // ---------------------------------------------------------------- writing

  /** The profile `set` writes to: the stored `active_profile` string, or the
      default name when the entry is absent. */
  predicate SettableName(c: Config) {
    Get(c.globals, ActiveProfileKey).None? || Get(c.globals, ActiveProfileKey).value.Str?
  }

  function WriteTarget(c: Config): string
    requires SettableName(c)
  {
    match Get(c.globals, ActiveProfileKey)
    case None => DefaultProfileName
    case Some(v) => v.s
  }

  /** `set(key, value, is_global)`. A global write stores the top-level entry
      and touches nothing else; a profile write stores the entry in the profile
      named by `active_profile`, creating `profiles` and that profile (from the
      defaults) when absent, and touches no other profile and no global entry. */
  function SetValue(c: Config, key: string, value: Value, isGlobal: bool): (r: Config)
    requires isGlobal ==> key != ProfilesKey
    requires !isGlobal ==> SettableName(c)
    ensures isGlobal ==>
      && r.profiles == c.profiles && Get(r.globals, key) == Some(value)
      && (forall k :: k != key ==> Get(r.globals, k) == Get(c.globals, k))
    ensures !isGlobal ==>
      && r.globals == c.globals && r.profiles.Some?
      && var ps := ProfilesOf(c); var name := WriteTarget(c);
         && Keys(ProfilesOf(r)) == (if name in Keys(ps) then Keys(ps) else Keys(ps) + [name])
         && Get(ProfilesOf(r), name) == Some(Put(Get(ps, name).GetOr(DefaultProfileSettings()), key, value))
         && (forall n :: n != name ==> Get(ProfilesOf(r), n) == Get(ps, n))
    ensures Valid(c) ==> Valid(r)
  {
    if isGlobal then c.(globals := Put(c.globals, key, value))
    else c.(profiles := Some(WriteProfile(ProfilesOf(c), WriteTarget(c), DefaultProfileSettings(), key, value)))
  }

  /** `profiles[name][key] = value`, the profile first created from `fallback` when absent. */
  function WriteProfile(ps: Profiles, name: string, fallback: Profile, key: string, value: Value): (r: Profiles)
    ensures Keys(r) == if name in Keys(ps) then Keys(ps) else Keys(ps) + [name]
    ensures Get(r, name) == Some(Put(Get(ps, name).GetOr(fallback), key, value))
    ensures forall n :: n != name ==> Get(r, n) == Get(ps, n)
    ensures DistinctKeys(ps) ==> DistinctKeys(r)
  {
    Put(ps, name, Put(Get(ps, name).GetOr(fallback), key, value))
  }

  /** After a global write, `get` returns the written value. */
  lemma GetAfterGlobalSet(c: Config, key: string, value: Value, default: Value)
    requires key != ProfilesKey
    ensures GetSetting(SetValue(c, key, value, true), key, default) == Returns(value)
  {
  }

  /** After a profile write, `get` returns the written value, unless a global
      entry of the same name exists: that entry keeps shadowing the profile
      (as with `set("is_first_run", False)`, which writes to the profile while
      `get("is_first_run")` keeps reading the global `True`). */
  lemma {:induction false} GetAfterProfileSet(c: Config, key: string, value: Value, default: Value)
    requires SettableName(c)
    ensures var r := SetValue(c, key, value, false);
      && (key in Keys(c.globals) && key != ProfilesKey ==> GetSetting(r, key, default) == GetSetting(c, key, default))
      && (!(key in Keys(c.globals) && key != ProfilesKey) ==> GetSetting(r, key, default) == Returns(value))
  {
    var r := SetValue(c, key, value, false);
    var name := WriteTarget(c);
    var ps := ProfilesOf(c);
    var p := Put(Get(ps, name).GetOr(DefaultProfileSettings()), key, value);
    assert r.globals == c.globals;
    assert ActiveName(r) == Returns(Some(name));
    assert Get(ProfilesOf(r), name) == Some(p);
    assert ActiveProfile(r) == Returns(p);
    assert Get(p, key) == Some(value);
  }

  // ---------------------------------------------------------------- profiles

  /** The outcome of a profile operation: whether it succeeded, and the configuration after it. */
  datatype Change = Change(ok: bool, config: Config)

  /** `active_profile` is a string naming a stored profile. */
  predicate ActiveExists(c: Config) {
    exists s :: Get(c.globals, ActiveProfileKey) == Some(Str(s)) && s in Keys(ProfilesOf(c))
  }

  /** `switch_profile(name)`: succeeds exactly for a stored profile name, and
      then only `active_profile` changes; otherwise nothing changes. */
  function SwitchChange(c: Config, name: string): (r: Change)
    ensures r.ok <==> name in Keys(ProfilesOf(c))
    ensures r.ok ==>
      && r.config == c.(globals := Put(c.globals, ActiveProfileKey, Str(name)))
      && ActiveExists(r.config) && ActiveName(r.config) == Returns(Some(name))
    ensures !r.ok ==> r.config == c
  {
    if name in Keys(ProfilesOf(c)) then Change(true, SetValue(c, ActiveProfileKey, Str(name), true))
    else Change(false, c)
  }

  /** `add_profile(name, from_profile)`: fails without change when the name is
      taken; otherwise appends a copy of `from_profile`'s settings when that
      profile exists and of the defaults when it does not. */
  function AddChange(c: Config, name: string, from: Option<string>): (r: Change)
    ensures r.ok <==> name !in Keys(ProfilesOf(c))
    ensures !r.ok ==> r.config == c
    ensures r.ok ==>
      && r.config.globals == c.globals
      && ProfilesOf(r.config) == ProfilesOf(c) + [(name,
           if from.Some? && from.value in Keys(ProfilesOf(c)) then Get(ProfilesOf(c), from.value).value
           else DefaultProfileSettings())]
    ensures Valid(c) ==> Valid(r.config)
    ensures ActiveExists(c) ==> ActiveExists(r.config)
  {
    var ps := ProfilesOf(c);
    if name in Keys(ps) then Change(false, c)
    else
      var base := if from.Some? then Get(ps, from.value).GetOr(DefaultProfileSettings()) else DefaultProfileSettings();
      Change(true, c.(profiles := Some(Put(ps, name, base))))
  }

  /** `remove_profile(name)`: fails without change for an unknown name or the
      only profile, so at least one profile always remains; otherwise deletes
      it, and when it was the active one the first remaining profile becomes
      active. */
  function RemoveChange(c: Config, name: string): (r: Change)
    requires Valid(c)
    ensures r.ok <==> name in Keys(ProfilesOf(c)) && |ProfilesOf(c)| > 1
    ensures !r.ok ==> r.config == c
    ensures r.ok ==>
      && ProfilesOf(r.config) == Remove(ProfilesOf(c), name)
      && |ProfilesOf(r.config)| == |ProfilesOf(c)| - 1 >= 1
      && (Get(c.globals, ActiveProfileKey) == Some(Str(name)) ==>
            r.config.globals == Put(c.globals, ActiveProfileKey, Str(ProfilesOf(r.config)[0].0)))
      && (Get(c.globals, ActiveProfileKey) != Some(Str(name)) ==> r.config.globals == c.globals)
    ensures Valid(r.config)
    ensures ActiveExists(c) ==> ActiveExists(r.config)
  {
    var ps := ProfilesOf(c);
    if name !in Keys(ps) || |ps| <= 1 then Change(false, c)
    else
      var rest := Remove(ps, name);
      var c1 := c.(profiles := Some(rest));
      assert Valid(c1);
      if Get(c.globals, ActiveProfileKey) == Some(Str(name)) then
        var first := rest[0].0;
        assert Keys(rest)[0] == first;
        Change(true, SetValue(c1, ActiveProfileKey, Str(first), true))
      else
        assert ActiveExists(c) ==> ActiveExists(c1);
        Change(true, c1)
  }

  /** `rename_profile(old, new)`: fails without change when `old` is unknown or
      `new` is taken; otherwise the settings move unchanged to `new` (which goes
      to the end of the order), and `active_profile` follows when it named `old`. */
  function RenameChange(c: Config, oldName: string, newName: string): (r: Change)
    requires Valid(c)
    ensures r.ok <==> oldName in Keys(ProfilesOf(c)) && newName !in Keys(ProfilesOf(c))
    ensures !r.ok ==> r.config == c
    ensures r.ok ==>
      && ProfilesOf(r.config) == Remove(ProfilesOf(c), oldName) + [(newName, Get(ProfilesOf(c), oldName).value)]
      && |ProfilesOf(r.config)| == |ProfilesOf(c)|
      && (Get(c.globals, ActiveProfileKey) == Some(Str(oldName)) ==>
            r.config.globals == Put(c.globals, ActiveProfileKey, Str(newName)))
      && (Get(c.globals, ActiveProfileKey) != Some(Str(oldName)) ==> r.config.globals == c.globals)
    ensures Valid(r.config)
    ensures ActiveExists(c) ==> ActiveExists(r.config)
  {
    var ps := ProfilesOf(c);
    if oldName !in Keys(ps) || newName in Keys(ps) then Change(false, c)
    else
      var settings := Get(ps, oldName).value;
      var rest := Remove(ps, oldName);
      assert newName !in Keys(rest) && |rest| == |ps| - 1;
      var moved := Put(rest, newName, settings);
      assert moved == rest + [(newName, settings)];
      var c1 := c.(profiles := Some(moved));
      assert ProfilesOf(c1) == moved;
      if Get(c.globals, ActiveProfileKey) == Some(Str(oldName)) then
        Change(true, SetValue(c1, ActiveProfileKey, Str(newName), true))
      else Change(true, c1)
  }

  /** After a successful rename, reading through the new name gives exactly the
      settings the old name held, and the old name is gone. */
  lemma RenameKeepsSettings(c: Config, oldName: string, newName: string)
    requires Valid(c)
    requires RenameChange(c, oldName, newName).ok
    ensures var ps' := ProfilesOf(RenameChange(c, oldName, newName).config);
      Get(ps', newName) == Get(ProfilesOf(c), oldName) && oldName !in Keys(ps')
  {
    var ps := ProfilesOf(c);
    var rest := Remove(ps, oldName);
    AppendGet(rest, newName, Get(ps, oldName).value);
  }

  // ---------------------------------------------------------------- loading

  /** The configuration `load_config` returns, and whether it wrote it back to the file. */
  datatype Loaded = Loaded(config: Config, saved: bool)

  /** The sub-keys of the stored `custom_theme_colors` value can be filled in
      or are all already there: always for a dictionary; for a string, every
      sub-key is a substring (Python's `in` on `str`); for a list, every sub-key
      is an element. Any other value makes `in` raise, and so does a missing
      sub-key of a string or list, which cannot be assigned to by key. */
  predicate Fillable(cur: Value, subs: Dict<string, Value>) {
    match cur
    case Object(_) => true
    case Str(s) => forall sub :: sub in Keys(subs) ==> Contains(s, sub)
    case List(xs) => forall sub :: sub in Keys(subs) ==> Str(sub) in xs
    case _ => false
  }

  /** Every sub-key of `subs` is present in the stored value. */
  predicate SubKeysPresent(cur: Value, subs: Dict<string, Value>) {
    if cur.Object? then forall sub :: sub in Keys(subs) ==> sub in Keys(cur.fields)
    else Fillable(cur, subs)
  }

  /** The default entry `(k, v)` needs no migration in profile `q`. */
  predicate EntryMigrated(q: Profile, k: string, v: Value) {
    k in Keys(q) && (k == ThemeColorsKey && v.Object? ==> SubKeysPresent(Get(q, k).value, v.fields))
  }

  /** No default entry needs migration in profile `q`. */
  predicate Migrated(q: Profile, defs: Dict<string, Value>) {
    forall i :: 0 <= i < |defs| ==> EntryMigrated(q, defs[i].0, defs[i].1)
  }

  /** `b` is `a` with sub-keys possibly appended (when `a` is a dictionary), or `a` itself. */
  predicate ColorsExtend(a: Value, b: Value) {
    if a.Object? then b.Object? && |a.fields| <= |b.fields| && b.fields[..|a.fields|] == a.fields
    else b == a
  }

  /** Migration from `q` to `q2` only adds: every key stays, every value other
      than the colour dictionary stays, and the colour dictionary only gains sub-keys. */
  predicate Extends(q: Profile, q2: Profile) {
    && |q| <= |q2|
    && (forall j :: j in Keys(q) ==> j in Keys(q2))
    && (forall j :: j in Keys(q) && j != ThemeColorsKey ==> Get(q2, j) == Get(q, j))
    && (ThemeColorsKey in Keys(q) ==> ColorsExtend(Get(q, ThemeColorsKey).value, Get(q2, ThemeColorsKey).value))
  }

  lemma ExtendsTrans(a: Profile, b: Profile, c: Profile)
    requires Extends(a, b) && Extends(b, c)
    ensures Extends(a, c)
  {
    if ThemeColorsKey in Keys(a) && Get(a, ThemeColorsKey).value.Object? {
      var fa := Get(a, ThemeColorsKey).value.fields;
      var fb := Get(b, ThemeColorsKey).value.fields;
      var fc := Get(c, ThemeColorsKey).value.fields;
      assert fc[..|fa|] == fc[..|fb|][..|fa|];
    }
  }

  lemma PrefixKeys(a: Dict<string, Value>, b: Dict<string, Value>)
    requires |a| <= |b| && b[..|a|] == a
    ensures forall j :: j in Keys(a) ==> j in Keys(b)
  {
    forall j | j in Keys(a) ensures j in Keys(b) {
      var i :| 0 <= i < |a| && Keys(a)[i] == j;
      assert Keys(b)[i] == j;
    }
  }

  /** Migration never loses a migrated entry. */
  lemma MigratedStable(q: Profile, q2: Profile, k: string, v: Value)
    requires Extends(q, q2) && EntryMigrated(q, k, v)
    ensures EntryMigrated(q2, k, v)
  {
    if k == ThemeColorsKey && v.Object? {
      var a := Get(q, k).value;
      if a.Object? {
        PrefixKeys(a.fields, Get(q2, k).value.fields);
      }
    }
  }

  /** A size that every migration step which adds something increases. */
  function Weight(q: Profile): nat {
    var colors: Option<Value> := Get(q, ThemeColorsKey);
    |q| + if colors.Some? && colors.value.Object? then |colors.value.fields| else 0
  }

  lemma ExtendsWeight(q: Profile, q2: Profile)
    requires Extends(q, q2)
    ensures Weight(q) <= Weight(q2)
  {
  }

  /** One step of the inner migration loop, for the default entry `(k, v)`:
      a missing key is added with its default; for the colour dictionary the
      missing sub-keys are added; the flag says whether anything was added. */
  function MigrateEntry(q: Profile, k: string, v: Value): Outcome<(Profile, bool)> {
    if k !in Keys(q) then Returns((Put(q, k, v), true))
    else if k == ThemeColorsKey && v.Object? then
      var cur := Get(q, k).value;
      if cur.Object? then
        var f := WithDefaults(cur.fields, v.fields, {});
        Returns((Put(q, k, Object(f)), f != cur.fields))
      else if Fillable(cur, v.fields) then Returns((q, false))
      else Raises
    else Returns((q, false))
  }

  /** A step raises exactly for a stored colour value whose sub-keys cannot
      be filled; otherwise it only adds, leaves the entry migrated, and flags
      exactly when it added something. */
  lemma MigrateEntryFacts(q: Profile, k: string, v: Value)
    ensures MigrateEntry(q, k, v).Raises? <==>
      k in Keys(q) && k == ThemeColorsKey && v.Object? && !Fillable(Get(q, k).value, v.fields)
    ensures MigrateEntry(q, k, v).Returns? ==> var (q2, added) := MigrateEntry(q, k, v).value;
      && Extends(q, q2) && EntryMigrated(q2, k, v)
      && (added <==> Weight(q2) > Weight(q)) && (!added ==> q2 == q)
  {
    if k !in Keys(q) {
      MigrateEntryAdds(q, k, v);
    } else if k == ThemeColorsKey && v.Object? {
      var cur := Get(q, k).value;
      if cur.Object? {
        MigrateEntryFills(q, k, v);
      } else {
        MigrateEntryChecks(q, k, v);
      }
    } else {
      assert MigrateEntry(q, k, v) == Returns((q, false));
      ExtendsRefl(q);
    }
  }

  lemma MigrateEntryChecks(q: Profile, k: string, v: Value)
    requires k in Keys(q) && k == ThemeColorsKey && v.Object? && !Get(q, k).value.Object?
    ensures MigrateEntry(q, k, v) == if Fillable(Get(q, k).value, v.fields) then Returns((q, false)) else Raises
    ensures Fillable(Get(q, k).value, v.fields) ==> Extends(q, q) && EntryMigrated(q, k, v)
  {
    ExtendsRefl(q);
  }

  lemma ExtendsRefl(q: Profile)
    ensures Extends(q, q)
  {
    if ThemeColorsKey in Keys(q) {
      var a := Get(q, ThemeColorsKey).value;
      if a.Object? { assert a.fields[..|a.fields|] == a.fields; }
    }
  }

  /** A step leaves an entry that is already migrated alone. */
  lemma MigrateEntryIdle(q: Profile, k: string, v: Value)
    requires EntryMigrated(q, k, v)
    ensures MigrateEntry(q, k, v) == Returns((q, false))
  {
    if k == ThemeColorsKey && v.Object? && Get(q, k).value.Object? {
      MigrateEntryFills(q, k, v);
    }
  }

  lemma MigrateEntryAdds(q: Profile, k: string, v: Value)
    requires k !in Keys(q)
    ensures var q2 := Put(q, k, v);
      Extends(q, q2) && EntryMigrated(q2, k, v) && Weight(q2) > Weight(q)
  {
    var q2 := Put(q, k, v);
    assert Extends(q, q2) by {
      if ThemeColorsKey in Keys(q) {
        var a := Get(q, ThemeColorsKey).value;
        if a.Object? { assert a.fields[..|a.fields|] == a.fields; }
      }
    }
  }

  lemma MigrateEntryFills(q: Profile, k: string, v: Value)
    requires k in Keys(q) && k == ThemeColorsKey && v.Object? && Get(q, k).value.Object?
    ensures var cur := Get(q, k).value;
      var f := WithDefaults(cur.fields, v.fields, {});
      var q2 := Put(q, k, Object(f));
      && Extends(q, q2) && EntryMigrated(q2, k, v)
      && (f != cur.fields <==> Weight(q2) > Weight(q)) && (f == cur.fields ==> q2 == q)
  {
    var cur := Get(q, k).value;
    var f := WithDefaults(cur.fields, v.fields, {});
    var q2 := Put(q, k, Object(f));
    assert f != cur.fields <==> |f| > |cur.fields| by {
      if |f| == |cur.fields| { assert f == f[..|cur.fields|]; }
    }
    assert Get(q2, k) == Some(Object(f));
    assert Weight(q2) == |q| + |f| && Weight(q) == |q| + |cur.fields|;
    assert ColorsExtend(cur, Object(f));
    assert SubKeysPresent(Object(f), v.fields);
    assert f == cur.fields ==> q2 == q by {
      if f == cur.fields { PutSame(q, k, cur); }
    }
  }

  /** The inner migration loop over the default entries `defs` (front to back),
      stopping at the first step that raises; the flag says whether anything
      was added. */
  function MigrateKeys(p: Profile, defs: Dict<string, Value>): Outcome<(Profile, bool)> {
    if defs == [] then Returns((p, false))
    else
      var front := defs[..|defs| - 1];
      match MigrateKeys(p, front)
      case Raises => Raises
      case Returns((q, added)) =>
        var (k, v) := defs[|defs| - 1];
        match MigrateEntry(q, k, v)
        case Raises => Raises
        case Returns((q2, added2)) =>
          Returns((q2, added || added2))
  }

  /** Migrating a profile only adds keys and sub-keys, leaves every default
      entry migrated, and flags exactly when the profile grew. */
  lemma {:induction false} MigrateKeysFacts(p: Profile, defs: Dict<string, Value>)
    ensures var r := MigrateKeys(p, defs);
      r.Returns? ==> var (q, added) := r.value;
        && Extends(p, q) && Migrated(q, defs)
        && (added <==> Weight(q) > Weight(p)) && (!added ==> q == p)
  {
    if defs == [] {
      ExtendsRefl(p);
    } else {
      var front := defs[..|defs| - 1];
      MigrateKeysFacts(p, front);
      var r := MigrateKeys(p, front);
      if r.Returns? {
        var (q, added) := r.value;
        var (k, v) := defs[|defs| - 1];
        var e := MigrateEntry(q, k, v);
        MigrateEntryFacts(q, k, v);
        if e.Returns? {
          MigrateKeysStep(p, q, e.value.0, defs);
        }
      }
    }
  }

  /** One more migrated entry keeps the earlier ones migrated. */
  lemma MigrateKeysStep(p: Profile, q: Profile, q2: Profile, defs: Dict<string, Value>)
    requires defs != [] && Extends(p, q) && Migrated(q, defs[..|defs| - 1])
    requires Extends(q, q2) && EntryMigrated(q2, defs[|defs| - 1].0, defs[|defs| - 1].1)
    ensures Extends(p, q2) && Migrated(q2, defs) && Weight(q) <= Weight(q2)
  {
    var front := defs[..|defs| - 1];
    ExtendsTrans(p, q, q2);
    ExtendsWeight(q, q2);
    forall i | 0 <= i < |front| ensures EntryMigrated(q2, defs[i].0, defs[i].1) {
      assert defs[i] == front[i];
      MigratedStable(q, q2, front[i].0, front[i].1);
    }
  }

  /** The migration flag is exactly "the profile changed". */
  lemma MigrateKeysFlag(p: Profile, defs: Dict<string, Value>)
    requires MigrateKeys(p, defs).Returns?
    ensures MigrateKeys(p, defs).value.1 <==> MigrateKeys(p, defs).value.0 != p
  {
    MigrateKeysFacts(p, defs);
  }

  /** Migrating a profile that needs no migration returns it unchanged and unflagged. */
  lemma {:induction false} MigrateKeysIdle(p: Profile, defs: Dict<string, Value>)
    requires Migrated(p, defs)
    ensures MigrateKeys(p, defs) == Returns((p, false))
  {
    if defs != [] {
      var front := defs[..|defs| - 1];
      assert Migrated(p, front) by {
        forall i | 0 <= i < |front| ensures EntryMigrated(p, front[i].0, front[i].1) {
          assert front[i] == defs[i];
        }
      }
      MigrateKeysIdle(p, front);
      MigrateEntryIdle(p, defs[|defs| - 1].0, defs[|defs| - 1].1);
    }
  }

  /** Once a prefix of the default entries raises, the whole loop raises. */
  lemma {:induction false} MigrateKeysRaises(p: Profile, defs: Dict<string, Value>, n: nat)
    requires n <= |defs| && MigrateKeys(p, defs[..n]).Raises?
    ensures MigrateKeys(p, defs).Raises?
    decreases |defs| - n
  {
    if n < |defs| {
      assert defs[..n + 1][..n] == defs[..n];
      MigrateKeysRaises(p, defs, n + 1);
    } else {
      assert defs[..n] == defs;
    }
  }


  lemma ProfileValuesSnoc(ps: Profiles, name: string, p: Profile)
    ensures ProfileValues(ps + [(name, p)]) == ProfileValues(ps) + [(name, Object(p))]
  {
  }

  /** The outer migration loop over the stored profiles (front to back): each
      must be a dictionary and is migrated; the flag says whether any profile
      changed. The profile names and their order are kept. */
  function MigrateProfiles(ps: Dict<string, Value>, defs: Dict<string, Value>): (r: Outcome<(Profiles, bool)>)
    ensures r.Returns? ==> |r.value.0| == |ps| && Keys(r.value.0) == Keys(ps)
  {
    if ps == [] then Returns(([], false))
    else
      var front := ps[..|ps| - 1];
      var (name, v) := ps[|ps| - 1];
      match MigrateProfiles(front, defs)
      case Raises => Raises
      case Returns((out, changed)) =>
        if !v.Object? then Raises
        else match MigrateKeys(v.fields, defs)
          case Raises => Raises
          case Returns((q, added)) =>
            assert Keys(out + [(name, q)]) == Keys(out) + [name];
            assert Keys(ps) == Keys(front) + [name];
            Returns((out + [(name, q)], changed || added))
  }

  /** A stored profile the migration accepts: a dictionary whose migration does not raise. */
  predicate ProfileMigrates(v: Value, defs: Dict<string, Value>) {
    v.Object? && MigrateKeys(v.fields, defs).Returns?
  }

  /** The outer loop raises exactly when some stored profile is not accepted;
      otherwise each profile is the migration of the stored one, and the flag
      says exactly whether the profiles changed. */
  lemma {:induction false} MigrateProfilesResult(ps: Dict<string, Value>, defs: Dict<string, Value>)
    ensures var r := MigrateProfiles(ps, defs);
      && (r.Raises? <==> exists i :: 0 <= i < |ps| && !ProfileMigrates(ps[i].1, defs))
      && (r.Returns? ==>
            && (forall i :: 0 <= i < |ps| ==> r.value.0[i].1 == MigrateKeys(ps[i].1.fields, defs).value.0)
            && (r.value.1 <==> ProfileValues(r.value.0) != ps))
  {
    if ps != [] {
      var front := ps[..|ps| - 1];
      var (name, v) := ps[|ps| - 1];
      MigrateProfilesResult(front, defs);
      assert ps == front + [(name, v)];
      assert forall i :: 0 <= i < |front| ==> front[i] == ps[i];
      var rf := MigrateProfiles(front, defs);
      if rf.Raises? {
        var i :| 0 <= i < |front| && !ProfileMigrates(front[i].1, defs);
        assert !ProfileMigrates(ps[i].1, defs);
      } else if !ProfileMigrates(v, defs) {
        assert !ProfileMigrates(ps[|ps| - 1].1, defs);
      } else {
        var (out, changed) := rf.value;
        var (q, added) := MigrateKeys(v.fields, defs).value;
        MigrateKeysFlag(v.fields, defs);
        ProfileValuesSnoc(out, name, q);
        var r := MigrateProfiles(ps, defs);
        assert r == Returns((out + [(name, q)], changed || added));
        forall i | 0 <= i < |ps| ensures r.value.0[i].1 == MigrateKeys(ps[i].1.fields, defs).value.0 {
          if i < |front| { assert r.value.0[i] == out[i]; }
        }
        assert ProfileValues(r.value.0) == ProfileValues(out) + [(name, Object(q))];
        assert ProfileValues(r.value.0) == ps <==> ProfileValues(out) == front && Object(q) == v by {
          if ProfileValues(r.value.0) == ps {
            assert ProfileValues(r.value.0)[..|front|] == ProfileValues(out);
            assert ps[..|front|] == front;
          }
        }
      }
    }
  }

  /** Profiles that need no migration come out unchanged and unflagged. */
  lemma {:induction false} MigrateProfilesIdle(ps: Profiles, defs: Dict<string, Value>)
    requires forall i :: 0 <= i < |ps| ==> Migrated(ps[i].1, defs)
    ensures MigrateProfiles(ProfileValues(ps), defs) == Returns((ps, false))
  {
    if ps != [] {
      var front := ps[..|ps| - 1];
      var (name, p) := ps[|ps| - 1];
      assert ps == front + [(name, p)];
      ProfileValuesSnoc(front, name, p);
      assert ProfileValues(ps)[..|ps| - 1] == ProfileValues(front);
      MigrateProfilesIdle(front, defs);
      MigrateKeysIdle(p, defs);
    }
  }

  /** The top-level entries of the default configuration, in their order. */
  function DefaultTopLevel(): (r: Dict<string, Value>)
    ensures Keys(r) == [FirstRunKey, ActiveProfileKey, ProfilesKey]
  {
    var r := ToDoc(DefaultConfig()).fields;
    assert Keys(r) == [FirstRunKey, ActiveProfileKey, ProfilesKey];
    r
  }

  /** Every default entry is present in the default profile itself. */
  lemma DefaultsMigrated()
    ensures Migrated(DefaultProfileSettings(), DefaultProfileSettings())
  {
    var d := DefaultProfileSettings();
    assert d[11] == (ThemeColorsKey, Object(ThemeColorDefaults()));
    forall j | 0 <= j < |d| && j != 11 ensures d[j].0 != ThemeColorsKey {
      assert |d[j].0| > 0 && d[j].0[0] != 'c';
    }
    forall i | 0 <= i < |d| ensures EntryMigrated(d, d[i].0, d[i].1) {
      assert Keys(d)[i] == d[i].0;
    }
  }

  /** The shape of every configuration `load_config` returns: both default
      global entries are present, `profiles` is not a global entry, and every
      profile holds every entry of `defs` (and every default colour sub-key). */
  predicate Shaped(c: Config, defs: Dict<string, Value>) {
    && FirstRunKey in Keys(c.globals) && ActiveProfileKey in Keys(c.globals)
    && ProfilesKey !in Keys(c.globals)
    && forall i :: 0 <= i < |ProfilesOf(c)| ==> Migrated(ProfilesOf(c)[i].1, defs)
  }

  /** The migration of a parsed top-level dictionary `top`, against the
      top-level defaults `topDefaults` and the profile defaults `defs`. */
  function MergeDoc(top: Dict<string, Value>, topDefaults: Dict<string, Value>, defs: Dict<string, Value>): (r: Outcome<Loaded>)
    requires Keys(topDefaults) == [FirstRunKey, ActiveProfileKey, ProfilesKey]
  {
    var filled := WithDefaults(top, topDefaults, {ProfilesKey});
    var globals := Remove(filled, ProfilesKey);
    match Get(filled, ProfilesKey)
    case None => Returns(Loaded(Config(globals, None), filled != top))
    case Some(pv) =>
      if !pv.Object? then Raises
      else match MigrateProfiles(pv.fields, defs)
        case Raises => Raises
        case Returns((ps, changed)) => Returns(Loaded(Config(globals, Some(ps)), filled != top || changed))
  }

  /** The top-level step of the merge: the two default global entries are
      added when missing, `profiles` is never added, and no stored entry changes. */
  lemma {:induction false} FillTopLevel(top: Dict<string, Value>, topDefaults: Dict<string, Value>)
    requires Keys(topDefaults) == [FirstRunKey, ActiveProfileKey, ProfilesKey]
    ensures var filled := WithDefaults(top, topDefaults, {ProfilesKey});
      && Get(filled, ProfilesKey) == Get(top, ProfilesKey)
      && (forall k :: k in Keys(top) ==> Get(filled, k) == Get(top, k))
      && (forall k :: k in Keys(filled) <==> k in Keys(top) || k == FirstRunKey || k == ActiveProfileKey)
      && (filled != top <==> FirstRunKey !in Keys(top) || ActiveProfileKey !in Keys(top))
  {
    var filled := WithDefaults(top, topDefaults, {ProfilesKey});
    assert forall k :: k in Keys(topDefaults) <==> k == FirstRunKey || k == ActiveProfileKey || k == ProfilesKey;
    if ProfilesKey !in Keys(top) {
      assert ProfilesKey !in Keys(filled);
    }
  }

  /** The global entries the merge produces. */
  lemma {:induction false} MergeGlobals(top: Dict<string, Value>, topDefaults: Dict<string, Value>)
    requires Keys(topDefaults) == [FirstRunKey, ActiveProfileKey, ProfilesKey]
    ensures var globals := Remove(WithDefaults(top, topDefaults, {ProfilesKey}), ProfilesKey);
      && (forall k :: k in Keys(top) && k != ProfilesKey ==> Get(globals, k) == Get(top, k))
      && (forall k :: k in Keys(globals) <==> k != ProfilesKey && (k in Keys(top) || k == FirstRunKey || k == ActiveProfileKey))
  {
    FillTopLevel(top, topDefaults);
  }

  /** The merge raises exactly for a `profiles` entry that is not a dictionary
      or holds a profile that cannot be migrated. */
  lemma MergeDocRaises(top: Dict<string, Value>, topDefaults: Dict<string, Value>, defs: Dict<string, Value>)
    requires Keys(topDefaults) == [FirstRunKey, ActiveProfileKey, ProfilesKey]
    ensures MergeDoc(top, topDefaults, defs).Raises? <==>
      exists v :: Get(top, ProfilesKey) == Some(v) && !(v.Object? && MigrateProfiles(v.fields, defs).Returns?)
  {
    FillTopLevel(top, topDefaults);
  }

  /** The global entries after the merge: the missing defaults are added and no
      stored entry is overwritten. */
  lemma MergeDocGlobals(top: Dict<string, Value>, topDefaults: Dict<string, Value>, defs: Dict<string, Value>)
    requires Keys(topDefaults) == [FirstRunKey, ActiveProfileKey, ProfilesKey]
    requires MergeDoc(top, topDefaults, defs).Returns?
    ensures var g := MergeDoc(top, topDefaults, defs).value.config.globals;
      && (forall k :: k in Keys(top) && k != ProfilesKey ==> Get(g, k) == Get(top, k))
      && (forall k :: k in Keys(g) <==> k != ProfilesKey && (k in Keys(top) || k == FirstRunKey || k == ActiveProfileKey))
  {
    MergeGlobals(top, topDefaults);
  }

  /** The profiles after the merge: absent when the document has none;
      otherwise the same names in the same order, each profile only added to
      and left needing no further migration. */
  lemma MergeDocProfiles(top: Dict<string, Value>, topDefaults: Dict<string, Value>, defs: Dict<string, Value>)
    requires Keys(topDefaults) == [FirstRunKey, ActiveProfileKey, ProfilesKey]
    requires MergeDoc(top, topDefaults, defs).Returns?
    ensures var c := MergeDoc(top, topDefaults, defs).value.config;
      && (Get(top, ProfilesKey).None? ==> c.profiles.None?)
      && (forall i :: 0 <= i < |ProfilesOf(c)| ==> Migrated(ProfilesOf(c)[i].1, defs))
      && (forall v :: Get(top, ProfilesKey) == Some(v) ==>
            && v.Object? && c.profiles.Some? && Keys(ProfilesOf(c)) == Keys(v.fields)
            && forall i :: 0 <= i < |v.fields| ==>
                 v.fields[i].1.Object? && Extends(v.fields[i].1.fields, ProfilesOf(c)[i].1))
  {
    FillTopLevel(top, topDefaults);
    match Get(top, ProfilesKey)
    case None =>
    case Some(pv) =>
      MigrateProfilesResult(pv.fields, defs);
      var ps := MigrateProfiles(pv.fields, defs).value.0;
      forall i | 0 <= i < |ps| ensures Migrated(ps[i].1, defs) && Extends(pv.fields[i].1.fields, ps[i].1) {
        assert ProfileMigrates(pv.fields[i].1, defs);
        MigrateKeysFacts(pv.fields[i].1.fields, defs);
      }
  }

  /** Every configuration the merge returns has the loaded shape. */
  lemma MergeDocShaped(top: Dict<string, Value>, topDefaults: Dict<string, Value>, defs: Dict<string, Value>)
    requires Keys(topDefaults) == [FirstRunKey, ActiveProfileKey, ProfilesKey]
    ensures MergeDoc(top, topDefaults, defs).Returns? ==> Shaped(MergeDoc(top, topDefaults, defs).value.config, defs)
  {
    if MergeDoc(top, topDefaults, defs).Returns? {
      MergeDocProfiles(top, topDefaults, defs);
      MergeDocGlobals(top, topDefaults, defs);
    }
  }

  /** The merge reports a save exactly when it added something. */
  lemma MergeDocSaved(top: Dict<string, Value>, topDefaults: Dict<string, Value>, defs: Dict<string, Value>)
    requires Keys(topDefaults) == [FirstRunKey, ActiveProfileKey, ProfilesKey]
    requires MergeDoc(top, topDefaults, defs).Returns?
    ensures var r := MergeDoc(top, topDefaults, defs).value;
      r.saved <==>
        || FirstRunKey !in Keys(top) || ActiveProfileKey !in Keys(top)
        || (exists v :: Get(top, ProfilesKey) == Some(v) && ProfileValues(ProfilesOf(r.config)) != v.fields)
  {
    FillTopLevel(top, topDefaults);
    match Get(top, ProfilesKey)
    case None =>
    case Some(pv) =>
      MigrateProfilesResult(pv.fields, defs);
  }

  /** The default configuration has the loaded shape. */
  lemma DefaultConfigShaped()
    ensures Shaped(DefaultConfig(), DefaultProfileSettings())
  {
    var c := DefaultConfig();
    assert Keys(c.globals) == [FirstRunKey, ActiveProfileKey];
    DefaultsMigrated();
    assert ProfilesOf(c)[0].1 == DefaultProfileSettings();
  }

  /** A merged document whose dictionaries have distinct keys, as every
      dictionary `json.load` builds does, gives a configuration of the store's
      shape: `profiles` is not a global entry and neither dictionary repeats a key. */
  lemma MergeDocValid(top: Dict<string, Value>, topDefaults: Dict<string, Value>, defs: Dict<string, Value>)
    requires Keys(topDefaults) == [FirstRunKey, ActiveProfileKey, ProfilesKey]
    requires WellFormed(Object(top))
    requires MergeDoc(top, topDefaults, defs).Returns?
    ensures Valid(MergeDoc(top, topDefaults, defs).value.config)
  {
    MergeDocProfiles(top, topDefaults, defs);
    var c := MergeDoc(top, topDefaults, defs).value.config;
    assert c.globals == Remove(WithDefaults(top, topDefaults, {ProfilesKey}), ProfilesKey);
    match Get(top, ProfilesKey)
    case None =>
    case Some(pv) =>
      var i :| 0 <= i < |top| && top[i] == (ProfilesKey, pv);
      assert WellFormed(top[i].1);
      assert DistinctKeys(pv.fields);
  }

  /** `load_config()`. A missing or unreadable file gives the default
      configuration, which is saved; a file that is not UTF-8 raises, since
      the `except` does not name `UnicodeDecodeError`; a parsed document that
      is not a dictionary raises; otherwise the document is merged with the
      defaults. */
  function Load(f: FileState): (r: Outcome<Loaded>)
    ensures f.Missing? || f.Unreadable? ==> r == Returns(Loaded(DefaultConfig(), true))
    ensures f.Undecodable? ==> r.Raises?
    ensures f.Parsed? && !f.doc.Object? ==> r.Raises?
    ensures f.Parsed? && f.doc.Object? ==> r == MergeDoc(f.doc.fields, DefaultTopLevel(), DefaultProfileSettings())
    ensures r.Returns? ==> Shaped(r.value.config, DefaultProfileSettings())
  {
    match f
    case Missing => DefaultConfigShaped(); Returns(Loaded(DefaultConfig(), true))
    case Unreadable => DefaultConfigShaped(); Returns(Loaded(DefaultConfig(), true))
    case Undecodable => Raises
    case Parsed(doc) =>
      if !doc.Object? then Raises
      else
        MergeDocShaped(doc.fields, DefaultTopLevel(), DefaultProfileSettings());
        MergeDoc(doc.fields, DefaultTopLevel(), DefaultProfileSettings())
  }

  /** Loading never produces a configuration outside the store's shape: the
      defaults have it, and so does the merge of a document `json.load` parsed. */
  lemma LoadValid(f: FileState)
    requires f.Parsed? ==> WellFormed(f.doc)
    requires Load(f).Returns?
    ensures Valid(Load(f).value.config)
  {
    if f.Parsed? {
      MergeDocValid(f.doc.fields, DefaultTopLevel(), DefaultProfileSettings());
    }
  }

  /** Merging the saved form of a configuration of the loaded shape gives it
      back and saves nothing. */
  lemma MergeStable(c: Config, topDefaults: Dict<string, Value>, defs: Dict<string, Value>)
    requires Keys(topDefaults) == [FirstRunKey, ActiveProfileKey, ProfilesKey]
    requires Shaped(c, defs)
    ensures MergeDoc(ToDoc(c).fields, topDefaults, defs) == Returns(Loaded(c, false))
  {
    match c.profiles
    case None =>
      assert ToDoc(c).fields == c.globals;
      MergeStableGlobals(c.globals, topDefaults, defs);
    case Some(ps) =>
      assert ProfilesOf(c) == ps;
      assert ToDoc(c).fields == c.globals + [(ProfilesKey, Object(ProfileValues(ps)))];
      MergeStableProfiles(c.globals, ps, topDefaults, defs);
  }

  lemma MergeStableGlobals(g: Dict<string, Value>, topDefaults: Dict<string, Value>, defs: Dict<string, Value>)
    requires Keys(topDefaults) == [FirstRunKey, ActiveProfileKey, ProfilesKey]
    requires FirstRunKey in Keys(g) && ActiveProfileKey in Keys(g) && ProfilesKey !in Keys(g)
    ensures MergeDoc(g, topDefaults, defs) == Returns(Loaded(Config(g, None), false))
  {
    FillTopLevel(g, topDefaults);
  }

  lemma MergeStableProfiles(g: Dict<string, Value>, ps: Profiles, topDefaults: Dict<string, Value>, defs: Dict<string, Value>)
    requires Keys(topDefaults) == [FirstRunKey, ActiveProfileKey, ProfilesKey]
    requires FirstRunKey in Keys(g) && ActiveProfileKey in Keys(g) && ProfilesKey !in Keys(g)
    requires forall i :: 0 <= i < |ps| ==> Migrated(ps[i].1, defs)
    ensures MergeDoc(g + [(ProfilesKey, Object(ProfileValues(ps)))], topDefaults, defs)
      == Returns(Loaded(Config(g, Some(ps)), false))
  {
    var pv := Object(ProfileValues(ps));
    var top := g + [(ProfilesKey, pv)];
    KeysAppend(g, [(ProfilesKey, pv)]);
    assert FirstRunKey in Keys(top) && ActiveProfileKey in Keys(top);
    FillTopLevel(top, topDefaults);
    var filled := WithDefaults(top, topDefaults, {ProfilesKey});
    assert filled == top;
    AppendGet(g, ProfilesKey, pv);
    assert Get(filled, ProfilesKey) == Some(pv);
    RemoveLast(g, ProfilesKey, pv);
    assert Remove(filled, ProfilesKey) == g;
    MigrateProfilesIdle(ps, defs);
    assert MigrateProfiles(pv.fields, defs) == Returns((ps, false));
  }

  /** Loading is idempotent: loading the saved form of any loaded configuration
      gives the same configuration back and writes nothing. */
  lemma LoadTwice(f: FileState)
    requires Load(f).Returns?
    ensures Load(Parsed(ToDoc(Load(f).value.config))) == Returns(Loaded(Load(f).value.config, false))
  {
    MergeStable(Load(f).value.config, DefaultTopLevel(), DefaultProfileSettings());
  }

  // ---------------------------------------------------------------- the loading loops

  /** The loop over the default colour sub-keys for a stored colour dictionary:
      each missing sub-key is added with its default. */
  method FillSubKeys(colors: Dict<string, Value>, subs: Dict<string, Value>) returns (filled: Dict<string, Value>, added: bool)
    ensures filled == WithDefaults(colors, subs, {})
    ensures added <==> filled != colors
  {
    filled := colors;
    added := false;
    var i := 0;
    while i < |subs|
      invariant 0 <= i <= |subs|
      invariant filled == WithDefaults(colors, subs[..i], {})
      invariant added <==> |filled| > |colors|
    {
      var (subKey, subValue) := subs[i];
      assert subs[..i + 1][..i] == subs[..i];
      if subKey !in Keys(filled) {
        filled := filled + [(subKey, subValue)];
        added := true;
      }
      i := i + 1;
    }
    assert subs[..|subs|] == subs;
    if |filled| == |colors| {
      assert filled == filled[..|colors|];
    }
  }

  /** The same loop for a stored colour value that is not a dictionary: it gets
      through only when every sub-key is already `in` the value. */
  method CheckSubKeys(cur: Value, subs: Dict<string, Value>) returns (ok: bool)
    requires !cur.Object?
    ensures ok <==> Fillable(cur, subs)
  {
    if !cur.Str? && !cur.List? {
      return false;
    }
    var i := 0;
    while i < |subs|
      invariant 0 <= i <= |subs|
      invariant forall j :: 0 <= j < i ==> SubKeyIn(cur, subs[j].0)
    {
      if !SubKeyIn(cur, subs[i].0) {
        assert Keys(subs)[i] == subs[i].0;
        return false;
      }
      i := i + 1;
    }
    forall sub | sub in Keys(subs) ensures SubKeyIn(cur, sub) {
      var j :| 0 <= j < |subs| && Keys(subs)[j] == sub;
    }
    return true;
  }

  /** Python's `sub in cur` for a string or a list. */
  predicate SubKeyIn(cur: Value, sub: string)
    requires cur.Str? || cur.List?
  {
    if cur.Str? then Contains(cur.s, sub) else Str(sub) in cur.items
  }

  /** One more default entry: the migration so far, then one step. */
  lemma MigrateKeysNext(p: Profile, defs: Dict<string, Value>, i: nat)
    requires i < |defs| && MigrateKeys(p, defs[..i]).Returns?
    ensures var (q, added) := MigrateKeys(p, defs[..i]).value;
      MigrateKeys(p, defs[..i + 1]) ==
        match MigrateEntry(q, defs[i].0, defs[i].1)
        case Raises => Raises
        case Returns((q2, added2)) => Returns((q2, added || added2))
  {
    assert defs[..i + 1][..i] == defs[..i];
  }

  /** One pass of the inner loop of `load_config`, for the default entry `(key, value)`. */
  method MigrateEntryStep(profile: Profile, key: string, value: Value) returns (r: Outcome<(Profile, bool)>)
    ensures r == MigrateEntry(profile, key, value)
  {
    if key !in Keys(profile) {
      return Returns((Put(profile, key, value), true));
    }
    if key == ThemeColorsKey && value.Object? {
      var cur := Get(profile, key).value;
      if cur.Object? {
        var filled, added := FillSubKeys(cur.fields, value.fields);
        return Returns((Put(profile, key, Object(filled)), added));
      }
      var ok := CheckSubKeys(cur, value.fields);
      if !ok {
        return Raises;
      }
    }
    return Returns((profile, false));
  }

  /** The inner loop of `load_config` for one stored profile. */
  method MigrateProfileLoop(p: Profile, defs: Dict<string, Value>) returns (r: Outcome<(Profile, bool)>)
    ensures r == MigrateKeys(p, defs)
  {
    var profile := p;
    var updated := false;
    var i := 0;
    while i < |defs|
      invariant 0 <= i <= |defs|
      invariant MigrateKeys(p, defs[..i]) == Returns((profile, updated))
    {
      var (key, value) := defs[i];
      var step := MigrateEntryStep(profile, key, value);
      MigrateKeysNext(p, defs, i);
      if step.Raises? {
        MigrateKeysRaises(p, defs, i + 1);
        return Raises;
      }
      profile, updated := step.value.0, updated || step.value.1;
      i := i + 1;
    }
    assert defs[..|defs|] == defs;
    return Returns((profile, updated));
  }

  /** The top-level loop of `load_config`: every default entry other than
      `profiles` that the document lacks is added. */
  method FillTopLevelLoop(top: Dict<string, Value>, topDefaults: Dict<string, Value>)
    returns (loaded: Dict<string, Value>, updated: bool)
    ensures loaded == WithDefaults(top, topDefaults, {ProfilesKey})
    ensures updated <==> loaded != top
  {
    loaded := top;
    updated := false;
    var i := 0;
    while i < |topDefaults|
      invariant 0 <= i <= |topDefaults|
      invariant loaded == WithDefaults(top, topDefaults[..i], {ProfilesKey})
      invariant updated <==> |loaded| > |top|
    {
      var (key, value) := topDefaults[i];
      assert topDefaults[..i + 1][..i] == topDefaults[..i];
      if key != ProfilesKey && key !in Keys(loaded) {
        loaded := loaded + [(key, value)];
        updated := true;
      }
      i := i + 1;
    }
    assert topDefaults[..|topDefaults|] == topDefaults;
    if |loaded| == |top| {
      assert loaded == loaded[..|top|];
    }
  }

  lemma ProfileRejected(ps: Dict<string, Value>, defs: Dict<string, Value>, j: nat)
    requires j < |ps| && !ProfileMigrates(ps[j].1, defs)
    ensures MigrateProfiles(ps, defs).Raises?
  {
    MigrateProfilesResult(ps, defs);
  }

  /** One more stored profile, when it migrates, extends the migrated prefix. */
  lemma MigrateProfilesStep(ps: Dict<string, Value>, defs: Dict<string, Value>, j: nat)
    requires j < |ps| && MigrateProfiles(ps[..j], defs).Returns?
    requires ps[j].1.Object? && MigrateKeys(ps[j].1.fields, defs).Returns?
    ensures var before := MigrateProfiles(ps[..j], defs).value;
      var m := MigrateKeys(ps[j].1.fields, defs).value;
      MigrateProfiles(ps[..j + 1], defs) == Returns((before.0 + [(ps[j].0, m.0)], before.1 || m.1))
  {
    assert ps[..j + 1][..j] == ps[..j];
  }

  /** The loop of `load_config` over the stored profiles. */
  method MigrateProfilesLoop(ps: Dict<string, Value>, defs: Dict<string, Value>) returns (r: Outcome<(Profiles, bool)>)
    ensures r == MigrateProfiles(ps, defs)
  {
    var migrated: Profiles := [];
    var changed := false;
    var j := 0;
    while j < |ps|
      invariant 0 <= j <= |ps|
      invariant MigrateProfiles(ps[..j], defs) == Returns((migrated, changed))
    {
      var (name, value) := ps[j];
      if !value.Object? {
        ProfileRejected(ps, defs, j);
        return Raises;
      }
      var m := MigrateProfileLoop(value.fields, defs);
      if m.Raises? {
        ProfileRejected(ps, defs, j);
        return Raises;
      }
      MigrateProfilesStep(ps, defs, j);
      migrated := migrated + [(name, m.value.0)];
      changed := changed || m.value.1;
      j := j + 1;
    }
    assert ps[..|ps|] == ps;
    return Returns((migrated, changed));
  }

  /** The body of `load_config` after a document was parsed into the dictionary `top`. */
  method MergeDocLoop(top: Dict<string, Value>, topDefaults: Dict<string, Value>, defs: Dict<string, Value>)
    returns (r: Outcome<Loaded>)
    requires Keys(topDefaults) == [FirstRunKey, ActiveProfileKey, ProfilesKey]
    ensures r == MergeDoc(top, topDefaults, defs)
  {
    var loaded, updated := FillTopLevelLoop(top, topDefaults);
    var stored := Get(loaded, ProfilesKey);
    if stored.None? {
      return Returns(Loaded(Config(Remove(loaded, ProfilesKey), None), updated));
    }
    if !stored.value.Object? {
      return Raises;
    }
    var m := MigrateProfilesLoop(stored.value.fields, defs);
    if m.Raises? {
      return Raises;
    }
    return Returns(Loaded(Config(Remove(loaded, ProfilesKey), Some(m.value.0)), updated || m.value.1));
  }

  /** `load_config()` as the program runs it. */
  method LoadConfig(f: FileState) returns (r: Outcome<Loaded>)
    ensures r == Load(f)
  {
    match f
    case Missing =>
      r := Returns(Loaded(DefaultConfig(), true));
    case Unreadable =>
      r := Returns(Loaded(DefaultConfig(), true));
    case Undecodable =>
      r := Raises;
    case Parsed(doc) =>
      if !doc.Object? {
        r := Raises;
      } else {
        r := MergeDocLoop(doc.fields, DefaultTopLevel(), DefaultProfileSettings());
      }
  }

  // ---------------------------------------------------------------- the store

  const AddExistsMessage: string := "이미 존재하는 프로필 이름입니다."
  const RemoveFailedMessage: string := "프로필 삭제에 실패했습니다."
  const RenameFailedMessage: string := "프로필 이름 변경에 실패했습니다."
  const SuccessMessage: string := "성공"

  /** `ConfigManager`: the configuration in memory and the configuration last
      written to the file (`None` until the first write). Every successful
      change is written immediately; a failed one writes nothing. */
  class ConfigManager {
    var config: Config
    var stored: Option<Config>

    /** The object `__init__` builds from what `load_config` returned. */
    constructor FromLoaded(l: Loaded)
      ensures config == l.config
      ensures stored == if l.saved then Some(l.config) else None
    {
      config := l.config;
      stored := if l.saved then Some(l.config) else None;
    }

    /** `ConfigManager()`: `None` when `load_config` raises out of the constructor. */
    static method Open(f: FileState) returns (m: Option<ConfigManager>)
      ensures m.None? <==> Load(f).Raises?
      ensures m.Some? ==>
        && fresh(m.value) && m.value.config == Load(f).value.config
        && m.value.stored == (if Load(f).value.saved then Some(m.value.config) else None)
      ensures m.Some? && (f.Parsed? ==> WellFormed(f.doc)) ==> Valid(m.value.config)
    {
      var r := LoadConfig(f);
      if r.Raises? {
        return None;
      }
      if f.Parsed? ==> WellFormed(f.doc) {
        LoadValid(f);
      }
      var manager := new ConfigManager.FromLoaded(r.value);
      return Some(manager);
    }

    /** `save_config()`. */
    method Save()
      modifies this
      ensures config == old(config) && stored == Some(config)
    {
      stored := Some(config);
    }

    /** `reset_config()`: the default configuration, saved and returned. */
    method ResetConfig() returns (c: Config)
      modifies this
      ensures c == DefaultConfig() && config == c && stored == Some(c)
      ensures Valid(config)
    {
      c := DefaultConfig();
      config := c;
      stored := Some(c);
    }

    /** `set(key, value, is_global)`, saved. */
    method Set(key: string, value: Value, isGlobal: bool)
      requires isGlobal ==> key != ProfilesKey
      requires !isGlobal ==> SettableName(config)
      modifies this
      ensures config == SetValue(old(config), key, value, isGlobal)
      ensures stored == Some(config)
      ensures Valid(old(config)) ==> Valid(config)
    {
      if isGlobal {
        config := config.(globals := Put(config.globals, key, value));
      } else {
        var name := WriteTarget(config);
        var profiles := ProfilesOf(config);
        var profile := Get(profiles, name).GetOr(DefaultProfileSettings());
        profile := Put(profile, key, value);
        config := config.(profiles := Some(Put(profiles, name, profile)));
      }
      Save();
    }

    /** `switch_profile(name)`. */
    method SwitchProfile(name: string) returns (ok: bool)
      modifies this
      ensures Change(ok, config) == SwitchChange(old(config), name)
      ensures stored == if ok then Some(config) else old(stored)
      ensures Valid(old(config)) ==> Valid(config)
    {
      if name in Keys(ProfilesOf(config)) {
        Set(ActiveProfileKey, Str(name), true);
        return true;
      }
      return false;
    }

    /** `add_profile(name, from_profile)`. */
    method AddProfile(name: string, from: Option<string>) returns (ok: bool, message: string)
      modifies this
      ensures Change(ok, config) == AddChange(old(config), name, from)
      ensures stored == if ok then Some(config) else old(stored)
      ensures Valid(old(config)) ==> Valid(config)
      ensures message == if ok then SuccessMessage else AddExistsMessage
    {
      var profiles := ProfilesOf(config);
      if name in Keys(profiles) {
        return false, AddExistsMessage;
      }
      var base := if from.Some? then Get(profiles, from.value).GetOr(DefaultProfileSettings()) else DefaultProfileSettings();
      profiles := Put(profiles, name, base);
      config := config.(profiles := Some(profiles));
      Save();
      return true, SuccessMessage;
    }

    /** `remove_profile(name)`. */
    method RemoveProfile(name: string) returns (ok: bool, message: string)
      requires Valid(config)
      modifies this
      ensures Change(ok, config) == RemoveChange(old(config), name)
      ensures stored == if ok then Some(config) else old(stored)
      ensures Valid(config)
      ensures message == if ok then SuccessMessage else RemoveFailedMessage
    {
      var profiles := ProfilesOf(config);
      var count := |profiles|;
      if name !in Keys(profiles) || count <= 1 {
        return false, RemoveFailedMessage;
      }
      profiles := Remove(profiles, name);
      config := config.(profiles := Some(profiles));
      if Get(config.globals, ActiveProfileKey) == Some(Str(name)) {
        Set(ActiveProfileKey, Str(profiles[0].0), true);
      } else {
        Save();
      }
      return true, SuccessMessage;
    }

    /** `rename_profile(old_name, new_name)`. */
    method RenameProfile(oldName: string, newName: string) returns (ok: bool, message: string)
      requires Valid(config)
      modifies this
      ensures Change(ok, config) == RenameChange(old(config), oldName, newName)
      ensures stored == if ok then Some(config) else old(stored)
      ensures Valid(config)
      ensures message == if ok then SuccessMessage else RenameFailedMessage
    {
      var profiles := ProfilesOf(config);
      if oldName !in Keys(profiles) || newName in Keys(profiles) {
        return false, RenameFailedMessage;
      }
      var settings := Get(profiles, oldName).value;
      profiles := Remove(profiles, oldName);
      profiles := Put(profiles, newName, settings);
      config := config.(profiles := Some(profiles));
      if Get(config.globals, ActiveProfileKey) == Some(Str(oldName)) {
        Set(ActiveProfileKey, Str(newName), true);
      } else {
        Save();
      }
      return true, SuccessMessage;
    }
  }
}
