/** The single-file configuration store of the first client (`src/config_manager.py`):
    one flat dictionary of settings, filled with defaults and purged of
    retired keys on load, written back whenever it changes. */
module FlatConfig {
  import opened Wrappers
  import opened PyDict
  import opened Json
  import opened Text

  /** Keys that older versions wrote and that loading deletes. */
  const RetiredKeys: seq<string> := ["use_video_model", "translation_formality"]

  /** `get_default_config()`. */
  function Defaults(): (d: Dict<string, Value>)
    ensures |d| == 20
    ensures forall k :: k in RetiredKeys ==> k !in Keys(d)
  {
    [ ("google_credentials_path", Str("")),
      ("deepl_api_key", Str("")),
      ("source_languages", List([Str("en-US")])),
      ("target_languages", List([Str("KO")])),
      ("sentence_commit_delay_ms", Int(250)),
      ("hotkey_start_translate", Str("shift+1")),
      ("hotkey_stop_translate", Str("shift+2")),
      ("hotkey_toggle_setup_window", Str("shift+`")),
      ("hotkey_quit_app", Str("shift+0")),
      ("overlay_font_family", Str("Malgun Gothic")),
      ("overlay_font_size", Int(18)),
      ("overlay_font_color", Str("#FFFFFF")),
      ("overlay_bg_color", Str("rgba(0, 0, 0, 160)")),
      ("show_original_text", Bool(true)),
      ("original_text_font_size_offset", Int(-2)),
      ("original_text_font_color", Str("#BBBBBB")),
      ("overlay_pos_x", Null),
      ("overlay_pos_y", Null),
      ("overlay_width", Int(800)),
      ("overlay_height", Int(100)) ]
  }

  /** `for key in keys: if key in d: del d[key]`. */
  function Drop(d: Dict<string, Value>, keys: seq<string>): (r: Dict<string, Value>)
    ensures forall j :: j in Keys(r) <==> j in Keys(d) && j !in keys
    ensures forall j :: j !in keys ==> Get(r, j) == Get(d, j)
    ensures DistinctKeys(d) ==> DistinctKeys(r)
    ensures r == d <==> forall k :: k in keys ==> k !in Keys(d)
    decreases |keys|
  {
    if keys == [] then d
    else
      var front := keys[..|keys| - 1];
      var k := keys[|keys| - 1];
      var prev := Drop(d, front);
      assert forall j :: j in keys <==> j in front || j == k;
      Remove(prev, k)
  }

  /** The dictionary branch of `load_config()`: every missing default key is
      added, the retired keys are deleted, and the flag records whether either
      loop changed something. Nothing the file holds is overwritten, and the
      flag is set exactly when the result differs from what was read. */
  function Merge(top: Dict<string, Value>, defaults: Dict<string, Value>): (m: (Dict<string, Value>, bool))
    requires forall k :: k in RetiredKeys ==> k !in Keys(defaults)
    ensures forall j :: j in Keys(m.0) <==> (j in Keys(top) || j in Keys(defaults)) && j !in RetiredKeys
    ensures forall j :: j in Keys(top) && j !in RetiredKeys ==> Get(m.0, j) == Get(top, j)
    ensures DistinctKeys(defaults) ==> forall j :: j in Keys(defaults) && j !in Keys(top) ==> Get(m.0, j) == Get(defaults, j)
    ensures DistinctKeys(top) ==> DistinctKeys(m.0)
    ensures m.1 <==> m.0 != top
  {
    var filled := WithDefaults(top, defaults, {});
    var r := Drop(filled, RetiredKeys);
    var updated := filled != top || r != filled;
    forall j | DistinctKeys(defaults) && j in Keys(defaults) && j !in Keys(top)
      ensures Get(r, j) == Get(defaults, j)
    {
      WithDefaultsGet(top, defaults, {}, j);
    }
    assert updated ==> r != top by {
      if filled != top {
        var k :| k in Keys(filled) && k !in Keys(top);
        assert k in Keys(r);
      } else if r != filled {
        var k :| k in RetiredKeys && k in Keys(filled);
        assert k !in Keys(r);
      }
    }
    (r, updated)
  }

  /** `key in doc` for a document that is a string (substring test) or a list
      (element test). */
  predicate Member(doc: Value, key: string)
    requires doc.Str? || doc.List?
  {
    if doc.Str? then Contains(doc.s, key) else Str(key) in doc.items
  }

  /** A string or list document survives both loops untouched exactly when
      every default key is `in` it (so no assignment happens) and no retired
      key is (so no deletion happens); any assignment or deletion on it raises
      `TypeError`. */
  predicate SurvivesLoops(doc: Value, defaults: Dict<string, Value>)
    requires doc.Str? || doc.List?
  {
    && (forall k :: k in Keys(defaults) ==> Member(doc, k))
    && (forall k :: k in RetiredKeys ==> !Member(doc, k))
  }

  datatype Loaded = Loaded(config: Value, saved: bool)

  /** `load_config()` on a parsed document. A dictionary is merged; a string or
      list passes through unchanged when the loops leave it alone and raises
      otherwise; any other value makes the first `in` test raise. */
  function LoadDoc(doc: Value, defaults: Dict<string, Value>): (r: Outcome<Loaded>)
    requires forall k :: k in RetiredKeys ==> k !in Keys(defaults)
    ensures r.Returns? <==> doc.Object? || ((doc.Str? || doc.List?) && SurvivesLoops(doc, defaults))
    ensures r.Returns? && doc.Object? ==>
      && r.value.config.Object?
      && (forall j :: j in Keys(defaults) ==> j in Keys(r.value.config.fields))
      && (forall j :: j in RetiredKeys ==> j !in Keys(r.value.config.fields))
      && (forall j :: j in Keys(doc.fields) && j !in RetiredKeys ==> Get(r.value.config.fields, j) == Get(doc.fields, j))
      && (r.value.saved <==> r.value.config != doc)
    ensures r.Returns? && !doc.Object? ==> r.value == Loaded(doc, false)
  {
    if doc.Object? then
      var (fields, updated) := Merge(doc.fields, defaults);
      Returns(Loaded(Object(fields), updated))
    else if (doc.Str? || doc.List?) && SurvivesLoops(doc, defaults) then
      Returns(Loaded(doc, false))
    else
      Raises
  }

  /** `load_config()`: a missing or unreadable file gives the defaults, which
      are saved; a file that is not UTF-8 raises, since the `except` does not
      name `UnicodeDecodeError`. */
  function Load(f: FileState): (r: Outcome<Loaded>)
    ensures f.Missing? || f.Unreadable? ==> r == Returns(Loaded(Object(Defaults()), true))
    ensures f.Undecodable? ==> r.Raises?
    ensures f.Parsed? ==> r == LoadDoc(f.doc, Defaults())
  {
    match f
    case Parsed(doc) => LoadDoc(doc, Defaults())
    case Undecodable => Raises
    case _ => Returns(Loaded(Object(Defaults()), true))
  }

  /** Loading what a load produced gives it back and writes nothing. */
  lemma LoadDocTwice(doc: Value, defaults: Dict<string, Value>)
    requires forall k :: k in RetiredKeys ==> k !in Keys(defaults)
    requires LoadDoc(doc, defaults).Returns?
    ensures LoadDoc(LoadDoc(doc, defaults).value.config, defaults) == Returns(Loaded(LoadDoc(doc, defaults).value.config, false))
  {
    if doc.Object? {
      var c := LoadDoc(doc, defaults).value.config.fields;
      assert WithDefaults(c, defaults, {}) == c;
      assert Drop(c, RetiredKeys) == c;
    }
  }

  /** Loading is idempotent: loading the saved form of any loaded configuration
      gives the same configuration back and writes nothing. */
  lemma LoadTwice(f: FileState)
    requires Load(f).Returns?
    ensures Load(Parsed(Load(f).value.config)) == Returns(Loaded(Load(f).value.config, false))
  {
    if f.Parsed? {
      LoadDocTwice(f.doc, Defaults());
    } else {
      assert WithDefaults(Defaults(), Defaults(), {}) == Defaults();
      assert Drop(Defaults(), RetiredKeys) == Defaults();
    }
  }

  /** The first loop of `load_config()`. */
  method FillDefaults(top: Dict<string, Value>, defaults: Dict<string, Value>) returns (filled: Dict<string, Value>, updated: bool)
    ensures filled == WithDefaults(top, defaults, {})
    ensures updated <==> filled != top
  {
    filled := top;
    updated := false;
    var i := 0;
    while i < |defaults|
      invariant 0 <= i <= |defaults|
      invariant filled == WithDefaults(top, defaults[..i], {})
      invariant updated <==> filled != top
    {
      assert defaults[..i + 1][..i] == defaults[..i];
      var (k, v) := defaults[i];
      if k !in Keys(filled) {
        filled := filled + [(k, v)];
        updated := true;
      }
      i := i + 1;
    }
    assert defaults[..|defaults|] == defaults;
  }

  /** Both loops of `load_config()` on a dictionary. */
  method MergeLoop(top: Dict<string, Value>, defaults: Dict<string, Value>) returns (r: Dict<string, Value>, updated: bool)
    requires forall k :: k in RetiredKeys ==> k !in Keys(defaults)
    ensures (r, updated) == Merge(top, defaults)
  {
    var filled;
    filled, updated := FillDefaults(top, defaults);
    r := filled;
    var i := 0;
    while i < |RetiredKeys|
      invariant 0 <= i <= |RetiredKeys|
      invariant r == Drop(filled, RetiredKeys[..i])
      invariant updated <==> filled != top || r != filled
    {
      assert RetiredKeys[..i + 1][..i] == RetiredKeys[..i];
      var k := RetiredKeys[i];
      if k in Keys(r) {
        r := Remove(r, k);
        updated := true;
      }
      i := i + 1;
    }
    assert RetiredKeys[..|RetiredKeys|] == RetiredKeys;
  }

  /** The loops of `load_config()` on a string or list document, which only
      get as far as their first `in` test that asks for a change. */
  method CheckMembers(doc: Value, defaults: Dict<string, Value>) returns (ok: bool)
    requires doc.Str? || doc.List?
    ensures ok <==> SurvivesLoops(doc, defaults)
  {
    var i := 0;
    while i < |defaults|
      invariant 0 <= i <= |defaults|
      invariant forall j :: 0 <= j < i ==> Member(doc, defaults[j].0)
    {
      if !Member(doc, defaults[i].0) {
        assert Keys(defaults)[i] == defaults[i].0;
        return false;
      }
      i := i + 1;
    }
    var n := 0;
    while n < |RetiredKeys|
      invariant 0 <= n <= |RetiredKeys|
      invariant forall j :: 0 <= j < n ==> !Member(doc, RetiredKeys[j])
    {
      if Member(doc, RetiredKeys[n]) {
        assert RetiredKeys[n] in RetiredKeys;
        return false;
      }
      n := n + 1;
    }
    return true;
  }

  /** `load_config()` as the program runs it. */
  method LoadConfig(f: FileState) returns (r: Outcome<Loaded>)
    ensures r == Load(f)
  {
    var defaults := Defaults();
    if f.Undecodable? {
      return Raises;
    }
    if !f.Parsed? {
      return Returns(Loaded(Object(defaults), true));
    }
    var doc := f.doc;
    if doc.Object? {
      var fields, updated := MergeLoop(doc.fields, defaults);
      return Returns(Loaded(Object(fields), updated));
    }
    if doc.Str? || doc.List? {
      var ok := CheckMembers(doc, defaults);
      if ok {
        return Returns(Loaded(doc, false));
      }
    }
    return Raises;
  }

  /** `config.get(key, default)`: only a dictionary has `get`. */
  function Lookup(config: Value, key: string, default: Value): (r: Outcome<Value>)
    ensures r.Returns? <==> config.Object?
    ensures r.Returns? && key !in Keys(config.fields) ==> r.value == default
    ensures r.Returns? && key in Keys(config.fields) ==> (key, r.value) in config.fields
  {
    if config.Object? then Returns(Get(config.fields, key).GetOr(default)) else Raises
  }

  /** `config[key] = value`: only a dictionary accepts a string key. */
  function Assign(config: Value, key: string, value: Value): (r: Outcome<Value>)
    ensures r.Returns? <==> config.Object?
    ensures r.Returns? ==> r.value.Object? && Keys(r.value.fields) == if key in Keys(config.fields) then Keys(config.fields) else Keys(config.fields) + [key]
  {
    if config.Object? then Returns(Object(Put(config.fields, key, value))) else Raises
  }

  /** After `set(key, value)`, `get(key)` gives `value` and every other key
      reads as before. */
  lemma LookupAfterAssign(config: Value, key: string, value: Value, other: string, default: Value)
    requires config.Object?
    ensures Lookup(Assign(config, key, value).value, key, default) == Returns(value)
    ensures other != key ==> Lookup(Assign(config, key, value).value, other, default) == Lookup(config, other, default)
  {
  }

  /** `ConfigManager`: the configuration in memory and what was last written
      to the file (`None` before the first write). */
  class ConfigManager {
    var config: Value
    var stored: Option<Value>

    constructor FromLoaded(l: Loaded)
      ensures config == l.config
      ensures stored == if l.saved then Some(l.config) else None
    {
      config := l.config;
      stored := if l.saved then Some(l.config) else None;
    }

    /** `ConfigManager()`: `None` when `load_config` raises out of the constructor. */
    static method Open(f: FileState) returns (m: Option<ConfigManager>)
      ensures m.None? <==> Load(f).Raises?
      ensures m.Some? ==>
        && fresh(m.value) && m.value.config == Load(f).value.config
        && m.value.stored == (if Load(f).value.saved then Some(m.value.config) else None)
    {
      var r := LoadConfig(f);
      if r.Raises? {
        return None;
      }
      var manager := new ConfigManager.FromLoaded(r.value);
      return Some(manager);
    }

    /** `get(key, default)`. */
    function GetValue(key: string, default: Value): (r: Outcome<Value>)
      reads this
      ensures r == Lookup(config, key, default)
    {
      Lookup(config, key, default)
    }

    /** `set(key, value)`: the key is assigned and the whole configuration
        saved; on anything but a dictionary the assignment raises first and
        nothing changes. */
    method Set(key: string, value: Value) returns (raised: bool)
      modifies this
      ensures raised <==> Assign(old(config), key, value).Raises?
      ensures raised ==> config == old(config) && stored == old(stored)
      ensures !raised ==> config == Assign(old(config), key, value).value && stored == Some(config)
    {
      if !config.Object? {
        return true;
      }
      config := Object(Put(config.fields, key, value));
      stored := Some(config);
      return false;
    }

    /** `reset_to_defaults()`: the defaults, saved and returned. */
    method ResetToDefaults() returns (d: Value)
      modifies this
      ensures d == Object(Defaults()) && config == d && stored == Some(d)
    {
      d := Object(Defaults());
      stored := Some(d);
      config := d;
    }
  }
}
