# Ariel: a Dafny model of the translator's core

Ariel is a desktop translator with two generations of client. Each client
listens to speech, or reads text off the screen, and shows translations in a
frameless overlay window.

- The first client (`src/`) has:
  - a flat JSON settings file;
  - three global hotkeys;
  - a worker that collects final speech transcripts into sentences and
    translates them with the last three texts as context;
  - a two-language table of interface strings.
- The second client (`ariel_client/`) has:
  - a profile-based settings file: global entries, plus named profiles of
    which one is active;
  - a hotkey manager that binds every `hotkey_…` setting of the active
    profile;
  - a voice-activity segmenter over a loopback audio device;
  - a translation worker for speech chunks and screen captures. A capture
    goes through Tesseract, its words are grouped into lines, and the lines
    are translated and sent to the overlay as patches;
  - the overlay window itself;
  - the language tables its drop-downs are built from.

This project models those pieces in Dafny and proves properties of them.

- Python dictionaries are insertion-ordered association lists (`PyDict`),
  because the code depends on their order. Examples: the first profile
  becomes active after a removal, and a renamed profile moves to the end.
- JSON documents are a `Json.Value`.
- An uncaught Python exception is an `Outcome.Raises` result.
- Objects whose methods update fields are classes. Their contracts relate
  the new state to pure functions of the old one, and lemmas prove what the
  code promises about those functions.
- Foreign services are parameters of the operations that call them:
  - the speech-to-text service;
  - Tesseract;
  - the translation engine;
  - the audio device and the voice-activity detector;
  - the system locale;
  - the contents of the settings file.

Module by source file:

| module | source |
|---|---|
| `ProfileConfig` | `ariel_client/src/config_manager.py` |
| `FlatConfig` | `src/config_manager.py` |
| `HotkeyFormat` | the hotkey notation both hotkey managers build |
| `LegacyHotkeys` | `src/hotkey_manager.py` |
| `ClientHotkeys` | `ariel_client/src/core/hotkey_manager.py` |
| `AudioProcessor` | `ariel_client/src/core/audio_processor.py` |
| `SentenceWorker` | `src/worker.py` |
| `TranslationWorker` | `ariel_client/src/core/translation_worker.py` |
| `OverlayWindow` | `ariel_client/src/gui/overlay_window.py` |
| `LanguageTables` | `ariel_client/src/constants.py` |
| `UiStrings` | `src/languages.py` |

`Wrappers`, `Json`, `Text` and `PyDict` are shared helpers: `Option`,
JSON values, Python `str` methods, and Python `dict` operations.

## Model

| member | source | states |
|---|---|---|
| ProfileConfig.DefaultConfig | ariel_client/src/config_manager.py:69-75 | the default configuration is first-run and holds exactly one profile, the default profile with the default settings, which is also the active one |
| ProfileConfig.ActiveName | ariel_client/src/config_manager.py:140 | the active name is the stored `active_profile` string, the default name when absent, and raises exactly for an unhashable stored value |
| ProfileConfig.ActiveProfile | ariel_client/src/config_manager.py:138-144 | the active profile is the named profile if stored, else the first stored profile, else the default settings; it raises exactly when the name lookup raises |
| ProfileConfig.GetSetting | ariel_client/src/config_manager.py:146-150 | a global entry other than `profiles` wins; otherwise the active profile's value, or the caller's default when the profile lacks the key |
| ProfileConfig.SetValue | ariel_client/src/config_manager.py:152-159 | a global write changes only that key; a profile write creates the active profile from defaults if missing, changes only that key of it, and leaves globals and other profiles alone; validity is preserved |
| ProfileConfig.GetAfterGlobalSet | ariel_client/src/config_manager.py:146-159 | after a global write, `get` returns the written value |
| ProfileConfig.GetAfterProfileSet | ariel_client/src/config_manager.py:146-159 | after a profile write, `get` returns the written value unless a global entry of the same key shadows it, in which case `get` is unchanged |
| ProfileConfig.SwitchChange | ariel_client/src/config_manager.py:170-175 | switching succeeds exactly for a stored profile name, and then makes that name active; otherwise nothing changes |
| ProfileConfig.AddChange | ariel_client/src/config_manager.py:177-187 | adding succeeds exactly for a new name and appends a copy of `from_profile` when stored, else of the defaults; globals unchanged; validity and an existing active profile preserved |
| ProfileConfig.RemoveChange | ariel_client/src/config_manager.py:189-204 | removal succeeds exactly for a stored name when more than one profile exists; at least one profile remains; removing the active profile activates the first remaining one |
| ProfileConfig.RenameChange | ariel_client/src/config_manager.py:206-220 | renaming succeeds exactly when the old name exists and the new one does not; the profile moves to the end under the new name; the active name follows it |
| ProfileConfig.RenameKeepsSettings | ariel_client/src/config_manager.py:206-212 | after a rename, the new name holds exactly the old profile's settings and the old name is gone |
| ProfileConfig.MigratedStable | ariel_client/src/config_manager.py:100-109 | a default entry once migrated stays migrated under any later migration step |
| ProfileConfig.MigrateEntryFacts | ariel_client/src/config_manager.py:100-109 | one migration step raises exactly for a stored colour value whose sub-keys cannot be filled; otherwise it only adds, migrates the entry, and flags exactly when it added something |
| ProfileConfig.MigrateKeysFacts | ariel_client/src/config_manager.py:100-109 | migrating one profile only adds keys and sub-keys, leaves every default entry migrated, and flags exactly when the profile grew |
| ProfileConfig.MigrateKeysFlag | ariel_client/src/config_manager.py:100-109 | the per-profile flag is set exactly when the profile changed |
| ProfileConfig.MigrateKeysIdle | ariel_client/src/config_manager.py:100-109 | a profile that needs no migration is returned unchanged and unflagged |
| ProfileConfig.MigrateEntryIdle | ariel_client/src/config_manager.py:100-109 | a default key already in the profile, with every nested colour key present where the default is an object, leaves the profile unchanged and unflagged |
| ProfileConfig.MigrateKeysRaises | ariel_client/src/config_manager.py:100-109 | once a prefix of the default entries raises, the whole loop raises |
| ProfileConfig.MigrateProfiles | ariel_client/src/config_manager.py:98-109 | the migrated profiles keep the stored profile names in their order |
| ProfileConfig.MigrateProfilesResult | ariel_client/src/config_manager.py:98-109 | the outer loop raises exactly when some stored profile is not a migratable dictionary; otherwise each profile is its own migration, and the flag is set exactly when some profile changed |
| ProfileConfig.MigrateProfilesIdle | ariel_client/src/config_manager.py:98-109 | profiles that need no migration come back unchanged and unflagged |
| ProfileConfig.DefaultTopLevel | ariel_client/src/config_manager.py:71-75 | the default top level holds `is_first_run`, `active_profile` and `profiles`, in that order |
| ProfileConfig.DefaultsMigrated | ariel_client/src/config_manager.py:23-67 | the default profile itself needs no migration |
| ProfileConfig.FillTopLevel | ariel_client/src/config_manager.py:91-94 | the top-level loop adds exactly the missing `is_first_run` and `active_profile`, never touches `profiles` or a stored value, and changes the document exactly when one was missing |
| ProfileConfig.MergeGlobals | ariel_client/src/config_manager.py:91-94 | the global entries after the top-level loop are the stored ones plus the two missing defaults, with stored values kept |
| ProfileConfig.MergeDocRaises | ariel_client/src/config_manager.py:98-99 | loading a parsed dictionary raises exactly when its `profiles` entry is not a dictionary of migratable profiles |
| ProfileConfig.MergeDocGlobals | ariel_client/src/config_manager.py:87-94 | the loaded globals are the stored top-level entries plus the missing defaults, with every stored value kept |
| ProfileConfig.MergeDocProfiles | ariel_client/src/config_manager.py:96-109 | the loaded profiles keep the stored names, extend each stored profile, and need no further migration; no `profiles` entry stays absent |
| ProfileConfig.MergeDocShaped | ariel_client/src/config_manager.py:87-114 | every configuration the merge returns has the loaded shape: both top-level defaults present, no `profiles` global entry, every profile migrated |
| ProfileConfig.MergeDocValid | ariel_client/src/config_manager.py:87-114 | merging a parsed dictionary with distinct keys, as `json.load` gives, returns a valid configuration: distinct global keys without `profiles`, distinct profile names |
| ProfileConfig.MergeDocSaved | ariel_client/src/config_manager.py:87-112 | the file is rewritten exactly when a top-level default was missing or some profile changed |
| ProfileConfig.DefaultConfigShaped | ariel_client/src/config_manager.py:69-82 | the default configuration has the loaded shape |
| ProfileConfig.Load | ariel_client/src/config_manager.py:77-116 | a missing or unreadable file gives the default configuration, saved; a file that is not UTF-8 raises; a non-dictionary document raises; a dictionary is merged; every result has the loaded shape |
| ProfileConfig.LoadValid | ariel_client/src/config_manager.py:77-116 | every configuration loaded from a missing, unreadable or parsed file is valid |
| ProfileConfig.MergeStable | ariel_client/src/config_manager.py:87-114 | merging the saved form of a loaded configuration returns it unchanged and does not rewrite the file |
| ProfileConfig.MergeStableGlobals | ariel_client/src/config_manager.py:91-94 | a document with both top-level defaults and no profiles merges to itself, unsaved |
| ProfileConfig.MergeStableProfiles | ariel_client/src/config_manager.py:96-111 | a document with both top-level defaults and only migrated profiles merges to itself, unsaved |
| ProfileConfig.LoadTwice | ariel_client/src/config_manager.py:77-116 | loading is idempotent: loading the saved result again gives the same configuration and no further write |
| ProfileConfig.FillSubKeys | ariel_client/src/config_manager.py:105-109 | the colour sub-key loop adds exactly the missing default sub-keys and flags exactly when it added one |
| ProfileConfig.CheckSubKeys | ariel_client/src/config_manager.py:105-109 | for a stored colour value that is not a dictionary, the loop survives exactly when the value can be filled (every sub-key already present as a substring or member) |
| ProfileConfig.MigrateProfileLoop | ariel_client/src/config_manager.py:99-109 | the loop over one profile's default entries computes `MigrateKeys` |
| ProfileConfig.MigrateEntryStep | ariel_client/src/config_manager.py:100-109 | one key's migration as the loop body takes it computes exactly the entry migration: add a missing key, fill missing nested colours, or raise on a stored non-object value lacking them |
| ProfileConfig.FillTopLevelLoop | ariel_client/src/config_manager.py:90-94 | the top-level loop adds the missing defaults except `profiles` and flags exactly when it changed the document |
| ProfileConfig.ProfileRejected | ariel_client/src/config_manager.py:98-99 | one stored profile that is not migratable makes the whole load raise |
| ProfileConfig.MigrateProfilesLoop | ariel_client/src/config_manager.py:97-109 | the loop over the stored profiles computes `MigrateProfiles` |
| ProfileConfig.MergeDocLoop | ariel_client/src/config_manager.py:87-114 | the body of `load_config` after parsing computes the merge |
| ProfileConfig.LoadConfig | ariel_client/src/config_manager.py:77-116 | `load_config` as run computes `Load` |
| ProfileConfig.ConfigManager.FromLoaded | ariel_client/src/config_manager.py:20-21 | the manager holds the loaded configuration, and the file holds it when loading wrote it |
| ProfileConfig.ConfigManager.Open | ariel_client/src/config_manager.py:11-21 | construction fails exactly when loading raises; otherwise the manager holds the loaded configuration, which is valid |
| ProfileConfig.ConfigManager.Save | ariel_client/src/config_manager.py:128-130 | saving writes the configuration in memory and changes nothing else |
| ProfileConfig.ConfigManager.ResetConfig | ariel_client/src/config_manager.py:132-136 | reset installs, saves and returns the default configuration, which is valid |
| ProfileConfig.ConfigManager.Set | ariel_client/src/config_manager.py:152-160 | `set` updates the configuration as `SetValue` says, saves it, and keeps a valid configuration valid |
| ProfileConfig.ConfigManager.SwitchProfile | ariel_client/src/config_manager.py:170-175 | the switch follows `SwitchChange`, writes the file only on success, and keeps a valid configuration valid |
| ProfileConfig.ConfigManager.AddProfile | ariel_client/src/config_manager.py:177-187 | the addition follows `AddChange`, writes the file only on success, returns the source's messages, and keeps a valid configuration valid |
| ProfileConfig.ConfigManager.RemoveProfile | ariel_client/src/config_manager.py:189-204 | the removal follows `RemoveChange`, writes the file only on success, returns the source's messages, and keeps the configuration valid |
| ProfileConfig.ConfigManager.RenameProfile | ariel_client/src/config_manager.py:206-220 | the rename follows `RenameChange`, writes the file only on success, returns the source's messages, and keeps the configuration valid |
| FlatConfig.Defaults | src/config_manager.py:17-40 | twenty default settings, none of them a retired key |
| FlatConfig.Drop | src/config_manager.py:59-64 | the retired keys are removed, every other entry is kept, and the document changes exactly when a retired key was present |
| FlatConfig.Merge | src/config_manager.py:52-64 | the loaded keys are the stored and default keys minus the retired ones; stored values win over defaults; the flag is set exactly when the document changed |
| FlatConfig.LoadDoc | src/config_manager.py:48-69 | a dictionary is merged, keeping every stored value and dropping retired keys; a string or list survives only when the loops do not raise on it and is returned as is; anything else raises |
| FlatConfig.Load | src/config_manager.py:42-73 | a missing or unreadable file gives the saved defaults; a file that is not UTF-8 raises; a parsed document goes through `LoadDoc` |
| FlatConfig.LoadDocTwice | src/config_manager.py:48-69 | loading a loaded document again returns it unchanged and unsaved |
| FlatConfig.LoadTwice | src/config_manager.py:42-73 | loading is idempotent |
| FlatConfig.FillDefaults | src/config_manager.py:54-57 | the defaults loop adds exactly the missing keys and flags exactly when it added one |
| FlatConfig.MergeLoop | src/config_manager.py:52-64 | both loops together compute `Merge` |
| FlatConfig.CheckMembers | src/config_manager.py:54-64 | for a string or list document, the loops survive exactly as `SurvivesLoops` says |
| FlatConfig.LoadConfig | src/config_manager.py:42-73 | `load_config` as run computes `Load` |
| FlatConfig.Lookup | src/config_manager.py:83-84 | `get` returns the stored value, or the default when the key is absent, and raises on a document that is not a dictionary |
| FlatConfig.Assign | src/config_manager.py:86-87 | assignment raises on a document that is not a dictionary, and otherwise keeps the key order and appends a new key |
| FlatConfig.LookupAfterAssign | src/config_manager.py:83-88 | after `set(k, v)`, `get(k)` is `v` and every other key reads as before |
| FlatConfig.ConfigManager.FromLoaded | src/config_manager.py:14-15 | the manager holds the loaded configuration, and the file holds it when loading wrote it |
| FlatConfig.ConfigManager.Open | src/config_manager.py:6-15 | construction fails exactly when loading raises |
| FlatConfig.ConfigManager.GetValue | src/config_manager.py:83-84 | the manager's `get` reads its configuration through `Lookup` |
| FlatConfig.ConfigManager.Set | src/config_manager.py:86-88 | `set` assigns and saves, or raises and changes nothing |
| FlatConfig.ConfigManager.ResetToDefaults | src/config_manager.py:90-95 | reset installs, saves and returns the defaults |
| HotkeyFormat.FormatPart | ariel_client/src/core/hotkey_manager.py:34-40 | a formatted part is stripped and gains no `+` |
| HotkeyFormat.FormatParts | ariel_client/src/core/hotkey_manager.py:28-40 | there is one formatted part per `+`-separated part of the lower-cased string, none containing `+` |
| HotkeyFormat.SplitFormat | ariel_client/src/core/hotkey_manager.py:28-42 | splitting the formatted string on `+` gives back the formatted parts, as many as the input had |
| HotkeyFormat.FormatPartTwice | ariel_client/src/core/hotkey_manager.py:34-40 | formatting a part is idempotent |
| HotkeyFormat.FormatPartLower | ariel_client/src/core/hotkey_manager.py:34-40 | formatting keeps a lower-case part lower-case |
| HotkeyFormat.FormatLower | ariel_client/src/core/hotkey_manager.py:23-42 | the formatted hotkey is lower-case |
| HotkeyFormat.FormatTwice | ariel_client/src/core/hotkey_manager.py:23-42 | formatting a hotkey is idempotent |
| LegacyHotkeys.ParseHotkey | src/hotkey_manager.py:16-20 | a hotkey is parsed exactly when the setting is a non-empty string; the result has as many parts as the setting and is already in the notation |
| LegacyHotkeys.KeepTruthy | src/hotkey_manager.py:27 | the comprehension keeps exactly the entries with a non-empty key, and never the empty key |
| LegacyHotkeys.RegisteredBindings | src/hotkey_manager.py:22-27 | the registered table maps a hotkey to setup over stop over start, as the later dictionary entry wins, and never binds the empty hotkey |
| LegacyHotkeys.LaterWins | src/hotkey_manager.py:22-26 | of the three dictionary entries, the last one written to a key decides its action |
| LegacyHotkeys.NothingConfigured | src/hotkey_manager.py:22-27 | with none of the three settings present, nothing is registered |
| LegacyHotkeys.HotkeyManager.constructor | src/hotkey_manager.py:11-27 | the manager holds the registered table and no listener |
| LegacyHotkeys.HotkeyManager.Start | src/hotkey_manager.py:42-50 | a listener is started only when none runs and something is registered, and only when the keyboard hook accepts it |
| LegacyHotkeys.HotkeyManager.Stop | src/hotkey_manager.py:52-58 | after `stop` no listener runs |
| ClientHotkeys.HotkeyTable | ariel_client/src/core/hotkey_manager.py:44-54 | every action in the table is a `hotkey_` setting of the profile |
| ClientHotkeys.LaterSettingWins | ariel_client/src/core/hotkey_manager.py:50-54 | a hotkey bound by several settings maps to the last of them |
| ClientHotkeys.UnboundHotkey | ariel_client/src/core/hotkey_manager.py:50-54 | a hotkey no setting binds is not in the table |
| ClientHotkeys.ActionsMissTray | ariel_client/src/core/hotkey_manager.py:53 | the emitted action names keep the `hotkey_` prefix, so none equals an action name the tray handles |
| ClientHotkeys.ListenerMap | ariel_client/src/core/hotkey_manager.py:72-78 | the listener map is empty exactly when the table is |
| ClientHotkeys.ListenerKeys | ariel_client/src/core/hotkey_manager.py:72-78 | every table hotkey appears in the listener map in the `pynput` notation |
| ClientHotkeys.ListenerActions | ariel_client/src/core/hotkey_manager.py:72-78 | every action in the listener map comes from the table |
| ClientHotkeys.ToPynputFormat | ariel_client/src/core/hotkey_manager.py:23-42 | the loop computes the hotkey notation `Format` |
| ClientHotkeys.HotkeyManager.Empty | ariel_client/src/core/hotkey_manager.py:16-20 | the fields `__init__` sets before loading: an empty table and no listener |
| ClientHotkeys.HotkeyManager.Open | ariel_client/src/core/hotkey_manager.py:16-21 | construction fails exactly when reading the active profile raises; otherwise the table is that profile's table and no listener runs |
| ClientHotkeys.HotkeyManager.LoadHotkeys | ariel_client/src/core/hotkey_manager.py:44-57 | loading replaces the table with the active profile's table, or raises and leaves it as it was |
| ClientHotkeys.HotkeyManager.BuildHotkeyTable | ariel_client/src/core/hotkey_manager.py:50-54 | the loop over the profile's settings builds exactly the hotkey table of that profile |
| ClientHotkeys.HotkeyManager.BuildListenerMap | ariel_client/src/core/hotkey_manager.py:72-80 | the loop builds `ListenerMap` of the table |
| ClientHotkeys.HotkeyManager.Start | ariel_client/src/core/hotkey_manager.py:66-93 | any running listener is stopped; a new one runs on the listener map exactly when the table is non-empty and the hook accepts it |
| ClientHotkeys.HotkeyManager.Stop | ariel_client/src/core/hotkey_manager.py:95-100 | after `stop` no listener runs and the table is unchanged |
| ClientHotkeys.HotkeyManager.ReloadHotkeys | ariel_client/src/core/hotkey_manager.py:102-107 | reload stops, reloads the table and restarts; if reading the profile raises, the listener stays stopped |
| AudioProcessor.FirstSupported | ariel_client/src/core/audio_processor.py:94-103 | the negotiated rate is the first preferred rate the device supports, and none exactly when it supports none |
| AudioProcessor.NegotiateRate | ariel_client/src/core/audio_processor.py:95-103 | the negotiation loop computes `FirstSupported` over 48000, 32000, 16000, 8000 |
| AudioProcessor.ChunkSize | ariel_client/src/core/audio_processor.py:112 | a chunk holds exactly 30 ms of frames at every supported rate |
| AudioProcessor.EveryOther | ariel_client/src/core/audio_processor.py:139-145 | `frame_data[::2]` keeps exactly the even-indexed bytes, in order: half the length rounded up, every kept byte from an even index and every even-indexed byte kept at half its index |
| AudioProcessor.FullReadReachesDetector | ariel_client/src/core/audio_processor.py:137-150 | a full read passes the length check exactly for one or two channels, so any other channel count sends no frame to the detector |
| AudioProcessor.Concat | ariel_client/src/core/audio_processor.py:160 | the joined chunk is as long as its frames together |
| AudioProcessor.ConcatInOrder | ariel_client/src/core/audio_processor.py:160 | each buffered frame appears in the joined chunk, whole and in buffer order, right after the frames before it |
| AudioProcessor.StepKeepsBuffer | ariel_client/src/core/audio_processor.py:152-164 | a step never loses buffered audio: the buffer stays, grows by the new frame, or is flushed, and a flushed buffer is emitted whole and in order exactly when it is long enough; only a silent frame can emit |
| AudioProcessor.StepInv | ariel_client/src/core/audio_processor.py:149-164 | one step keeps every buffered frame detector-sized, and any chunk it emits is non-empty, frame-aligned and at least the minimum length |
| AudioProcessor.WholeFrames | ariel_client/src/core/audio_processor.py:160 | joining buffered detector-sized frames gives a non-empty whole number of frames |
| AudioProcessor.RunInv | ariel_client/src/core/audio_processor.py:135-168 | over any sequence of reads the invariant holds and every emitted chunk is well-formed |
| AudioProcessor.SilenceEmitsNothing | ariel_client/src/core/audio_processor.py:152-164 | reads without speech emit no chunk |
| AudioProcessor.SilenceFrom | ariel_client/src/core/audio_processor.py:152-164 | reads without speech emit no chunk, whatever the silence count was |
| AudioProcessor.ChunkEvents | ariel_client/src/core/audio_processor.py:163 | one `audio_chunk_ready` signal per chunk, in order |
| AudioProcessor.ChunkEventsOk | ariel_client/src/core/audio_processor.py:135-168 | every `audio_chunk_ready` signal a run sends carries a non-empty, frame-aligned chunk of at least the minimum length |
| AudioProcessor.Processor.constructor | ariel_client/src/core/audio_processor.py:20-37 | not running, no device or stream, 16000 Hz, empty chunk size and channels, the silence and minimum-length settings stored |
| AudioProcessor.Processor.Stop | ariel_client/src/core/audio_processor.py:172-190 | stopping an idle processor does nothing; otherwise it releases stream and device and emits `stopped` then `finished` |
| AudioProcessor.Processor.Listen | ariel_client/src/core/audio_processor.py:130-168 | the read loop emits the chunks the segmenter produces, then the disconnect status if a read failed |
| AudioProcessor.Processor.ReadLoop | ariel_client/src/core/audio_processor.py:135-168 | the read loop collects exactly the chunks the segmenter emits over the frames before the first failed read, and reports failure exactly when some read fails |
| AudioProcessor.Processor.StartProcessing | ariel_client/src/core/audio_processor.py:87-170 | device failure, unsupported rates and a failed open each emit their status and stop; otherwise the rate, chunk size and channels are set, the stream is read to the end, and the processor stops |
| SentenceWorker.RememberKeeps | src/worker.py:68 | appending to the history puts the text last and keeps at most three entries, dropping the oldest |
| SentenceWorker.HistoryIsLatest | src/worker.py:34 | from an empty history, the history is always the three most recent texts, oldest first |
| SentenceWorker.RememberFull | src/worker.py:34 | appending to a full history gives the latest three of the extended sequence |
| SentenceWorker.Offer | src/worker.py:126-136 | a non-final or blank transcript changes nothing; a final one is stripped and buffered; the third one flushes the buffer as one space-joined text; the buffer stays below three |
| SentenceWorker.JoinStripped | src/worker.py:129-142 | a committed sentence built from stripped non-blank transcripts is non-empty and stripped |
| SentenceWorker.ThreeSentences | src/worker.py:126-144 | three final transcripts in a row produce exactly one commit, of the three stripped texts joined by spaces |
| SentenceWorker.TranslateFacts | src/worker.py:44-69 | an empty text does nothing; the translation raises exactly without an engine or on an unreadable setting; with targets it emits the engine's result and remembers the text; without targets it only reports the error |
| SentenceWorker.Worker.constructor | src/worker.py:24-41 | not running, no engine, empty buffer and history, timer idle |
| SentenceWorker.Worker.TranslateText | src/worker.py:44-69 | `translate_text` has the effect `Translate` describes and leaves buffer, timer and running state alone |
| SentenceWorker.Worker.Commit | src/worker.py:138-144 | a commit empties the buffer and translates its space-joined sentences, or does nothing on an empty buffer |
| SentenceWorker.Worker.OnTranscript | src/worker.py:126-136 | a transcript is ignored when stopped; otherwise the buffer follows `Offer`, the timer starts on a buffered sentence and stops on a flush, which is translated |
| SentenceWorker.Worker.OnTimeout | src/worker.py:30-32 | the timer's timeout commits the buffer |
| SentenceWorker.TimerInterval | src/worker.py:82-83 | `setInterval` accepts exactly an integer in C `int` range, kept as is, a float in that range, truncated toward zero, or a boolean as 0 or 1; an out-of-range number, a string, null, a list or a dictionary is rejected |
| SentenceWorker.Worker.StartProcessing | src/worker.py:72-109 | starting is idempotent; it clears buffer and history, reads the commit delay and raises exactly when reading fails or `setInterval` rejects the delay, otherwise sets the interval and reports success or the initialisation failure |
| SentenceWorker.Worker.StopProcessing | src/worker.py:112-123 | stopping a running worker stops it and its timer and keeps buffer and history |
| TranslationWorker.TesseractLang | ariel_client/src/core/translation_worker.py:107-113 | `auto` and unmapped codes give `eng+kor`; a mapped code gives its Tesseract code; it raises exactly for an unhashable setting |
| TranslationWorker.ResolveTarget | ariel_client/src/core/translation_worker.py:64-68 | a code is upper-cased; `auto` becomes the upper-cased language part of the system locale, before its first `_`; it raises exactly for a non-string setting |
| TranslationWorker.SourceParam | ariel_client/src/core/translation_worker.py:142 | the engine gets no source language exactly for `auto`, and the setting otherwise |
| TranslationWorker.MinConfidence | ariel_client/src/core/translation_worker.py:125-126 | a number or a boolean is the threshold (a boolean as 0 or 1); JSON null compares false against every row and so keeps none; any other setting raises |
| TranslationWorker.Confident | ariel_client/src/core/translation_worker.py:126 | exactly the words with confidence above the threshold are kept |
| TranslationWorker.ConfidentInOrder | ariel_client/src/core/translation_worker.py:126 | the filter keeps the words' order: filtering two runs one after the other gives the first run's kept words, then the second's |
| TranslationWorker.ConfidentSnoc | ariel_client/src/core/translation_worker.py:126 | a word added at the end is kept, at the end, exactly when its confidence is above the threshold |
| TranslationWorker.InsertKey | ariel_client/src/core/translation_worker.py:133 | inserting a new line key keeps the keys increasing and adds exactly that key |
| TranslationWorker.LineKeys | ariel_client/src/core/translation_worker.py:133 | `groupby`'s keys are the distinct line keys of the words, in increasing (page, block, paragraph, line) order |
| TranslationWorker.WithKey | ariel_client/src/core/translation_worker.py:133 | a group holds exactly the words with its key |
| TranslationWorker.WithKeyInOrder | ariel_client/src/core/translation_worker.py:133 | a group keeps its words in their original order: two runs give the first run's words of that key, then the second's |
| TranslationWorker.WithKeySnoc | ariel_client/src/core/translation_worker.py:133 | a word added at the end joins a group, at its end, exactly when it has the group's key |
| TranslationWorker.Groups | ariel_client/src/core/translation_worker.py:133 | one non-empty group per line key, in key order, each word in the group of its own key; each group is the words of its key in their original order (`WithKey`) |
| TranslationWorker.MinOf | ariel_client/src/core/translation_worker.py:26-27 | the minimum is one of the values and no value is below it |
| TranslationWorker.MaxOf | ariel_client/src/core/translation_worker.py:28-29 | the maximum is one of the values and no value is above it |
| TranslationWorker.Aggregate | ariel_client/src/core/translation_worker.py:22-34 | a line is produced exactly when its box has positive width and height; its text is the words joined by spaces and its rectangle is valid |
| TranslationWorker.AggregateEncloses | ariel_client/src/core/translation_worker.py:26-32 | the line rectangle encloses every word's box, and each of its edges is some word's edge |
| TranslationWorker.Lines | ariel_client/src/core/translation_worker.py:133 | `dropna` keeps at most one line per group, each with a valid rectangle |
| TranslationWorker.LinesInOrder | ariel_client/src/core/translation_worker.py:133 | the lines follow their groups' order: two runs of groups give the first run's lines, then the second's |
| TranslationWorker.LinesSnoc | ariel_client/src/core/translation_worker.py:133 | a group added at the end gives, at the end, its `Aggregate` line when it has a box and nothing otherwise |
| TranslationWorker.KeptRows | ariel_client/src/core/translation_worker.py:150-151 | the kept rows are exactly the line indices that have a non-empty translation, in increasing order |
| TranslationWorker.Patches | ariel_client/src/core/translation_worker.py:150-151 | one patch per kept row, holding that line's text, its translation and its rectangle |
| TranslationWorker.PatchesShown | ariel_client/src/core/translation_worker.py:150-151 | every patch has a non-empty translation and a valid rectangle |
| TranslationWorker.Recognition | ariel_client/src/core/translation_worker.py:123-154 | after Tesseract, the run fails with an OCR error exactly when the threshold cannot be read or compared; a null threshold gives the empty patch list; it always emits something; every patch list it emits is placeable; a run that ends with a patch list ends with the empty one |
| TranslationWorker.Worker.constructor | ariel_client/src/core/translation_worker.py:42-47 | the worker reads the given configuration and has emitted nothing |
| TranslationWorker.Worker.ProcessSttAudio | ariel_client/src/core/translation_worker.py:70-101 | blank speech returns to listening; otherwise unreadable settings raise an STT error, a failed translation reports failure, and a success emits the text, the resolved target and its translation |
| TranslationWorker.Worker.ProcessOcrImage | ariel_client/src/core/translation_worker.py:103-158 | unreadable language settings raise an OCR error; otherwise the extraction status is followed by the recognition of Tesseract's words in the resolved languages |
| OverlayWindow.United | ariel_client/src/gui/overlay_window.py:85 | Qt's `united` ignores a null rectangle on either side |
| OverlayWindow.UnitedValid | ariel_client/src/gui/overlay_window.py:85 | the union of two valid rectangles is their bounding box, valid and enclosing both |
| OverlayWindow.UnionValid | ariel_client/src/gui/overlay_window.py:84-85 | the fold over the patches' rectangles is valid |
| OverlayWindow.UnionEncloses | ariel_client/src/gui/overlay_window.py:84-85 | the fold encloses every patch rectangle |
| OverlayWindow.UnionTight | ariel_client/src/gui/overlay_window.py:84-85 | each edge of the fold is some patch's edge, so the window is the smallest enclosing rectangle |
| OverlayWindow.RelativeInside | ariel_client/src/gui/overlay_window.py:88 | a rectangle translated to its enclosing window's origin lies inside the window and keeps its size |
| OverlayWindow.PatchesInside | ariel_client/src/gui/overlay_window.py:84-89 | every patch placed by `update_ocr_patches` lies inside the overlay and keeps its size |
| OverlayWindow.GetEdge | ariel_client/src/gui/overlay_window.py:127-133 | each edge is reported exactly when the point is within the 10-pixel margin of it |
| OverlayWindow.EdgeBands | ariel_client/src/gui/overlay_window.py:127-133 | a window at least two margins wide never reports left and right together, and one at least two margins tall never reports top and bottom together |
| OverlayWindow.Resized | ariel_client/src/gui/overlay_window.py:108-115 | a resize moves exactly the grabbed edges by the pointer's movement |
| OverlayWindow.Opacity | ariel_client/src/gui/overlay_window.py:76 | opacity is between 0.15 and 1, and 1 for the newest message |
| OverlayWindow.OpacityFades | ariel_client/src/gui/overlay_window.py:75-76 | older messages are never more opaque than newer ones |
| OverlayWindow.Overlay.constructor | ariel_client/src/gui/overlay_window.py:47-68 | no messages or patches, hidden, no fade-out pending, neither dragging nor resizing |
| OverlayWindow.Overlay.Fade | ariel_client/src/gui/overlay_window.py:75-76 | every message gets the opacity of its position and nothing else changes |
| OverlayWindow.Overlay.AddSttMessage | ariel_client/src/gui/overlay_window.py:70-76 | the new message goes first; past `max_messages` the oldest is discarded; opacities follow position; a list within the limit stays within it |
| OverlayWindow.Overlay.ClearSttMessages | ariel_client/src/gui/overlay_window.py:78-79 | all messages are discarded, last first |
| OverlayWindow.Overlay.HidePatches | ariel_client/src/gui/overlay_window.py:93-95 | all patches are discarded, last first, and the window is hidden |
| OverlayWindow.Overlay.FadeOutElapsed | ariel_client/src/gui/overlay_window.py:66-68 | the single-shot fade-out timer fires once: nothing is pending afterwards, every patch is discarded, last first, and the window is hidden |
| OverlayWindow.Overlay.UpdateOcrPatches | ariel_client/src/gui/overlay_window.py:81-91 | old patches are discarded; for new data the window becomes the union of the rectangles, one patch per entry is placed relative to it, the window shows and the fade-out timer starts |
| OverlayWindow.Overlay.MousePress | ariel_client/src/gui/overlay_window.py:97-103 | a left press in speech mode starts a resize at a margin, recording the start geometry, and a drag elsewhere; other presses change nothing |
| OverlayWindow.Overlay.MouseMove | ariel_client/src/gui/overlay_window.py:105-115 | a drag moves the window with the pointer; a resize applies `Resized`; otherwise the geometry is unchanged |
| OverlayWindow.Overlay.MouseRelease | ariel_client/src/gui/overlay_window.py:124-125 | release in speech mode ends dragging and resizing |
| LanguageTables.Insert | ariel_client/src/constants.py:33 | insertion keeps the entries sorted by English name and adds exactly the one entry |
| LanguageTables.InsertDistinct | ariel_client/src/constants.py:33 | inserting an entry not yet present into a list without repeats gives a list without repeats |
| LanguageTables.SortByName | ariel_client/src/constants.py:33 | `sorted(... key=name_en)` is sorted and a permutation of its input |
| LanguageTables.DeeplPairs | ariel_client/src/constants.py:39 | the comprehension pairs each language's English name with its DeepL code, in order |
| LanguageTables.UiPairs | ariel_client/src/constants.py:51 | the comprehension pairs each label "native (English)" with its language code, in order |
| LanguageTables.LabelEnds | ariel_client/src/constants.py:51 | every label ends in `)` |
| LanguageTables.LabelInjective | ariel_client/src/constants.py:51 | two labels are equal only for equal names, when native names contain no `(` |
| LanguageTables.DeclaredCodes | ariel_client/src/constants.py:13-30 | sixteen languages with distinct codes, none of them `auto` |
| LanguageTables.DeclaredDeepl | ariel_client/src/constants.py:13-30 | each declared DeepL code is the upper-cased language code |
| LanguageTables.DeclaredNames | ariel_client/src/constants.py:13-30 | the English names are distinct and none is "Auto Detect" or "System Language" |
| LanguageTables.DeclaredNatives | ariel_client/src/constants.py:13-30 | no native name contains `(` |
| LanguageTables.DeclaredWell | ariel_client/src/constants.py:13-30 | the declared table is well-formed and has sixteen entries |
| LanguageTables.LabelsDistinct | ariel_client/src/constants.py:49-52 | the labels of distinct names are distinct and never "Auto Detect" |
| LanguageTables.NoAutoClash | ariel_client/src/constants.py:37-52 | no language collides with the `auto` entries the tables put first |
| LanguageTables.LanguagesFacts | ariel_client/src/constants.py:33 | `LANGUAGES` is the declared table sorted by English name, a permutation of it, and still well-formed |
| LanguageTables.DeeplCodesUpper | ariel_client/src/constants.py:13-30 | each DeepL code is the upper-cased language code |
| LanguageTables.ChoiceTable | ariel_client/src/constants.py:37-40 | a table built as `{auto: "auto", **pairs}` is that entry followed by the pairs, with distinct keys |
| LanguageTables.DeeplTable | ariel_client/src/constants.py:37-46 | a DeepL table has one entry per language after its `auto` entry, with distinct keys |
| LanguageTables.DeeplSourceFacts | ariel_client/src/constants.py:37-40 | the source table is "Auto Detect" then each language's English name and DeepL code, in sorted order |
| LanguageTables.DeeplTargetFacts | ariel_client/src/constants.py:43-46 | the target table is "System Language" then each language's English name and DeepL code, in sorted order |
| LanguageTables.DeeplTablesAgree | ariel_client/src/constants.py:37-46 | the source and target tables differ only in the label of their `auto` entry |
| LanguageTables.UiTable | ariel_client/src/constants.py:49-52 | the interface table is "Auto Detect" then one label per language, with distinct keys |
| LanguageTables.UiValues | ariel_client/src/constants.py:49-52 | the interface table's values are `auto` followed by every language code, all distinct |
| LanguageTables.UiLanguagesFacts | ariel_client/src/constants.py:49-52 | the interface table lists every language once under its label, and each value selects one language |
| UiStrings.TablesAgree | src/languages.py:2-18 | the Korean and English tables have the same keys in the same order |
| UiStrings.Translator.constructor | src/languages.py:21-23 | a translator for `ko` uses the Korean table and for any other code the English one |
| UiStrings.Translator.Tr | src/languages.py:25-26 | `tr` returns the table's text for a known key and the key itself otherwise |
| UiStrings.TrByLanguage | src/languages.py:21-26 | each key gives the chosen language's text, and unknown keys come back unchanged |

## Left out

- File and network I/O, logging, threads, Qt signals and slots: signals are recorded as event sequences, and a file write is recorded as the configuration it stores.
- The settings file path (frozen executable or development tree) and JSON parsing itself: the file arrives as `Missing`, `Unreadable` (an `IOError` or `json.JSONDecodeError`), `Undecodable` (bytes that are not UTF-8, whose `UnicodeDecodeError` escapes `load_config`) or `Parsed(document)`.
- The speech-to-text client, the translation engine, Tesseract, image decoding and the system locale are parameters. An exception raised inside them, or by `Image.open`, is not modelled.
- The lazy creation of the engine and API client in the second translation worker.
- `_find_wasapi_loopback_device`: the device scan is an input, the device found or the reason none was.
- The voice-activity detector is an input, one verdict per frame.
- The audio durations are whole milliseconds, not floating-point seconds.
- Overlay opacities are whole hundredths, not floating-point fractions.
- Cursor shapes, style sheets, HTML labels, painting and window flags of the overlay.
- The Qt timers: the commit timer and the fade-out timer are a flag or a duration, and their firing is an operation.
- `Text` upper- and lower-casing are ASCII-only; Python's Unicode case mapping is not part of this model.
- TranslationWorker.Confident: pandas' float confidence of each word is kept, but the mean confidence of a line is not, because nothing downstream reads it.
- TranslationWorker.Aggregate: a NaN word text, which `astype(str)` turns into "nan", is not modelled; words carry strings.
- SentenceWorker: `on_ocr_text_captured` calls into its parent tray icon and schedules a delayed translation, which are not part of this model.
- SentenceWorker: `start_processing` creates threads, capturers and engines; only whether creating the engine or a later step fails is modelled.
- ProfileConfig.SetValue: a stored `active_profile` that is not a string is excluded by the precondition, since Python would use such a value as a profile name of another type.
- ProfileConfig.SetValue: a global write of `profiles` itself (`set("profiles", v, is_global=True)`), which would replace the whole profile table, is excluded by the precondition; the only global writes the program makes are `is_first_run` and `active_profile`.
- ProfileConfig.ConfigManager.Set: excludes the same global write of `profiles`.
- ProfileConfig: `get_profile_names` and `get_active_profile_name` are plain reads of the key list and of one global entry, with no member of their own.
- LanguageTables.LanguagesFacts: the table properties are proved for every well-formed declared table, and `DeclaredWell` shows that the declared sixteen-language table is one. The sorted literal itself is not evaluated.
- OverlayWindow.Resized: the result is the rectangle asked of `setGeometry`; Qt clamps the size to the widget's minimum, so dragging an edge past the opposite one gives a window of minimum size rather than the negative width the model records. Qt's layout is not modelled.
- OverlayWindow.Overlay.MouseMove: records the same requested rectangle, not the clamped one.
- ProfileConfig.ToDoc: the saved document places `profiles` after the global entries. Python's dictionary keeps it where the loaded file had it, and `json.dump` writes it there. Only the key order of the written file differs.
- OverlayWindow.Overlay.UpdateOcrPatches: the caller sends dictionaries where `update_ocr_patches` unpacks pairs; the model takes pairs, as the method expects.
- TranslationWorker.Worker.ProcessSttAudio: it takes the speech service's transcript as input. The audio bytes and the channel count are not modelled, so neither is the mismatch between `audio_chunk_ready`, which carries bytes only, and the slot, which also expects a channel count.
- ClientHotkeys.ActionsMissTray: whether the tray reacts to an action is not modelled; the lemma shows only that the prefixed names never equal the tray's names.
