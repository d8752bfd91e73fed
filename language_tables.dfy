/** The second client's language tables (`ariel_client/src/constants.py`):
    the sixteen supported languages keyed by their ISO code, the same table
    ordered by English name, and the three choice tables derived from it for
    the translation source, the translation target and the interface language. */
module LanguageTables {
  import opened PyDict
  import opened Text

  /** One language: its English name, its own name and its DeepL code. */
  datatype Language = Language(nameEn: string, nameNative: string, deeplCode: string)

  type Entry = (string, Language)

  /** `_LANGUAGES`, in the order written. */
  const Declared: Dict<string, Language> := [
    ("en", Language("English", "English", "EN")),
    ("ko", Language("Korean", "한국어", "KO")),
    ("ja", Language("Japanese", "日本語", "JA")),
    ("ar", Language("Arabic", "العربية", "AR")),
    ("cs", Language("Czech", "Čeština", "CS")),
    ("de", Language("German", "Deutsch", "DE")),
    ("el", Language("Greek", "Ελληνικά", "EL")),
    ("es", Language("Spanish", "Español", "ES")),
    ("fr", Language("French", "Français", "FR")),
    ("he", Language("Hebrew", "עברית", "HE")),
    ("id", Language("Indonesian", "Bahasa Indonesia", "ID")),
    ("it", Language("Italian", "Italiano", "IT")),
    ("pt", Language("Portuguese", "Português", "PT")),
    ("ru", Language("Russian", "Русский", "RU")),
    ("tr", Language("Turkish", "Türkçe", "TR")),
    ("uk", Language("Ukrainian", "Українська", "UK"))
  ]

  // ---------------------------------------------------------------- ordering

  /** Python's `a <= b` on strings: code point by code point, a proper
      prefix first. */
  predicate NotAfter(a: string, b: string) {
    if a == [] then true
    else if b == [] then false
    else if a[0] != b[0] then a[0] < b[0]
    else NotAfter(a[1..], b[1..])
  }

  lemma {:induction false} NotAfterTotal(a: string, b: string)
    ensures NotAfter(a, b) || NotAfter(b, a)
  {
    if a != [] && b != [] && a[0] == b[0] {
      NotAfterTotal(a[1..], b[1..]);
    }
  }

  lemma {:induction false} NotAfterTransitive(a: string, b: string, c: string)
    requires NotAfter(a, b) && NotAfter(b, c)
    ensures NotAfter(a, c)
  {
    if a != [] && b != [] && c != [] && a[0] == b[0] && b[0] == c[0] {
      NotAfterTransitive(a[1..], b[1..], c[1..]);
    }
  }

  function Name(e: Entry): string { e.1.nameEn }

  /** Each entry's English name is not after the next one's. */
  predicate SortedByName(s: seq<Entry>) {
    forall i :: 0 <= i < |s| - 1 ==> NotAfter(Name(s[i]), Name(s[i + 1]))
  }

  /** A sequence ordered entry by entry is ordered between any two positions. */
  lemma {:induction false} SortedPairs(s: seq<Entry>, i: nat, j: nat)
    requires SortedByName(s) && i <= j < |s|
    ensures NotAfter(Name(s[i]), Name(s[j]))
  {
    if i == j {
      NotAfterTotal(Name(s[i]), Name(s[j]));
    } else {
      SortedPairs(s, i, j - 1);
      NotAfterTransitive(Name(s[i]), Name(s[j - 1]), Name(s[j]));
    }
  }

  /** `x` placed before the first entry whose name is not before its own, so
      that an entry keeps its place relative to an earlier one with the same
      name. */
  function Insert(x: Entry, s: seq<Entry>): (r: seq<Entry>)
    requires SortedByName(s)
    ensures SortedByName(r)
    ensures multiset(r) == multiset(s) + multiset{x} && |r| == |s| + 1
    ensures s == [] ==> r == [x]
    ensures s != [] ==> r[0] == x || r[0] == s[0]
  {
    if s == [] || NotAfter(Name(x), Name(s[0])) then
      [x] + s
    else
      NotAfterTotal(Name(x), Name(s[0]));
      assert s == [s[0]] + s[1..];
      var rest := Insert(x, s[1..]);
      [s[0]] + rest
  }

  /** Inserting an entry that is not there yet keeps the entries distinct. */
  lemma {:induction false} InsertDistinct(x: Entry, s: seq<Entry>)
    requires SortedByName(s) && Distinct(s) && x !in s
    ensures Distinct(Insert(x, s))
  {
    if s == [] || NotAfter(Name(x), Name(s[0])) {
      DistinctCons(x, s);
    } else {
      assert s == [s[0]] + s[1..];
      DistinctCons(s[0], s[1..]);
      var rest := Insert(x, s[1..]);
      InsertDistinct(x, s[1..]);
      var first := s[0];
      assert first !in multiset(rest);
      DistinctCons(first, rest);
    }
  }

  /** `sorted(items, key=lambda item: item[1]['name_en'])`: a stable sort by
      English name, the result a permutation of the input. */
  function SortByName(s: seq<Entry>): (r: seq<Entry>)
    ensures SortedByName(r)
    ensures multiset(r) == multiset(s) && |r| == |s|
    ensures Distinct(s) ==> Distinct(r)
  {
    if s == [] then []
    else
      assert s == [s[0]] + s[1..];
      DistinctCons(s[0], s[1..]);
      var rest := SortByName(s[1..]);
      assert s[0] in rest ==> s[0] in multiset(rest);
      if Distinct(s) then InsertDistinct(s[0], rest); Insert(s[0], rest) else Insert(s[0], rest)
  }

  // ---------------------------------------------------------------- tables

  /** `dict(sorted(declared.items(), key=...))`: the table ordered by English name. */
  function LanguagesOf(declared: Dict<string, Language>): Dict<string, Language> {
    PutAll([], SortByName(declared))
  }

  /** `LANGUAGES`. */
  const Languages: Dict<string, Language> := LanguagesOf(Declared)

  /** `{info["name_en"]: info["deepl_code"] for info in LANGUAGES.values()}`. */
  function DeeplPairs(d: Dict<string, Language>): (r: Dict<string, string>)
    ensures |r| == |d| && forall i :: 0 <= i < |d| ==> r[i] == (d[i].1.nameEn, d[i].1.deeplCode)
  {
    seq(|d|, i requires 0 <= i < |d| => (d[i].1.nameEn, d[i].1.deeplCode))
  }

  /** The interface label `"<native> (<English>)"`. */
  function Label(l: Language): string { l.nameNative + " (" + l.nameEn + ")" }

  /** `{f"{name_native} ({name_en})": code for code, info in LANGUAGES.items()}`. */
  function UiPairs(d: Dict<string, Language>): (r: Dict<string, string>)
    ensures |r| == |d| && forall i :: 0 <= i < |d| ==> r[i] == (Label(d[i].1), d[i].0)
  {
    seq(|d|, i requires 0 <= i < |d| => (Label(d[i].1), d[i].0))
  }

  /** `{"Auto Detect": "auto", **{name_en: deepl_code ...}}`. */
  function DeeplSourceOf(languages: Dict<string, Language>): Dict<string, string> {
    PutAll([("Auto Detect", "auto")], PutAll([], DeeplPairs(languages)))
  }

  /** `{"System Language": "auto", **{name_en: deepl_code ...}}`. */
  function DeeplTargetOf(languages: Dict<string, Language>): Dict<string, string> {
    PutAll([("System Language", "auto")], PutAll([], DeeplPairs(languages)))
  }

  /** `{"Auto Detect": "auto", **{label: code ...}}`. */
  function UiLanguagesOf(languages: Dict<string, Language>): Dict<string, string> {
    PutAll([("Auto Detect", "auto")], PutAll([], UiPairs(languages)))
  }

  /** `DEEPL_LANGUAGES_SOURCE`. */
  const DeeplSource: Dict<string, string> := DeeplSourceOf(Languages)

  /** `DEEPL_LANGUAGES_TARGET`. */
  const DeeplTarget: Dict<string, string> := DeeplTargetOf(Languages)

  /** `UI_LANGUAGES`. */
  const UiLanguages: Dict<string, string> := UiLanguagesOf(Languages)

  function Values<K, V>(d: Dict<K, V>): seq<V> {
    seq(|d|, i requires 0 <= i < |d| => d[i].1)
  }

  function Names(d: Dict<string, Language>): seq<string> {
    seq(|d|, i requires 0 <= i < |d| => d[i].1.nameEn)
  }

  function Labels(d: Dict<string, Language>): seq<string> {
    seq(|d|, i requires 0 <= i < |d| => Label(d[i].1))
  }

  // ---------------------------------------------------------------- facts

  function Natives(d: Dict<string, Language>): seq<string> {
    seq(|d|, i requires 0 <= i < |d| => d[i].1.nameNative)
  }

  /** A label ends with the closing parenthesis. */
  lemma LabelEnds(l: Language)
    ensures |Label(l)| >= 3 && Label(l)[|Label(l)| - 1] == ')'
  {
  }

  /** When no native name holds an opening parenthesis, the label gives back
      both names, so distinct English names give distinct labels. */
  lemma LabelInjective(a: Language, b: Language)
    requires '(' !in a.nameNative && '(' !in b.nameNative
    requires Label(a) == Label(b)
    ensures a.nameNative == b.nameNative && a.nameEn == b.nameEn
  {
    var l := Label(a);
    var n, m := |a.nameNative|, |b.nameNative|;
    assert l[n] == ' ' && l[n + 1] == '(';
    assert Label(b)[m] == ' ' && Label(b)[m + 1] == '(';
    if n < m {
      assert false;
    } else if m < n {
      assert false;
    }
    assert a.nameNative == l[..n] == b.nameNative;
    assert a.nameEn == l[n + 2..|l| - 1] == b.nameEn;
  }

  /** The columns of the declared table. */
  const DeclaredCodeList: seq<string> :=
    ["en", "ko", "ja", "ar", "cs", "de", "el", "es", "fr", "he", "id", "it", "pt", "ru", "tr", "uk"]
  const DeclaredNameList: seq<string> :=
    ["English", "Korean", "Japanese", "Arabic", "Czech", "German", "Greek", "Spanish",
     "French", "Hebrew", "Indonesian", "Italian", "Portuguese", "Russian", "Turkish", "Ukrainian"]
  const DeclaredNativeList: seq<string> :=
    ["English", "한국어", "日本語", "العربية", "Čeština", "Deutsch", "Ελληνικά", "Español",
     "Français", "עברית", "Bahasa Indonesia", "Italiano", "Português", "Русский", "Türkçe", "Українська"]

  lemma CodeColumn()
    ensures |Declared| == 16 && Keys(Declared) == DeclaredCodeList
  {
  }

  lemma NameColumn()
    ensures Names(Declared) == DeclaredNameList
  {
  }

  lemma NativeColumn()
    ensures Natives(Declared) == DeclaredNativeList
  {
  }

  lemma CodeListFacts()
    ensures Distinct(DeclaredCodeList) && "auto" !in DeclaredCodeList
  {
    forall i, j | 0 <= i < j < |DeclaredCodeList| ensures DeclaredCodeList[i] != DeclaredCodeList[j] {
      assert DeclaredCodeList[i][0] != DeclaredCodeList[j][0] || DeclaredCodeList[i][1] != DeclaredCodeList[j][1];
    }
  }

  lemma NameListFacts()
    ensures Distinct(DeclaredNameList)
    ensures "Auto Detect" !in DeclaredNameList && "System Language" !in DeclaredNameList
  {
    forall i, j | 0 <= i < j < |DeclaredNameList| ensures DeclaredNameList[i] != DeclaredNameList[j] {
      assert |DeclaredNameList[i]| != |DeclaredNameList[j]| || DeclaredNameList[i][0] != DeclaredNameList[j][0];
    }
  }

  lemma NativeListFacts()
    ensures forall i :: 0 <= i < |DeclaredNativeList| ==> '(' !in DeclaredNativeList[i]
  {
    forall i | 0 <= i < |DeclaredNativeList| ensures '(' !in DeclaredNativeList[i] {
      assert forall k :: 0 <= k < |DeclaredNativeList[i]| ==> DeclaredNativeList[i][k] != '(';
    }
  }

  /** The declared table has sixteen languages with distinct ISO codes, none
      of them `auto`. */
  lemma DeclaredCodes()
    ensures |Declared| == 16 && DistinctKeys(Declared) && "auto" !in Keys(Declared)
  {
    CodeColumn();
    CodeListFacts();
  }

  /** Each declared DeepL code is the upper case of its ISO code. */
  lemma DeclaredDeepl()
    ensures forall i :: 0 <= i < |Declared| ==> Declared[i].1.deeplCode == Upper(Declared[i].0)
  {
  }

  /** The declared English names are distinct and none is the name of a
      choice table's `auto` entry. */
  lemma DeclaredNames()
    ensures Distinct(Names(Declared))
    ensures "Auto Detect" !in Names(Declared) && "System Language" !in Names(Declared)
  {
    NameColumn();
    NameListFacts();
  }

  /** No declared native name holds an opening parenthesis. */
  lemma DeclaredNatives()
    ensures forall i :: 0 <= i < |Declared| ==> '(' !in Natives(Declared)[i]
  {
    CodeColumn();
    NativeColumn();
    NativeListFacts();
  }

  /** Distinct English names and native names without an opening parenthesis
      give distinct labels, none of them "Auto Detect". */
  lemma LabelsDistinct(d: Dict<string, Language>)
    requires Distinct(Names(d))
    requires forall i :: 0 <= i < |d| ==> '(' !in Natives(d)[i]
    ensures Distinct(Labels(d)) && "Auto Detect" !in Labels(d)
  {
    forall i, j | 0 <= i < j < |d| ensures Labels(d)[i] != Labels(d)[j] {
      assert Names(d)[i] != Names(d)[j];
      assert '(' !in Natives(d)[i] && '(' !in Natives(d)[j];
      if Label(d[i].1) == Label(d[j].1) {
        LabelInjective(d[i].1, d[j].1);
      }
    }
    forall i | 0 <= i < |d| ensures Labels(d)[i] != "Auto Detect" {
      LabelEnds(d[i].1);
    }
  }

  /** When `r` has no repeated entry and draws its entries from `s`, the ISO
      codes, English names and labels stay distinct. */
  lemma KeysPermuted(s: seq<Entry>, r: seq<Entry>)
    requires Distinct(r) && forall e :: e in r ==> e in s
    requires DistinctKeys(s)
    ensures DistinctKeys(r)
  {
    forall i, j | 0 <= i < j < |r| ensures Keys(r)[i] != Keys(r)[j] {
      assert r[i] in r && r[j] in r;
      var a :| 0 <= a < |s| && s[a] == r[i];
      var b :| 0 <= b < |s| && s[b] == r[j];
      assert Keys(s)[a] != Keys(s)[b] by { if a > b { assert Keys(s)[b] != Keys(s)[a]; } }
    }
  }

  lemma NamesPermuted(s: seq<Entry>, r: seq<Entry>)
    requires Distinct(r) && forall e :: e in r ==> e in s
    requires Distinct(Names(s))
    ensures Distinct(Names(r))
  {
    forall i, j | 0 <= i < j < |r| ensures Names(r)[i] != Names(r)[j] {
      assert r[i] in r && r[j] in r;
      var a :| 0 <= a < |s| && s[a] == r[i];
      var b :| 0 <= b < |s| && s[b] == r[j];
      assert Names(s)[a] != Names(s)[b] by { if a > b { assert Names(s)[b] != Names(s)[a]; } }
    }
  }

  lemma LabelsPermuted(s: seq<Entry>, r: seq<Entry>)
    requires Distinct(r) && forall e :: e in r ==> e in s
    requires Distinct(Labels(s))
    ensures Distinct(Labels(r))
  {
    forall i, j | 0 <= i < j < |r| ensures Labels(r)[i] != Labels(r)[j] {
      assert r[i] in r && r[j] in r;
      var a :| 0 <= a < |s| && s[a] == r[i];
      var b :| 0 <= b < |s| && s[b] == r[j];
      assert Labels(s)[a] != Labels(s)[b] by { if a > b { assert Labels(s)[b] != Labels(s)[a]; } }
    }
  }


  /** What the declaration guarantees of one entry: its DeepL code is the
      upper case of its ISO code, and neither its code, its name nor its label
      is taken by a choice table's `auto` entry. */
  predicate EntryOk(e: Entry) {
    && e.1.deeplCode == Upper(e.0)
    && e.0 != "auto"
    && e.1.nameEn != "Auto Detect" && e.1.nameEn != "System Language"
    && Label(e.1) != "Auto Detect"
  }

  /** What the table declaration guarantees and every derived table relies on. */
  predicate WellDeclared(d: Dict<string, Language>) {
    && DistinctKeys(d) && Distinct(Names(d)) && Distinct(Labels(d))
    && forall e :: e in d ==> EntryOk(e)
  }

  lemma DeclaredWell()
    ensures WellDeclared(Declared) && |Declared| == 16
  {
    DeclaredCodes();
    DeclaredDeepl();
    DeclaredNames();
    DeclaredNatives();
    LabelsDistinct(Declared);
    forall e | e in Declared ensures EntryOk(e) {
      var i :| 0 <= i < |Declared| && Declared[i] == e;
      assert Keys(Declared)[i] == e.0 && Names(Declared)[i] == e.1.nameEn && Labels(Declared)[i] == Label(e.1);
    }
  }

  /** The `auto` entry's key or value never collides with a language's. */
  lemma NoAutoClash(d: Dict<string, Language>)
    requires WellDeclared(d)
    ensures "auto" !in Keys(d) && "Auto Detect" !in Names(d) && "System Language" !in Names(d)
    ensures "Auto Detect" !in Labels(d)
  {
    forall i | 0 <= i < |d| ensures Keys(d)[i] != "auto" && Names(d)[i] != "Auto Detect"
      && Names(d)[i] != "System Language" && Labels(d)[i] != "Auto Detect"
    {
      assert d[i] in d && EntryOk(d[i]);
    }
  }

  /** Sorting keeps every entry, and each once. */
  lemma SortedMembers(d: Dict<string, Language>)
    requires DistinctKeys(d)
    ensures Distinct(SortByName(d)) && forall e :: e in SortByName(d) ==> e in d
  {
    var sorted := SortByName(d);
    assert Distinct(d) by {
      forall i, j | 0 <= i < j < |d| ensures d[i] != d[j] {
        assert Keys(d)[i] != Keys(d)[j];
      }
    }
    forall e | e in sorted ensures e in d {
      assert e in multiset(sorted);
    }
  }

  /** `LANGUAGES` built from a well-declared table (as the declared one is,
      by `DeclaredWell`): the same entries, each once, ordered by English name,
      still well declared, each DeepL code the upper case of its ISO code. */
  lemma LanguagesFacts(d: Dict<string, Language>, r: Dict<string, Language>)
    requires WellDeclared(d) && r == LanguagesOf(d)
    ensures r == SortByName(d) && SortedByName(r)
    ensures multiset(r) == multiset(d) && |r| == |d|
    ensures WellDeclared(r)
  {
    var sorted := SortByName(d);
    SortedWell(d);
    assert DistinctKeys(sorted);
    BuildFresh(sorted);
  }

  /** `dict(items)` of items with distinct keys keeps them as they are. */
  lemma BuildFresh(items: Dict<string, Language>)
    requires DistinctKeys(items)
    ensures PutAll([], items) == items
  {
    assert Keys<string, Language>([]) + Keys(items) == Keys(items);
    PutAllFresh([], items);
    assert [] + items == items;
  }

  /** Sorting a well-declared table keeps it well declared. */
  lemma SortedWell(d: Dict<string, Language>)
    requires WellDeclared(d)
    ensures WellDeclared(SortByName(d))
  {
    var sorted := SortByName(d);
    SortedMembers(d);
    KeysPermuted(d, sorted);
    NamesPermuted(d, sorted);
    LabelsPermuted(d, sorted);
  }

  /** In a well-declared table each DeepL code is the upper case of its ISO code. */
  lemma DeeplCodesUpper(d: Dict<string, Language>, i: nat)
    requires WellDeclared(d) && i < |d|
    ensures d[i].1.deeplCode == Upper(d[i].0)
  {
    assert d[i] in d;
  }

  /** A choice table: the `auto` entry under `autoKey` first, then the pairs
      in order, with no key repeated. */
  lemma {:induction false} ChoiceTable(autoKey: string, pairs: Dict<string, string>, r: Dict<string, string>)
    requires Distinct([autoKey] + Keys(pairs))
    requires r == PutAll([(autoKey, "auto")], PutAll([], pairs))
    ensures r == [(autoKey, "auto")] + pairs && DistinctKeys(r)
  {
    var head: Dict<string, string> := [(autoKey, "auto")];
    var inner := PutAll([], pairs);
    assert Keys<string, string>([]) + Keys(pairs) == Keys(pairs);
    DistinctCons(autoKey, Keys(pairs));
    PutAllFresh([], pairs);
    assert inner == pairs;
    assert Keys(head) == [autoKey];
    PutAllFresh(head, pairs);
    KeysAppend(head, pairs);
  }

  lemma DeeplKeys(d: Dict<string, Language>)
    ensures Keys(DeeplPairs(d)) == Names(d)
  {
  }

  /** A DeepL choice table: the `auto` entry, then each language's English
      name for its DeepL code, with no key repeated. */
  lemma DeeplTable(autoKey: string, d: Dict<string, Language>, r: Dict<string, string>)
    requires Distinct(Names(d)) && autoKey !in Names(d)
    requires r == PutAll([(autoKey, "auto")], PutAll([], DeeplPairs(d)))
    ensures |r| == |d| + 1 && DistinctKeys(r) && r[0] == (autoKey, "auto")
    ensures forall i :: 0 <= i < |d| ==> r[i + 1] == (d[i].1.nameEn, d[i].1.deeplCode)
  {
    var pairs := DeeplPairs(d);
    DeeplKeys(d);
    DistinctCons(autoKey, Names(d));
    ChoiceTable(autoKey, pairs, r);
    forall i | 0 <= i < |d| ensures r[i + 1] == (d[i].1.nameEn, d[i].1.deeplCode) {
      assert r[i + 1] == pairs[i];
    }
  }

  /** `DEEPL_LANGUAGES_SOURCE` over a well-declared table: "Auto Detect" for
      `auto`, then each language's English name for its DeepL code, one entry
      more than there are languages. */
  lemma DeeplSourceFacts(languages: Dict<string, Language>, r: Dict<string, string>)
    requires WellDeclared(languages) && r == DeeplSourceOf(languages)
    ensures |r| == |languages| + 1 && DistinctKeys(r)
    ensures r[0] == ("Auto Detect", "auto")
    ensures forall i :: 0 <= i < |languages| ==> r[i + 1] == (languages[i].1.nameEn, languages[i].1.deeplCode)
  {
    NoAutoClash(languages);
    DeeplTable("Auto Detect", languages, r);
  }

  /** `DEEPL_LANGUAGES_TARGET` over a well-declared table: "System Language"
      for `auto`, then the same language entries as the source table. */
  lemma DeeplTargetFacts(languages: Dict<string, Language>, r: Dict<string, string>)
    requires WellDeclared(languages) && r == DeeplTargetOf(languages)
    ensures |r| == |languages| + 1 && DistinctKeys(r)
    ensures r[0] == ("System Language", "auto")
    ensures forall i :: 0 <= i < |languages| ==> r[i + 1] == (languages[i].1.nameEn, languages[i].1.deeplCode)
  {
    NoAutoClash(languages);
    DeeplTable("System Language", languages, r);
  }

  /** The two DeepL tables differ only in the key of their `auto` entry. */
  lemma DeeplTablesAgree(languages: Dict<string, Language>, source: Dict<string, string>, target: Dict<string, string>)
    requires WellDeclared(languages)
    requires source == DeeplSourceOf(languages) && target == DeeplTargetOf(languages)
    ensures target[1..] == source[1..] && target[0].1 == source[0].1
  {
    DeeplSourceFacts(languages, source);
    DeeplTargetFacts(languages, target);
    forall j | 0 <= j < |languages| ensures target[1..][j] == source[1..][j] {
      var e := languages[j].1;
      assert target[j + 1] == (e.nameEn, e.deeplCode) == source[j + 1];
    }
  }

  lemma UiKeys(d: Dict<string, Language>)
    ensures Keys(UiPairs(d)) == Labels(d)
  {
    var pairs := UiPairs(d);
    forall i | 0 <= i < |d| ensures Keys(pairs)[i] == Labels(d)[i] {
      assert pairs[i].0 == Label(d[i].1);
    }
  }

  /** The interface choice table: "Auto Detect" for `auto`, then each label
      for its ISO code. */
  lemma UiTable(d: Dict<string, Language>, r: Dict<string, string>)
    requires Distinct(Labels(d)) && "Auto Detect" !in Labels(d)
    requires r == PutAll([("Auto Detect", "auto")], PutAll([], UiPairs(d)))
    ensures |r| == |d| + 1 && DistinctKeys(r) && r[0] == ("Auto Detect", "auto")
    ensures forall i :: 0 <= i < |d| ==> r[i + 1] == (Label(d[i].1), d[i].0)
  {
    var pairs := UiPairs(d);
    UiKeys(d);
    DistinctCons("Auto Detect", Labels(d));
    ChoiceTable("Auto Detect", pairs, r);
    forall i | 0 <= i < |d| ensures r[i + 1] == (Label(d[i].1), d[i].0) {
      assert r[i + 1] == pairs[i];
    }
  }

  /** Its values are `auto` and then the ISO codes, so that each appears
      exactly once. */
  lemma UiValues(d: Dict<string, Language>, r: Dict<string, string>)
    requires DistinctKeys(d) && "auto" !in Keys(d)
    requires |r| == |d| + 1 && r[0] == ("Auto Detect", "auto")
    requires forall i :: 0 <= i < |d| ==> r[i + 1] == (Label(d[i].1), d[i].0)
    ensures Values(r) == ["auto"] + Keys(d) && Distinct(Values(r))
  {
    forall i | 0 <= i < |r| ensures Values(r)[i] == (["auto"] + Keys(d))[i] {
      if i > 0 { assert r[i] == (Label(d[i - 1].1), d[i - 1].0); }
    }
    DistinctCons("auto", Keys(d));
  }

  /** `UI_LANGUAGES` over a well-declared table: "Auto Detect" for `auto`,
      then one label per language for its ISO code, with `auto` and every ISO
      code appearing exactly once as a value. */
  lemma UiLanguagesFacts(languages: Dict<string, Language>, r: Dict<string, string>)
    requires WellDeclared(languages) && r == UiLanguagesOf(languages)
    ensures |r| == |languages| + 1 && DistinctKeys(r)
    ensures r[0] == ("Auto Detect", "auto")
    ensures forall i :: 0 <= i < |languages| ==> r[i + 1] == (Label(languages[i].1), languages[i].0)
    ensures Values(r) == ["auto"] + Keys(languages) && Distinct(Values(r))
  {
    NoAutoClash(languages);
    UiTable(languages, r);
    UiValues(languages, r);
  }
}
