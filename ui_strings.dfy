/** The first client's interface strings (`src/languages.py`): one table of
    texts per interface language, and a translator that looks a text up by
    its key in the table of the chosen language. */
module UiStrings {
  import opened Wrappers
  import opened PyDict

  /** The Korean texts. */
  const Ko: Dict<string, string> := [
    ("setup_window_title", "Ariel 설정"),
    ("profile_page_title", "프로필"),
    ("profile_page_nav_text", "프로필"),
    ("api_page_title", "연동 서비스"),
    ("api_page_nav_text", "연동 서비스")
  ]

  /** The English texts. */
  const En: Dict<string, string> := [
    ("setup_window_title", "Ariel Settings"),
    ("profile_page_title", "Profiles"),
    ("profile_page_nav_text", "Profiles"),
    ("api_page_title", "API & Services"),
    ("api_page_nav_text", "API & Services")
  ]

  /** `LANGUAGES`: the tables by language code. */
  const Tables: Dict<string, Dict<string, string>> := [("ko", Ko), ("en", En)]

  /** Both tables are dictionaries over the same keys, in the same order, so
      switching the language never loses a text. */
  lemma TablesAgree()
    ensures DistinctKeys(Ko) && DistinctKeys(En)
    ensures Keys(Ko) == Keys(En)
    ensures Keys(Tables) == ["ko", "en"]
  {
    assert Keys(Ko) == ["setup_window_title", "profile_page_title", "profile_page_nav_text", "api_page_title", "api_page_nav_text"];
    assert Keys(En) == Keys(Ko);
  }

  /** `Translator`: the table of one language, fixed at construction. */
  class Translator {
    const lang: Dict<string, string>

    /** `Translator(language_code)`: the table of a known language, and the
        English table for any other code. */
    constructor (languageCode: string)
      ensures languageCode == "ko" ==> lang == Ko
      ensures languageCode != "ko" ==> lang == En
    {
      lang := Get(Tables, languageCode).GetOr(En);
    }

    /** `tr(key)`: the text for `key` in the chosen table, and the key itself
        when the table has no text for it. */
    function Tr(key: string): (r: string)
      ensures key in Keys(lang) ==> (key, r) in lang
      ensures key !in Keys(lang) ==> r == key
    {
      Get(lang, key).GetOr(key)
    }
  }

  /** A key of the tables comes back as the chosen language's text; any other
      key comes back unchanged, whatever the language. */
  lemma TrByLanguage(t: Translator, i: nat, key: string)
    requires t.lang == Ko || t.lang == En
    requires i < |Ko|
    ensures t.lang == Ko ==> t.Tr(Ko[i].0) == Ko[i].1
    ensures t.lang == En ==> t.Tr(En[i].0) == En[i].1
    ensures key !in Keys(Ko) ==> t.Tr(key) == key
  {
    TablesAgree();
    GetAt(Ko, i);
    GetAt(En, i);
  }
}
