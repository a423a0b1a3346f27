/** The site's language context: the current language, its translation
    table, the lookup `t` that falls back to the key, and the language
    remembered in the browser's storage under "language". */
module Language {

  datatype Language = En | De | Tr

  /** The code a language is written as in storage, one of the codes the
      provider accepts. */
  function Code(l: Language): (r: string)
    ensures r in Codes
  {
    match l
    case En => "en"
    case De => "de"
    case Tr => "tr"
  }

  /** The codes `["en", "de", "tr"]` the provider accepts from storage. */
  const Codes: seq<string> := ["en", "de", "tr"]

  /** The language written as `code`, for an accepted code. */
  function FromCode(code: string): (r: Language)
    requires code in Codes
    ensures Code(r) == code
  {
    if code == "en" then En else if code == "de" then De else Tr
  }

  lemma CodesAreExactlyTheLanguages(code: string)
    ensures code in Codes <==> exists l: Language :: Code(l) == code
  {
    if code in Codes {
      assert Code(FromCode(code)) == code;
    }
  }

  lemma FromCodeOfCode(l: Language)
    ensures FromCode(Code(l)) == l
  {
  }

  // ---- translation tables (a sample of each) ----

  const EnglishTable: map<string, string> := map[
    "home" := "Home", "about" := "About", "projects" := "Projects", "blog" := "Blog",
    "contact" := "Contact", "hero.greeting" := "Hi, I'm", "common.save" := "Save",
    "common.share" := "Share"
  ]

  const GermanTable: map<string, string> := map[
    "home" := "Startseite", "about" := "\U{00DC}ber mich", "projects" := "Projekte", "blog" := "Blog",
    "contact" := "Kontakt", "hero.greeting" := "Hallo, ich bin", "common.save" := "Speichern",
    "common.share" := "Teilen"
  ]

  const TurkishTable: map<string, string> := map[
    "home" := "Ana Sayfa", "about" := "Hakk\U{0131}mda", "projects" := "Projeler", "blog" := "Blog",
    "contact" := "\U{0130}leti\U{015F}im", "hero.greeting" := "Merhaba, ben", "common.save" := "Kaydet",
    "common.share" := "Payla\U{015F}"
  ]

  /** `translations[language]`: every language has its table. */
  function TableFor(l: Language): map<string, string>
  {
    match l
    case En => EnglishTable
    case De => GermanTable
    case Tr => TurkishTable
  }

  /** `table[key] || key`: the translation when there is a non-empty one,
      the key itself otherwise. */
  function Translate(table: map<string, string>, key: string): (r: string)
    ensures key in table && table[key] != "" ==> r == table[key]
    ensures key !in table || table[key] == "" ==> r == key
  {
    if key in table && table[key] != "" then table[key] else key
  }

  /** A lookup gives either the table's text or the key, and never the
      empty string for a non-empty key. */
  lemma TranslateResult(table: map<string, string>, key: string)
    ensures Translate(table, key) == key || (key in table && Translate(table, key) == table[key])
    ensures key != "" ==> Translate(table, key) != ""
  {
  }

  /** A key used on the booking page that no table has renders as itself. */
  lemma MissingKeyShownVerbatim(l: Language)
    ensures Translate(TableFor(l), "appointment.title") == "appointment.title"
  {
    assert "appointment.title" !in TableFor(l) by {
      assert forall k :: k in TableFor(l) ==> |k| != 17;
    }
  }

  lemma NavigationTranslated()
    ensures Translate(TableFor(En), "home") == "Home"
    ensures Translate(TableFor(De), "home") == "Startseite"
    ensures Translate(TableFor(Tr), "home") == "Ana Sayfa"
  {
  }

  // ---- stored language ----

  /** `localStorage.getItem("language")`: null, or a stored string. */
  datatype Stored = Absent | Saved(value: string)

  function StoredAt(storage: map<string, string>, key: string): Stored
  {
    if key in storage then Saved(storage[key]) else Absent
  }

  /** The mount effect's rule: a stored value is adopted when it is a
      non-empty string among the accepted codes; otherwise the language
      stays as it is. */
  function Adopt(current: Language, stored: Stored): (r: Language)
  {
    if stored.Saved? && stored.value != "" && stored.value in Codes then FromCode(stored.value) else current
  }

  /** The language changes on mount only to the one whose code is stored. */
  lemma AdoptIff(current: Language, stored: Stored)
    ensures (stored.Saved? && stored.value in Codes) ==> Code(Adopt(current, stored)) == stored.value
    ensures !(stored.Saved? && stored.value in Codes) ==> Adopt(current, stored) == current
  {
  }

  /** What `setLanguage` stores is adopted again on the next mount. */
  lemma PersistedLanguageRestored(storage: map<string, string>, l: Language, current: Language)
    ensures Adopt(current, StoredAt(storage["language" := Code(l)], "language")) == l
  {
  }

  class LanguageProvider {
    var language: Language
    /** The browser's `localStorage`. */
    var storage: map<string, string>

    /** `useState<Language>("en")`, over whatever the storage holds. */
    constructor(initialStorage: map<string, string>)
      ensures language == En && storage == initialStorage
    {
      language := En;
      storage := initialStorage;
    }

    /** The mount effect: read the stored language and adopt it when accepted. */
    method LoadSaved()
      modifies this
      ensures language == Adopt(old(language), StoredAt(storage, "language"))
      ensures storage == old(storage)
    {
      var saved := StoredAt(storage, "language");
      if saved.Saved? && saved.value != "" && saved.value in Codes {
        language := FromCode(saved.value);
      }
    }

    /** `handleSetLanguage`: switch to l and persist exactly l. */
    method SetLanguage(l: Language)
      modifies this
      ensures language == l
      ensures storage == old(storage)["language" := Code(l)]
    {
      language := l;
      storage := storage["language" := Code(l)];
    }

    /** `t(key)` in the current language. */
    function T(key: string): (r: string)
      reads this
      ensures key in TableFor(language) && TableFor(language)[key] != "" ==> r == TableFor(language)[key]
      ensures key !in TableFor(language) || TableFor(language)[key] == "" ==> r == key
    {
      Translate(TableFor(language), key)
    }
  }
}
