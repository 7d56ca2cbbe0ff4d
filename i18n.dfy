/** The translation tables of src/utils/i18n.py: one JSON table per
    language, loaded from the `*.json` files of the translations directory,
    a current language taken from the settings, and a lookup of dotted keys
    that falls back to `pt_BR` and then to the default or the key itself. */
module Translation {
  import opened Wrappers
  import opened Text
  import opened JsonValues
  import Settings

  // ---------------------------------------------------------------------
  // Lookup (lines 58-94)

  /** Lines 66-71: follow `parts` through nested dicts; `None` as soon as a
      step meets something that is not a dict or lacks the key. */
  function Walk(v: Json, parts: seq<string>): (r: Option<Json>)
    ensures parts == [] ==> r == Some(v)
    ensures r.Some? && parts != [] ==> v.JObject? && parts[0] in v.fields
    decreases |parts|
  {
    if parts == [] then Some(v)
    else if v.JObject? && parts[0] in v.fields then Walk(v.fields[parts[0]], parts[1..])
    else None
  }

  /** Lines 73 and 86: a walk counts as found only when it ends on a
      non-empty string. */
  function Found(table: Json, parts: seq<string>): (r: Option<string>)
    ensures r.Some? ==> r.value != "" && Walk(table, parts) == Some(JString(r.value))
    ensures r.None? ==> Walk(table, parts).None? || !Walk(table, parts).value.JString? || Walk(table, parts).value.s == ""
  {
    match Walk(table, parts)
    case Some(JString(s)) => if s != "" then Some(s) else None
    case _ => None
  }

  /** `default or key`, line 90. */
  function DefaultOrKey(default: Option<string>, key: string): string {
    if default.Some? && default.value != "" then default.value else key
  }

  /** The table of a language, when one is loaded. `None` is the KeyError
      of line 65 or 78, which lines 92-94 turn into `default or key`. */
  function TableOf(tables: map<string, Json>, language: Json): Option<Json> {
    if language.JString? && language.s in tables then Some(tables[language.s]) else None
  }

  /** `I18n.get` on the tables and the current language. */
  function TranslationOf(tables: map<string, Json>, current: Json, key: string, default: Option<string>): (r: string)
    ensures TableOf(tables, current).None? ==> r == DefaultOrKey(default, key)
    ensures r != "" || r == DefaultOrKey(default, key)
    ensures key != "" ==> r != ""
  {
    var parts := Split(key, '.');
    match TableOf(tables, current)
    case None => DefaultOrKey(default, key)
    case Some(table) =>
      if Found(table, parts).Some? then Found(table, parts).value
      else if current != JString("pt_BR") then
        match TableOf(tables, JString("pt_BR"))
        case Some(fallback) =>
          if Found(fallback, parts).Some? then Found(fallback, parts).value else DefaultOrKey(default, key)
        case None => DefaultOrKey(default, key)
      else DefaultOrKey(default, key)
  }

  /** A string found in the current language is the answer, whatever
      `pt_BR` holds. */
  lemma CurrentWins(tables: map<string, Json>, current: Json, key: string, default: Option<string>)
    requires TableOf(tables, current).Some? && Found(TableOf(tables, current).value, Split(key, '.')).Some?
    ensures TranslationOf(tables, current, key, default) == Found(TableOf(tables, current).value, Split(key, '.')).value
  {
  }

  /** A key the current language lacks is taken from `pt_BR` when that
      table has it. */
  lemma FallsBackToPtBr(tables: map<string, Json>, language: string, key: string, default: Option<string>)
    requires language in tables && language != "pt_BR" && "pt_BR" in tables
    requires Found(tables[language], Split(key, '.')).None?
    requires Found(tables["pt_BR"], Split(key, '.')).Some?
    ensures TranslationOf(tables, JString(language), key, default) == Found(tables["pt_BR"], Split(key, '.')).value
  {
  }

  /** When the current language has no table, `pt_BR` is not consulted:
      the answer is the default or the key. */
  lemma NoTableNoFallback(tables: map<string, Json>, current: Json, key: string, default: Option<string>)
    requires TableOf(tables, current).None?
    ensures TranslationOf(tables, current, key, default) == DefaultOrKey(default, key)
  {
  }

  /** What the lookup returns is always a non-empty string held at the
      key's path by the current table or by `pt_BR`, or else the default or
      the key. */
  lemma TranslationSources(tables: map<string, Json>, current: Json, key: string, default: Option<string>)
    ensures var r := TranslationOf(tables, current, key, default);
      var parts := Split(key, '.');
      || (TableOf(tables, current).Some? && Walk(TableOf(tables, current).value, parts) == Some(JString(r)) && r != "")
      || ("pt_BR" in tables && Walk(tables["pt_BR"], parts) == Some(JString(r)) && r != "")
      || r == DefaultOrKey(default, key)
  {
  }

  /** The lookup never answers with an empty string for a non-empty key. */
  lemma TranslationNonEmpty(tables: map<string, Json>, current: Json, key: string, default: Option<string>)
    requires key != ""
    ensures TranslationOf(tables, current, key, default) != ""
  {
    TranslationSources(tables, current, key, default);
  }

  /** The nested table that holds `leaf` at the path `parts`. */
  function Nest(parts: seq<string>, leaf: Json): Json
    decreases |parts|
  {
    if parts == [] then leaf else JObject(map[parts[0] := Nest(parts[1..], leaf)])
  }

  /** Walking the path of a nested table reaches its leaf. */
  lemma {:induction false} WalkNest(parts: seq<string>, leaf: Json)
    ensures Walk(Nest(parts, leaf), parts) == Some(leaf)
    decreases |parts|
  {
    if parts != [] {
      WalkNest(parts[1..], leaf);
    }
  }

  /** Walking a longer path is walking its two halves in turn. */
  lemma {:induction false} WalkAppend(v: Json, p: seq<string>, q: seq<string>)
    ensures Walk(v, p + q) == match Walk(v, p) case None => None case Some(w) => Walk(w, q)
    decreases |p|
  {
    if p == [] {
      assert p + q == q;
    } else {
      assert (p + q)[0] == p[0];
      assert (p + q)[1..] == p[1..] + q;
      if v.JObject? && p[0] in v.fields {
        WalkAppend(v.fields[p[0]], p[1..], q);
      }
    }
  }

  /** A path that passes through a string, number, list or null finds
      nothing (lines 67-71). */
  lemma WalkThroughNonDict(v: Json, p: seq<string>, q: seq<string>)
    requires Walk(v, p).Some? && !Walk(v, p).value.JObject? && q != []
    ensures Walk(v, p + q).None?
    ensures Found(v, p + q).None?
  {
    WalkAppend(v, p, q);
  }

  /** A dotted key finds the string stored under the matching nesting of
      the current language, e.g. `"menu.file"` under `{"menu": {"file": s}}`. */
  lemma DottedKeyRoundTrip(language: string, key: string, s: string, default: Option<string>)
    requires s != ""
    ensures TranslationOf(map[language := Nest(Split(key, '.'), JString(s))], JString(language), key, default) == s
  {
    WalkNest(Split(key, '.'), JString(s));
  }

  /** An empty string, or a path ending on a nested table, counts as not
      found: with no fallback the answer is the default or the key. */
  lemma EmptyOrTableNotFound(key: string, leaf: Json, default: Option<string>)
    requires leaf == JString("") || leaf.JObject?
    ensures TranslationOf(map["pt_BR" := Nest(Split(key, '.'), leaf)], JString("pt_BR"), key, default)
      == DefaultOrKey(default, key)
  {
    WalkNest(Split(key, '.'), leaf);
  }

  // ---------------------------------------------------------------------
  // Loading (lines 16-41)

  /** A directory entry of the translations directory: its name, and what
      `json.load` gives for it (`None`: unreadable or not JSON). */
  datatype TranslationFile = TranslationFile(name: string, content: Option<Json>)

  /** Line 30: `file.replace('.json', '')`. */
  function LanguageName(file: string): (language: string)
    ensures |language| <= |file|
    ensures !Contains(file, ".json") ==> language == file
  {
    ReplaceAll(file, ".json", "")
  }

  /** A plain language file name gives the language: `"en_US.json"`
      gives `"en_US"`. */
  lemma {:induction false} LanguageNameOf(base: string)
    requires '.' !in base
    ensures LanguageName(base + ".json") == base
    decreases |base|
  {
    var s := base + ".json";
    if base == [] {
      assert s == ".json";
      assert s[5..] == [];
    } else {
      assert s[0] == base[0] && s[0] != '.';
      assert s[..5] != ".json" by {
        assert s[..5][0] == s[0];
      }
      assert s[1..] == base[1..] + ".json";
      LanguageNameOf(base[1..]);
    }
  }

  /** The tables after reading `files` in order, starting from `tables`:
      only `.json` files are read; the first one that cannot be read ends
      the loop, and the handler of lines 38-41 then sets `pt_BR` to an
      empty table. */
  function LoadFiles(tables: map<string, Json>, files: seq<TranslationFile>): (r: map<string, Json>)
    ensures tables.Keys <= r.Keys
    ensures forall l | l in tables && l != "pt_BR" && l !in LanguagesOf(files) :: r[l] == tables[l]
    decreases |files|
  {
    if files == [] then tables
    else if !EndsWith(files[0].name, ".json") then LoadFiles(tables, files[1..])
    else if files[0].content.None? then tables["pt_BR" := JObject(map[])]
    else LoadFiles(tables[LanguageName(files[0].name) := files[0].content.value], files[1..])
  }

  /** `load_translations` given the directory listing (`None`: the
      directory cannot be created or listed). */
  function LoadListing(tables: map<string, Json>, listing: Option<seq<TranslationFile>>): (r: map<string, Json>)
    ensures tables.Keys <= r.Keys
    ensures listing.None? ==> r.Keys == tables.Keys + {"pt_BR"} && r["pt_BR"] == JObject(map[])
  {
    match listing
    case None => tables["pt_BR" := JObject(map[])]
    case Some(files) => LoadFiles(tables, files)
  }

  predicate IsTranslationFile(f: TranslationFile) {
    EndsWith(f.name, ".json")
  }

  predicate AllReadable(files: seq<TranslationFile>) {
    forall i :: 0 <= i < |files| ==> IsTranslationFile(files[i]) ==> files[i].content.Some?
  }

  /** The languages of the `.json` files among `files`. */
  function LanguagesOf(files: seq<TranslationFile>): set<string>
    decreases |files|
  {
    if files == [] then {}
    else (if IsTranslationFile(files[0]) then {LanguageName(files[0].name)} else {}) + LanguagesOf(files[1..])
  }

  /** When every `.json` file reads, the languages available afterwards
      are those before plus one per `.json` file, named without `.json`;
      other files add nothing. */
  lemma {:induction false} LoadFilesLanguages(tables: map<string, Json>, files: seq<TranslationFile>)
    requires AllReadable(files)
    ensures LoadFiles(tables, files).Keys == tables.Keys + LanguagesOf(files)
    decreases |files|
  {
    if files != [] {
      assert AllReadable(files[1..]) by {
        forall i | 0 <= i < |files[1..]| && IsTranslationFile(files[1..][i])
          ensures files[1..][i].content.Some?
        {
          assert files[1..][i] == files[i + 1];
        }
      }
      if IsTranslationFile(files[0]) {
        assert files[0].content.Some?;
        LoadFilesLanguages(tables[LanguageName(files[0].name) := files[0].content.value], files[1..]);
      } else {
        LoadFilesLanguages(tables, files[1..]);
      }
    }
  }

  /** Whatever happens, a language is available afterwards only if it was
      before, is `pt_BR`, or comes from a `.json` file. */
  lemma {:induction false} LoadFilesOnlyJson(tables: map<string, Json>, files: seq<TranslationFile>)
    ensures LoadFiles(tables, files).Keys <= tables.Keys + {"pt_BR"} + LanguagesOf(files)
    decreases |files|
  {
    if files != [] {
      if !IsTranslationFile(files[0]) {
        LoadFilesOnlyJson(tables, files[1..]);
      } else if files[0].content.Some? {
        LoadFilesOnlyJson(tables[LanguageName(files[0].name) := files[0].content.value], files[1..]);
      }
    }
  }

  /** An unreadable `.json` file leaves `pt_BR` as an empty table, even
      when `pt_BR.json` had been read before it. */
  lemma {:induction false} LoadFailureEmptiesPtBr(tables: map<string, Json>, files: seq<TranslationFile>)
    requires !AllReadable(files)
    ensures "pt_BR" in LoadFiles(tables, files)
    ensures LoadFiles(tables, files)["pt_BR"] == JObject(map[])
    decreases |files|
  {
    if IsTranslationFile(files[0]) && files[0].content.None? {
    } else {
      assert !AllReadable(files[1..]) by {
        var i :| 0 <= i < |files| && IsTranslationFile(files[i]) && files[i].content.None?;
        assert i != 0;
        assert files[1..][i - 1] == files[i];
      }
      if IsTranslationFile(files[0]) {
        LoadFailureEmptiesPtBr(tables[LanguageName(files[0].name) := files[0].content.value], files[1..]);
      } else {
        LoadFailureEmptiesPtBr(tables, files[1..]);
      }
    }
  }

  /** The translation service: the settings object it reads the language
      from and persists it to, the current language (whatever JSON value
      the settings hold), and the loaded tables. */
  class I18n {
    const config: Settings.Config
    var currentLanguage: Json
    var translations: map<string, Json>

    /** `__init__` (lines 10-14). */
    constructor (settings: Settings.ConfigFile, listing: Option<seq<TranslationFile>>)
      ensures config.config == Settings.ShallowLoad(Settings.Defaults, settings).config
      ensures config.file == Settings.ShallowLoad(Settings.Defaults, settings).file
      ensures currentLanguage == JsonValues.Get(config.config, "language", JString("pt_BR"))
      ensures translations == LoadListing(map[], listing)
    {
      var c := new Settings.Config(settings);
      config := c;
      currentLanguage := c.Get("language", JString("pt_BR"));
      translations := map[];
      new;
      LoadTranslations(listing);
    }

    /** `load_translations` (lines 16-41), the listing given. */
    method LoadTranslations(listing: Option<seq<TranslationFile>>)
      modifies this
      ensures translations == LoadListing(old(translations), listing)
      ensures currentLanguage == old(currentLanguage)
    {
      if listing.None? {
        translations := translations["pt_BR" := JObject(map[])];
        return;
      }
      var files := listing.value;
      var i := 0;
      while i < |files|
        invariant 0 <= i <= |files|
        invariant LoadFiles(translations, files[i..]) == LoadFiles(old(translations), files)
        invariant currentLanguage == old(currentLanguage)
      {
        assert files[i..][1..] == files[i + 1..];
        var file := files[i];
        if EndsWith(file.name, ".json") {
          if file.content.None? {
            translations := translations["pt_BR" := JObject(map[])];
            return;
          }
          translations := translations[LanguageName(file.name) := file.content.value];
        }
        i := i + 1;
      }
    }

    /** `set_language` (lines 43-52): accepted exactly for a loaded
        language, which then becomes current and is saved to the settings;
        otherwise nothing changes. */
    method SetLanguage(language: string) returns (ok: bool)
      modifies this, config
      ensures ok <==> language in AvailableLanguages()
      ensures translations == old(translations)
      ensures ok ==> currentLanguage == JString(language)
      ensures ok ==> config.config == old(config.config)["language" := JString(language)]
      ensures ok ==> config.file == Settings.Stored(JObject(config.config))
      ensures !ok ==> currentLanguage == old(currentLanguage)
      ensures !ok ==> config.config == old(config.config) && config.file == old(config.file)
    {
      if language in translations {
        currentLanguage := JString(language);
        config.Set("language", JString(language));
        return true;
      }
      return false;
    }

    /** `get_available_languages` (lines 54-56), as a set. */
    function AvailableLanguages(): (languages: set<string>)
      reads this
      ensures forall l :: l in languages <==> TableOf(translations, JString(l)).Some?
    {
      translations.Keys
    }

    /** `get` (lines 58-94). */
    function Get(key: string, default: Option<string>): (r: string)
      reads this
      ensures TableOf(translations, currentLanguage).None? ==> r == DefaultOrKey(default, key)
      ensures key != "" ==> r != ""
    {
      TranslationOf(translations, currentLanguage, key, default)
    }

    /** `__call__` (lines 96-98): the same as `get`. */
    function Call(key: string, default: Option<string>): (r: string)
      reads this
      ensures r == Get(key, default)
    {
      Get(key, default)
    }
  }

  /** The module-level `_` (lines 108-110) on the global instance. */
  function Translate(i18n: I18n, key: string, default: Option<string>): (r: string)
    reads i18n
    ensures r == i18n.Get(key, default)
  {
    i18n.Call(key, default)
  }

  /** A language saved by `set_language` is the one a fresh settings
      object reads back, and so the current language after a restart. */
  lemma LanguageSurvivesRestart(config: map<string, Json>, language: string)
    ensures var reloaded := Settings.ShallowLoad(Settings.Defaults, Settings.Stored(JObject(config["language" := JString(language)]))).config;
      JsonValues.Get(reloaded, "language", JString("pt_BR")) == JString(language)
  {
    Settings.DefaultConfigProper();
    Settings.ConfigSetThenReload(Settings.Defaults, config, "language", JString(language));
  }
}
