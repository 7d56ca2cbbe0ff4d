/** The settings store of src/utils/config.py: the default configuration
    (src/utils/constants.py), the module-level loader that backfills missing
    defaults into the settings file, dotted `"section.key"` reads and writes,
    the `Config` class with its shallow merge, and `validate_config`.

    The settings file is an abstract variable holding what `json.load`
    would return; the module functions and the `Config` class use two
    different files (`get_config_path()` and `~/.adf/config.json`), so each
    class has its own. The loader's properties are proved for any table of
    defaults whose `version` is not a dict, and so for `DEFAULT_CONFIG`. */
module Settings {
  import opened Wrappers
  import opened Text
  import opened JsonValues

  // ---------------------------------------------------------------------
  // DEFAULT_CONFIG (src/utils/constants.py:3-35)

  const DefaultMonitoring: map<string, Json> := map[
    "cpu_threshold" := JInt(80),
    "memory_threshold" := JInt(80),
    "disk_threshold" := JInt(90),
    "network_threshold" := JInt(80)]

  const DefaultBackup: map<string, Json> := map[
    "auto_backup" := JBool(true),
    "backup_interval" := JInt(24),
    "backup_path" := JString(""),
    "max_backups" := JInt(5)]

  const DefaultCleanup: map<string, Json> := map[
    "auto_cleanup" := JBool(false),
    "cleanup_interval" := JInt(168),
    "min_free_space" := JInt(10)]

  const DefaultLogging: map<string, Json> := map[
    "level" := JString("INFO"),
    "max_size" := JInt(10),
    "backup_count" := JInt(3)]

  const DefaultSecurity: map<string, Json> := map[
    "encrypt_backups" := JBool(false),
    "encryption_key" := JString(""),
    "verify_updates" := JBool(true)]

  const Defaults: map<string, Json> := map[
    "version" := JString("1.0.3"),
    "theme" := JString("light"),
    "language" := JString("pt_BR"),
    "update_check" := JBool(true),
    "monitoring" := JObject(DefaultMonitoring),
    "backup" := JObject(DefaultBackup),
    "cleanup" := JObject(DefaultCleanup),
    "logging" := JObject(DefaultLogging),
    "security" := JObject(DefaultSecurity)]

  /** A table of defaults the loader can work with: it has a `version`,
      and that version is not a dict. */
  predicate ProperDefaults(defaults: map<string, Json>) {
    "version" in defaults && !defaults["version"].JObject?
  }

  lemma DefaultConfigProper()
    ensures ProperDefaults(Defaults)
  {
  }

  /** What reading a settings file gives: no file, a file `json.load`
      rejects (or that cannot be opened), or a parsed JSON document. */
  datatype ConfigFile = Missing | Unreadable | Stored(doc: Json)

  function Lookup(d: map<string, Json>, k: string): Option<Json> {
    if k in d then Some(d[k]) else None
  }

  // ---------------------------------------------------------------------
  // Module-level load_config (src/utils/config.py:96-134)

  /** `key in v` for a JSON value, or `None` where Python raises a
      TypeError: substring test on a string, element test on a list, key
      test on a dict. */
  function In(key: string, v: Json): (r: Option<bool>)
    ensures r.None? <==> v.JNull? || v.JBool? || v.JInt? || v.JReal?
    ensures v.JString? && key == "" ==> r == Some(true)
    ensures v.JObject? ==> (r == Some(true) <==> key in v.fields)
  {
    match v
    case JObject(m) => Some(key in m)
    case JString(s) => Some(Contains(s, key))
    case JArray(items) => Some(JString(key) in items)
    case _ => None
  }

  /** Lines 116-119 for one dict-valued default `section` and the value `v`
      the file holds at that key: the backfilled value and whether anything
      was added, or `None` when Python raises (a subkey test on a number,
      boolean or null, or an item assignment into a string or a list). A
      dict gets the missing subkeys; the values it already has win. */
  function FillSectionSpec(v: Json, section: map<string, Json>): (r: Option<(Json, bool)>)
    ensures v.JObject? ==> (
      && r.Some? && r.value.0.JObject?
      && r.value.0.fields.Keys == section.Keys + v.fields.Keys
      && (forall sk | sk in v.fields :: r.value.0.fields[sk] == v.fields[sk])
      && (r.value.1 <==> !(section.Keys <= v.fields.Keys)))
    ensures !v.JObject? && r.Some? ==> r.value == (v, false)
    ensures r.None? ==> !v.JObject? && exists sk | sk in section :: In(sk, v) != Some(true)
  {
    match v
    case JObject(m) => Some((JObject(section + m), exists sk | sk in section :: sk !in m))
    case _ =>
      if forall sk | sk in section :: In(sk, v) == Some(true) then Some((v, false)) else None
  }

  /** Lines 112-119 for one default key: what the configuration holds
      there afterwards and whether this key set `updated`. */
  function FillKey(present: Option<Json>, default: Json): (r: Option<(Json, bool)>)
    ensures present.None? ==> r == Some((default, true))
    ensures r.None? ==> present.Some? && default.JObject? && !present.value.JObject?
    ensures r.Some? && !r.value.1 ==> present.Some? && r.value.0 == present.value
    ensures r.Some? && present.Some? && present.value.JObject? ==>
      r.value.0.JObject? && present.value.fields.Keys <= r.value.0.fields.Keys
  {
    match present
    case None => Some((default, true))
    case Some(v) =>
      if default.JObject? then FillSectionSpec(v, default.fields) else Some((v, false))
  }

  function FillAt(defaults: map<string, Json>, c: map<string, Json>, k: string): Option<(Json, bool)>
    requires k in defaults
  {
    FillKey(Lookup(c, k), defaults[k])
  }

  /** No default key makes Python raise. */
  predicate CanFill(defaults: map<string, Json>, c: map<string, Json>) {
    forall k | k in defaults :: FillAt(defaults, c, k).Some?
  }

  /** The configuration after every default key is filled. */
  function Filled(defaults: map<string, Json>, c: map<string, Json>): (r: map<string, Json>)
    requires CanFill(defaults, c)
    ensures r.Keys == c.Keys + defaults.Keys
    ensures forall k | k in defaults :: r[k] == FillAt(defaults, c, k).value.0
    ensures forall k | k in c && k !in defaults :: r[k] == c[k]
  {
    map k | k in c.Keys + defaults.Keys :: if k in defaults then FillAt(defaults, c, k).value.0 else c[k]
  }

  /** Some default key or subkey was missing. */
  predicate AddsAny(defaults: map<string, Json>, c: map<string, Json>)
    requires CanFill(defaults, c)
  {
    exists k | k in defaults :: FillAt(defaults, c, k).value.1
  }

  /** Line 107: the version is overwritten with the default one. */
  function Forced(defaults: map<string, Json>, fields: map<string, Json>): map<string, Json>
    requires "version" in defaults
  {
    fields["version" := defaults["version"]]
  }

  /** Lines 104-119 on the parsed document: `None` when Python raises (the
      document is not an object, or a subkey test or assignment fails);
      otherwise the configuration after the version is forced and the
      missing defaults are filled in, and the `updated` flag. */
  function Backfill(defaults: map<string, Json>, doc: Json): (r: Option<(map<string, Json>, bool)>)
    requires "version" in defaults
    ensures !doc.JObject? ==> r.None?
    ensures r.Some? ==> doc.JObject? && r.value.0.Keys == doc.fields.Keys + defaults.Keys
    ensures r.Some? ==> forall k | k in doc.fields && k !in defaults :: r.value.0[k] == doc.fields[k]
  {
    if !doc.JObject? then None
    else
      var c := Forced(defaults, doc.fields);
      if CanFill(defaults, c) then Some((Filled(defaults, c), AddsAny(defaults, c))) else None
  }

  /** What a call of `load_config` returns and what the file holds after it. */
  datatype Loaded = Loaded(config: map<string, Json>, file: ConfigFile)

  /** `load_config` on a given file: a missing file is created with the
      defaults; an unreadable file or any exception yields a copy of the
      defaults and leaves the file alone; otherwise the backfilled
      configuration, written back only when something was added. */
  function Load(defaults: map<string, Json>, f: ConfigFile): (r: Loaded)
    requires "version" in defaults
    ensures r.file == f || r.file == Stored(JObject(r.config))
    ensures defaults.Keys <= r.config.Keys
    ensures !f.Stored? ==> r.config == defaults
  {
    match f
    case Missing => Loaded(defaults, Stored(JObject(defaults)))
    case Unreadable => Loaded(defaults, f)
    case Stored(doc) =>
      match Backfill(defaults, doc)
      case None => Loaded(defaults, f)
      case Some((c, updated)) => Loaded(c, if updated then Stored(JObject(c)) else f)
  }

  /** A configuration that loading leaves as it is: the current version,
      every default key present, and every default section complete. */
  predicate Settled(defaults: map<string, Json>, c: map<string, Json>)
    requires "version" in defaults
  {
    && "version" in c && c["version"] == defaults["version"]
    && forall k | k in defaults :: k in c && FillAt(defaults, c, k) == Some((c[k], false))
  }

  /** Filling a key twice changes nothing the second time. */
  lemma FillKeyIdempotent(present: Option<Json>, default: Json)
    requires FillKey(present, default).Some?
    ensures var v := FillKey(present, default).value.0;
      FillKey(Some(v), default) == Some((v, false))
  {
    if default.JObject? {
      var s := default.fields;
      if present.None? {
        assert s + s == s;
      } else if present.value.JObject? {
        var m := present.value.fields;
        assert s + (s + m) == s + m;
      }
    }
  }

  /** The defaults themselves are settled. */
  lemma DefaultsSettled(defaults: map<string, Json>)
    requires ProperDefaults(defaults)
    ensures Settled(defaults, defaults)
  {
    forall k | k in defaults
      ensures FillAt(defaults, defaults, k) == Some((defaults[k], false))
    {
      if defaults[k].JObject? {
        var s := defaults[k].fields;
        assert s + s == s;
      }
    }
  }

  /** Backfilling a document gives a settled configuration. */
  lemma BackfillSettled(defaults: map<string, Json>, doc: Json)
    requires ProperDefaults(defaults)
    requires Backfill(defaults, doc).Some?
    ensures Settled(defaults, Backfill(defaults, doc).value.0)
  {
    var c := Forced(defaults, doc.fields);
    var r := Filled(defaults, c);
    forall k | k in defaults
      ensures k in r && FillAt(defaults, r, k) == Some((r[k], false))
    {
      FillKeyIdempotent(Lookup(c, k), defaults[k]);
    }
  }

  /** The loader always leaves a settled configuration. */
  lemma LoadSettled(defaults: map<string, Json>, f: ConfigFile)
    requires ProperDefaults(defaults)
    ensures Settled(defaults, Load(defaults, f).config)
  {
    if f.Stored? && Backfill(defaults, f.doc).Some? {
      BackfillSettled(defaults, f.doc);
    } else {
      DefaultsSettled(defaults);
    }
  }

  /** A settled configuration is loaded back unchanged and not rewritten. */
  lemma LoadOfSettled(defaults: map<string, Json>, c: map<string, Json>)
    requires ProperDefaults(defaults)
    requires Settled(defaults, c)
    ensures Backfill(defaults, JObject(c)) == Some((c, false))
    ensures Load(defaults, Stored(JObject(c))) == Loaded(c, Stored(JObject(c)))
  {
    assert Forced(defaults, c) == c;
    assert Filled(defaults, c) == c;
  }

  /** A file complete in every default key and subkey but holding another
      version loads with the current version and is not rewritten: the
      forced version alone does not set `updated`. */
  lemma StaleVersionNotRewritten(defaults: map<string, Json>, fields: map<string, Json>)
    requires ProperDefaults(defaults)
    requires Settled(defaults, Forced(defaults, fields))
    ensures Load(defaults, Stored(JObject(fields))) == Loaded(Forced(defaults, fields), Stored(JObject(fields)))
  {
    var c := Forced(defaults, fields);
    assert Forced(defaults, c) == c;
    assert Filled(defaults, c) == c;
  }

  /** Loading what a load wrote is loading once: the second load returns
      the same configuration and leaves the file as it was. */
  lemma LoadIdempotent(defaults: map<string, Json>, f: ConfigFile)
    requires ProperDefaults(defaults)
    ensures var first := Load(defaults, f);
      Load(defaults, Stored(JObject(first.config))) == Loaded(first.config, Stored(JObject(first.config)))
  {
    LoadSettled(defaults, f);
    LoadOfSettled(defaults, Load(defaults, f).config);
  }

  /** Whatever the file held, the loaded version is the default one. */
  lemma LoadForcesVersion(defaults: map<string, Json>, f: ConfigFile)
    requires ProperDefaults(defaults)
    ensures "version" in Load(defaults, f).config
    ensures Load(defaults, f).config["version"] == defaults["version"]
  {
    LoadSettled(defaults, f);
  }

  /** After loading, every default key is present, and every dict-valued
      default section is a dict holding all of its default subkeys, or a
      string or list in which Python's `in` finds every subkey (which the
      loader leaves alone). */
  lemma LoadHasDefaults(defaults: map<string, Json>, f: ConfigFile)
    requires ProperDefaults(defaults)
    ensures forall k | k in defaults :: k in Load(defaults, f).config
    ensures forall k, sk | k in defaults && defaults[k].JObject? && sk in defaults[k].fields ::
      In(sk, Load(defaults, f).config[k]) == Some(true)
  {
    var c := Load(defaults, f).config;
    LoadSettled(defaults, f);
    forall k, sk | k in defaults && defaults[k].JObject? && sk in defaults[k].fields
      ensures In(sk, c[k]) == Some(true)
    {
      assert FillAt(defaults, c, k) == Some((c[k], false));
      if c[k].JObject? {
        assert c[k] == JObject(defaults[k].fields + c[k].fields);
      }
    }
  }

  /** Backfilling never overwrites a top-level value of the file, the
      version excepted. */
  lemma BackfillKeepsTopLevel(defaults: map<string, Json>, doc: Json, k: string)
    requires "version" in defaults
    requires Backfill(defaults, doc).Some?
    requires k in doc.fields && k != "version"
    requires k !in defaults || !defaults[k].JObject? || !doc.fields[k].JObject?
    ensures var r := Backfill(defaults, doc).value.0; k in r && r[k] == doc.fields[k]
  {
  }

  /** Backfilling never overwrites a subkey the file holds in a section. */
  lemma BackfillKeepsSubkeys(defaults: map<string, Json>, doc: Json, k: string, sk: string)
    requires "version" in defaults
    requires Backfill(defaults, doc).Some?
    requires k in doc.fields && k != "version" && doc.fields[k].JObject? && sk in doc.fields[k].fields
    ensures var r := Backfill(defaults, doc).value.0;
      k in r && r[k].JObject? && sk in r[k].fields && r[k].fields[sk] == doc.fields[k].fields[sk]
  {
  }

  /** The file is rewritten exactly when some default key or subkey was
      missing; forcing the version alone does not rewrite it. */
  lemma LoadRewritesOnlyWhenFilled(defaults: map<string, Json>, doc: Json)
    requires "version" in defaults
    requires Backfill(defaults, doc).Some?
    ensures Load(defaults, Stored(doc)).file != Stored(doc) <==> Backfill(defaults, doc).value.1
  {
    var c := Forced(defaults, doc.fields);
    if AddsAny(defaults, c) {
      var r := Filled(defaults, c);
      var k :| k in defaults && FillAt(defaults, c, k).value.1;
      if k !in c {
        assert k in r;
      } else {
        var sk :| sk in defaults[k].fields && sk !in c[k].fields;
        assert sk in r[k].fields;
      }
      assert r != doc.fields;
    }
  }

  // ---------------------------------------------------------------------
  // get_config_value and update_config on the loaded configuration

  /** Lines 176-180: a plain key reads `config[key]`, `"a.b"` reads
      `config[a][b]`; a missing key, a section that is not a dict and a key
      with two or more dots (the ValueError of line 177) give `default`. */
  function GetValue(config: map<string, Json>, key: string, default: Json): (r: Json)
    ensures r == default || r in config.Values
      || exists section | section in config.Values && section.JObject? :: r in section.fields.Values
  {
    var parts := Split(key, '.');
    if |parts| == 1 then Get(config, key, default)
    else if |parts| == 2 then
      if parts[0] in config && config[parts[0]].JObject? then Get(config[parts[0]].fields, parts[1], default)
      else default
    else default
  }

  /** Lines 156-162: the configuration after the assignment, or `None` for
      a key with two or more dots (line 158 raises, and the update returns
      False). A dotted key into a missing or non-dict section changes
      nothing. */
  function SetValue(config: map<string, Json>, key: string, value: Json): (r: Option<map<string, Json>>)
    ensures r.None? <==> |Split(key, '.')| > 2
    ensures r.Some? ==> r.value.Keys <= config.Keys + {Split(key, '.')[0]}
    ensures r.Some? ==> forall k | k in config && k != Split(key, '.')[0] :: k in r.value && r.value[k] == config[k]
  {
    var parts := Split(key, '.');
    if |parts| == 1 then Some(config[key := value])
    else if |parts| == 2 then
      if parts[0] in config && config[parts[0]].JObject? then
        Some(config[parts[0] := JObject(config[parts[0]].fields[parts[1] := value])])
      else Some(config)
    else None
  }

  /** A key without a dot reads the top level, falling back to the default. */
  lemma GetPlain(config: map<string, Json>, key: string, default: Json)
    requires '.' !in key
    ensures key in config ==> GetValue(config, key, default) == config[key]
    ensures key !in config ==> GetValue(config, key, default) == default
  {
  }

  /** `"a.b"` reads subkey `b` of the dict at `a`, and the default when
      either is missing or `a` holds no dict. */
  lemma GetDotted(config: map<string, Json>, a: string, b: string, default: Json)
    requires '.' !in a && '.' !in b
    ensures GetValue(config, a + "." + b, default) ==
      if a in config && config[a].JObject? && b in config[a].fields then config[a].fields[b] else default
  {
    SplitPair(a, b, '.');
  }

  /** `"a.b"` into a dict section sets that subkey only; into anything
      else it changes nothing. */
  lemma SetDotted(config: map<string, Json>, a: string, b: string, value: Json)
    requires '.' !in a && '.' !in b
    ensures SetValue(config, a + "." + b, value) ==
      if a in config && config[a].JObject? then Some(config[a := JObject(config[a].fields[b := value])])
      else Some(config)
  {
    SplitPair(a, b, '.');
  }

  /** A key with two dots or more is refused by an update and read as the
      default. */
  lemma TooManyDots(config: map<string, Json>, a: string, b: string, rest: string, value: Json, default: Json)
    ensures SetValue(config, a + "." + b + "." + rest, value).None?
    ensures GetValue(config, a + "." + b + "." + rest, default) == default
  {
    var key := a + "." + b + "." + rest;
    SplitTwoSeparators(key, '.', |a|, |a| + 1 + |b|);
  }

  /** A key whose written value the next load keeps: a plain key other than
      `version` and other than a dict-valued default section, or a
      `"section.key"` into a section that is a dict. */
  predicate WriteSticks(defaults: map<string, Json>, config: map<string, Json>, key: string) {
    var parts := Split(key, '.');
    || (|parts| == 1 && key != "version" && !(key in defaults && defaults[key].JObject?))
    || (|parts| == 2 && parts[0] in config && config[parts[0]].JObject?)
  }

  /** A write of the kind `WriteSticks` admits keeps the configuration
      settled. */
  lemma SetValueSettled(defaults: map<string, Json>, config: map<string, Json>, key: string, value: Json)
    requires ProperDefaults(defaults)
    requires Settled(defaults, config) && WriteSticks(defaults, config, key)
    ensures SetValue(config, key, value).Some?
    ensures Settled(defaults, SetValue(config, key, value).value)
  {
    var parts := Split(key, '.');
    var c' := SetValue(config, key, value).value;
    if |parts| == 2 {
      var a := parts[0];
      if a in defaults && defaults[a].JObject? {
        var s := defaults[a].fields;
        var m := config[a].fields;
        assert FillAt(defaults, config, a) == Some((config[a], false));
        assert forall sk | sk in s :: sk in m;
        var m' := m[parts[1] := value];
        assert s + m' == m';
        assert FillAt(defaults, c', a) == Some((c'[a], false));
      }
      forall k | k in defaults
        ensures k in c' && FillAt(defaults, c', k) == Some((c'[k], false))
      {
        if k != a {
          assert FillAt(defaults, c', k) == FillAt(defaults, config, k);
        }
      }
    } else {
      forall k | k in defaults
        ensures k in c' && FillAt(defaults, c', k) == Some((c'[k], false))
      {
        if k != key {
          assert FillAt(defaults, c', k) == FillAt(defaults, config, k);
        }
      }
    }
  }

  /** Reading a key back after writing it into the configuration gives the
      value written. */
  lemma GetAfterSet(defaults: map<string, Json>, config: map<string, Json>, key: string, value: Json, default: Json)
    requires WriteSticks(defaults, config, key)
    ensures SetValue(config, key, value).Some?
    ensures GetValue(SetValue(config, key, value).value, key, default) == value
  {
  }

  /** The round trip of `update_config` and `get_config_value`: after an
      update of a key of the kind `WriteSticks` admits, the next read of
      that key (which loads the file again) gives the value written. */
  lemma UpdateThenGet(defaults: map<string, Json>, f: ConfigFile, key: string, value: Json, default: Json)
    requires ProperDefaults(defaults)
    requires WriteSticks(defaults, Load(defaults, f).config, key)
    ensures SetValue(Load(defaults, f).config, key, value).Some?
    ensures var written := Stored(JObject(SetValue(Load(defaults, f).config, key, value).value));
      GetValue(Load(defaults, written).config, key, default) == value
  {
    var c := Load(defaults, f).config;
    LoadSettled(defaults, f);
    SetValueSettled(defaults, c, key, value);
    var c' := SetValue(c, key, value).value;
    LoadOfSettled(defaults, c');
    GetAfterSet(defaults, c, key, value, default);
  }

  /** Writing `version` does not stick: the next load restores the default
      version. */
  lemma VersionWriteUndone(defaults: map<string, Json>, f: ConfigFile, value: Json, default: Json)
    requires ProperDefaults(defaults)
    ensures SetValue(Load(defaults, f).config, "version", value).Some?
    ensures var written := Stored(JObject(SetValue(Load(defaults, f).config, "version", value).value));
      GetValue(Load(defaults, written).config, "version", default) == defaults["version"]
  {
    assert Split("version", '.') == ["version"];
    var written := Stored(JObject(SetValue(Load(defaults, f).config, "version", value).value));
    LoadForcesVersion(defaults, written);
  }

  /** The state of the subkey loop of lines 116-119 once the subkeys
      outside `todo` have been handled: a dict has gained the missing ones;
      anything else is unchanged and held every subkey so far. */
  predicate SectionProgress(present: Json, section: map<string, Json>, todo: set<string>, value: Json, added: bool) {
    && todo <= section.Keys
    && match present
       case JObject(m) =>
         value == JObject((section - todo) + m) && (added <==> exists sk | sk in section.Keys - todo :: sk !in m)
       case _ =>
         value == present && !added && forall sk | sk in section.Keys - todo :: In(sk, present) == Some(true)
  }

  lemma SectionProgressStep(present: Json, section: map<string, Json>, todo: set<string>, value: Json, added: bool,
                            subkey: string, found: bool)
    requires SectionProgress(present, section, todo, value, added)
    requires subkey in todo && In(subkey, value) == Some(found)
    requires !found ==> value.JObject?
    ensures SectionProgress(present, section, todo - {subkey},
      if found then value else JObject(value.fields[subkey := section[subkey]]), added || !found)
  {
    var rest := todo - {subkey};
    assert section.Keys - rest == (section.Keys - todo) + {subkey};
    if present.JObject? {
      var m := present.fields;
      if subkey in m {
        assert (section - rest) + m == (section - todo) + m;
      } else {
        assert (section - rest) + m == ((section - todo) + m)[subkey := section[subkey]];
      }
    }
  }

  lemma SectionProgressFails(present: Json, section: map<string, Json>, todo: set<string>, value: Json, added: bool,
                             subkey: string)
    requires SectionProgress(present, section, todo, value, added)
    requires subkey in todo
    requires In(subkey, value).None? || (In(subkey, value) == Some(false) && !value.JObject?)
    ensures FillSectionSpec(present, section).None?
  {
  }

  lemma SectionProgressDone(present: Json, section: map<string, Json>, value: Json, added: bool)
    requires SectionProgress(present, section, {}, value, added)
    ensures FillSectionSpec(present, section) == Some((value, added))
  {
    assert section - {} == section;
    assert section.Keys - {} == section.Keys;
  }

  /** Lines 116-119 for one dict-valued default section: each missing
      subkey is added, and a subkey test or assignment that Python rejects
      ends the load. */
  method FillSection(present: Json, section: map<string, Json>) returns (filled: Option<Json>, added: bool)
    ensures filled.Some? <==> FillSectionSpec(present, section).Some?
    ensures filled.Some? ==> FillSectionSpec(present, section).value == (filled.value, added)
  {
    var value := present;
    added := false;
    var todo := section.Keys;
    assert section - todo == map[];
    while todo != {}
      invariant SectionProgress(present, section, todo, value, added)
      decreases |todo|
    {
      var subkey :| subkey in todo;
      var inside := In(subkey, value);
      if inside.None? || (!inside.value && !value.JObject?) {
        SectionProgressFails(present, section, todo, value, added, subkey);
        return None, false;
      }
      SectionProgressStep(present, section, todo, value, added, subkey, inside.value);
      if !inside.value {
        value := JObject(value.fields[subkey := section[subkey]]);
        added := true;
      }
      todo := todo - {subkey};
    }
    SectionProgressDone(present, section, value, added);
    return Some(value), added;
  }

  /** Lines 112-119 for one default key: a missing key gets the default,
      a dict-valued default fills the section, anything else stays. */
  method FillOne(present: Option<Json>, default: Json) returns (r: Option<(Json, bool)>)
    ensures r == FillKey(present, default)
  {
    if present.None? {
      return Some((default, true));
    } else if default.JObject? {
      var filled, added := FillSection(present.value, default.fields);
      if filled.None? {
        return None;
      }
      return Some((filled.value, added));
    }
    return Some((present.value, false));
  }

  /** The state of the loop of lines 110-119 once the default keys outside
      `todo` have been handled. */
  predicate DefaultsProgress(defaults: map<string, Json>, config: map<string, Json>, todo: set<string>,
                             cfg: map<string, Json>, updated: bool) {
    var done := defaults.Keys - todo;
    && todo <= defaults.Keys
    && cfg.Keys == config.Keys + done
    && (forall k | k in done :: FillAt(defaults, config, k).Some? && cfg[k] == FillAt(defaults, config, k).value.0)
    && (forall k | k in config && k !in done :: cfg[k] == config[k])
    && (updated <==> exists k | k in done :: FillAt(defaults, config, k).value.1)
  }

  lemma DefaultsProgressStep(defaults: map<string, Json>, config: map<string, Json>, todo: set<string>,
                             cfg: map<string, Json>, updated: bool, key: string, r: (Json, bool))
    requires DefaultsProgress(defaults, config, todo, cfg, updated)
    requires key in todo && FillAt(defaults, config, key) == Some(r)
    ensures DefaultsProgress(defaults, config, todo - {key}, cfg[key := r.0], updated || r.1)
  {
    assert defaults.Keys - (todo - {key}) == (defaults.Keys - todo) + {key};
  }

  lemma DefaultsProgressDone(defaults: map<string, Json>, config: map<string, Json>, cfg: map<string, Json>, updated: bool)
    requires DefaultsProgress(defaults, config, {}, cfg, updated)
    ensures CanFill(defaults, config)
    ensures cfg == Filled(defaults, config) && updated == AddsAny(defaults, config)
  {
    assert defaults.Keys - {} == defaults.Keys;
  }

  /** Lines 110-119: every default key missing from `config` is added, and
      every dict-valued section gets its missing subkeys. */
  method FillDefaults(defaults: map<string, Json>, config: map<string, Json>)
    returns (filled: Option<map<string, Json>>, updated: bool)
    ensures filled.Some? <==> CanFill(defaults, config)
    ensures filled.Some? ==> filled.value == Filled(defaults, config) && updated == AddsAny(defaults, config)
  {
    var cfg := config;
    updated := false;
    var todo := defaults.Keys;
    assert defaults.Keys - todo == {};
    while todo != {}
      invariant DefaultsProgress(defaults, config, todo, cfg, updated)
      decreases |todo|
    {
      var key :| key in todo;
      assert Lookup(cfg, key) == Lookup(config, key);
      var r := FillOne(Lookup(cfg, key), defaults[key]);
      if r.None? {
        return None, false;
      }
      DefaultsProgressStep(defaults, config, todo, cfg, updated, key, r.value);
      cfg := cfg[key := r.value.0];
      updated := updated || r.value.1;
      todo := todo - {key};
    }
    DefaultsProgressDone(defaults, config, cfg, updated);
    return Some(cfg), updated;
  }

  /** The global settings file (`get_config_path()`) and the module
      functions that read and write it. */
  class ConfigModule {
    var file: ConfigFile

    constructor (initial: ConfigFile)
      ensures file == initial
    {
      file := initial;
    }

    /** `save_config` (lines 136-148). */
    method SaveConfig(config: map<string, Json>) returns (ok: bool)
      modifies this
      ensures file == Stored(JObject(config)) && ok
    {
      file := Stored(JObject(config));
      ok := true;
    }

    /** `load_config` (lines 96-134). */
    method LoadConfig() returns (config: map<string, Json>)
      modifies this
      ensures config == Load(Defaults, old(file)).config
      ensures file == Load(Defaults, old(file)).file
    {
      if file.Missing? {
        var _ := SaveConfig(Defaults);
        return Defaults;
      }
      if file.Unreadable? || !file.doc.JObject? {
        return Defaults;
      }
      var cfg := file.doc.fields;
      cfg := cfg["version" := Defaults["version"]];
      var filled, updated := FillDefaults(Defaults, cfg);
      if filled.None? {
        return Defaults;
      }
      if updated {
        var _ := SaveConfig(filled.value);
      }
      return filled.value;
    }

    /** `get_all_config` (lines 219-221). */
    method GetAllConfig() returns (config: map<string, Json>)
      modifies this
      ensures config == Load(Defaults, old(file)).config
      ensures file == Load(Defaults, old(file)).file
    {
      config := LoadConfig();
    }

    /** `update_config` (lines 150-169). */
    method UpdateConfig(key: string, value: Json) returns (ok: bool)
      modifies this
      ensures var loaded := Load(Defaults, old(file));
        && ok == SetValue(loaded.config, key, value).Some?
        && file == if ok then Stored(JObject(SetValue(loaded.config, key, value).value)) else loaded.file
    {
      var config := LoadConfig();
      var parts := Split(key, '.');
      if |parts| == 1 {
        config := config[key := value];
      } else if |parts| == 2 {
        var mainKey, subKey := parts[0], parts[1];
        if mainKey in config && config[mainKey].JObject? {
          config := config[mainKey := JObject(config[mainKey].fields[subKey := value])];
        }
      } else {
        return false;
      }
      ok := SaveConfig(config);
    }

    /** `get_config_value` (lines 171-184). */
    method GetConfigValue(key: string, default: Json) returns (value: Json)
      modifies this
      ensures value == GetValue(Load(Defaults, old(file)).config, key, default)
      ensures file == Load(Defaults, old(file)).file
    {
      var config := LoadConfig();
      var parts := Split(key, '.');
      if |parts| == 1 {
        value := Get(config, key, default);
      } else if |parts| == 2 && parts[0] in config && config[parts[0]].JObject? {
        value := Get(config[parts[0]].fields, parts[1], default);
      } else {
        value := default;
      }
    }

    /** `reset_config` (lines 186-188). */
    method ResetConfig() returns (ok: bool)
      modifies this
      ensures ok && file == Stored(JObject(Defaults))
    {
      ok := SaveConfig(Defaults);
    }
  }

  // ---------------------------------------------------------------------
  // The Config class (lines 14-75)

  /** Lines 30-32, `{**DEFAULT_CONFIG, **config}` after the version was
      forced: top-level keys from the file win, and a section from the file
      replaces the default section whole. */
  function Merge(defaults: map<string, Json>, fields: map<string, Json>): (r: map<string, Json>)
    requires "version" in defaults
    ensures r.Keys == defaults.Keys + fields.Keys
    ensures r["version"] == defaults["version"]
    ensures forall k | k in fields && k != "version" :: r[k] == fields[k]
    ensures forall k | k in defaults && k !in fields :: r[k] == defaults[k]
  {
    defaults + Forced(defaults, fields)
  }

  /** Merging a merged configuration again changes nothing. */
  lemma MergeIdempotent(defaults: map<string, Json>, fields: map<string, Json>)
    requires "version" in defaults
    ensures Merge(defaults, Merge(defaults, fields)) == Merge(defaults, fields)
  {
  }

  /** `Config.load_config` on a given file: the configuration returned and
      the file afterwards (rewritten on every successful load). */
  function ShallowLoad(defaults: map<string, Json>, f: ConfigFile): (r: Loaded)
    requires "version" in defaults
    ensures r.file == f || r.file == Stored(JObject(r.config))
    ensures "version" in r.config && r.config["version"] == defaults["version"]
    ensures defaults.Keys <= r.config.Keys
  {
    match f
    case Missing => Loaded(defaults, Stored(JObject(defaults)))
    case Unreadable => Loaded(defaults, f)
    case Stored(doc) =>
      if doc.JObject? then Loaded(Merge(defaults, doc.fields), Stored(JObject(Merge(defaults, doc.fields))))
      else Loaded(defaults, f)
  }

  /** A settings object whose `config` field holds the settings of its own
      file. */
  class Config {
    var config: map<string, Json>
    var file: ConfigFile

    /** `__init__`: `self.config = self.load_config()`. */
    constructor (initial: ConfigFile)
      ensures config == ShallowLoad(Defaults, initial).config
      ensures file == ShallowLoad(Defaults, initial).file
    {
      config := Defaults;
      file := initial;
      new;
      var loaded := LoadConfig();
      config := loaded;
    }

    /** `save_config` (lines 45-59): adopt the given configuration, if any,
        and write the current one. */
    method SaveConfig(c: Option<map<string, Json>>) returns (ok: bool)
      modifies this
      ensures config == if c.Some? then c.value else old(config)
      ensures file == Stored(JObject(config)) && ok
    {
      if c.Some? {
        config := c.value;
      }
      file := Stored(JObject(config));
      ok := true;
    }

    /** `load_config` (lines 20-43); a successful load also adopts the
        loaded configuration, through `save_config`. */
    method LoadConfig() returns (c: map<string, Json>)
      modifies this
      ensures c == ShallowLoad(Defaults, old(file)).config
      ensures file == ShallowLoad(Defaults, old(file)).file
      ensures old(file).Missing? || (old(file).Stored? && old(file).doc.JObject?) ==> config == c
      ensures old(file).Unreadable? || (old(file).Stored? && !old(file).doc.JObject?) ==> config == old(config)
    {
      match file
      case Missing =>
        var _ := SaveConfig(Some(Defaults));
        return Defaults;
      case Unreadable =>
        return Defaults;
      case Stored(doc) =>
        if !doc.JObject? {
          return Defaults;
        }
        var loaded := doc.fields["version" := Defaults["version"]];
        loaded := Defaults + loaded;
        var _ := SaveConfig(Some(loaded));
        return loaded;
    }

    /** `get` (lines 61-63). */
    function Get(key: string, default: Json): (r: Json)
      reads this
      ensures key in config ==> r == config[key]
      ensures key !in config ==> r == default
    {
      JsonValues.Get(config, key, default)
    }

    /** `set` (lines 65-68): assign the key and write the file. */
    method Set(key: string, value: Json)
      modifies this
      ensures config == old(config)[key := value]
      ensures file == Stored(JObject(config))
    {
      config := config[key := value];
      var _ := SaveConfig(None);
    }

    /** `__getitem__` (lines 70-71): `None` is the KeyError. */
    function GetItem(key: string): (r: Option<Json>)
      reads this
      ensures r.Some? <==> key in config
      ensures r.Some? ==> r.value == config[key]
    {
      Lookup(config, key)
    }

    /** `__setitem__` (lines 73-75). */
    method SetItem(key: string, value: Json)
      modifies this
      ensures config == old(config)[key := value]
      ensures file == Stored(JObject(config))
    {
      config := config[key := value];
      var _ := SaveConfig(None);
    }
  }

  /** What `set` writes, a fresh `Config` on that file reads back, unless
      it is the version. */
  lemma ConfigSetThenReload(defaults: map<string, Json>, config: map<string, Json>, key: string, value: Json)
    requires "version" in defaults && key != "version"
    ensures var reloaded := ShallowLoad(defaults, Stored(JObject(config[key := value]))).config;
      key in reloaded && reloaded[key] == value
  {
  }

  // ---------------------------------------------------------------------
  // validate_config (lines 190-217)

  /** `isinstance(v, str)`, `bool`, `(int, float)`, `int`. */
  datatype Kind = Str | Bool | Number | Int

  predicate HasKind(v: Json, kind: Kind) {
    match kind
    case Str => v.JString?
    case Bool => v.JBool?
    case Number => IsNumber(v)
    case Int => IsInt(v)
  }

  /** One checked field: a top-level key (`section` is `None`) or a key of
      a section, and the type it must have. */
  datatype Requirement = Requirement(section: Option<string>, key: string, kind: Kind)

  /** The fields `validate_config` checks, in its order. */
  const Requirements: seq<Requirement> := [
    Requirement(None, "version", Str),
    Requirement(None, "theme", Str),
    Requirement(None, "language", Str),
    Requirement(Some("backup"), "auto_backup", Bool),
    Requirement(Some("backup"), "backup_interval", Number),
    Requirement(Some("backup"), "max_backups", Int),
    Requirement(Some("monitoring"), "cpu_threshold", Number),
    Requirement(Some("monitoring"), "memory_threshold", Number),
    Requirement(Some("monitoring"), "disk_threshold", Number),
    Requirement(Some("monitoring"), "network_threshold", Number)]

  /** The configuration has the field, with the type required. */
  predicate Meets(config: map<string, Json>, r: Requirement) {
    match r.section
    case None => r.key in config && HasKind(config[r.key], r.kind)
    case Some(s) =>
      s in config && config[s].JObject? && r.key in config[s].fields && HasKind(config[s].fields[r.key], r.kind)
  }

  predicate MeetsAll(config: map<string, Json>) {
    forall i :: 0 <= i < |Requirements| ==> Meets(config, Requirements[i])
  }

  /** `isinstance(section.get(key), kind)` where `section` is
      `config.get(name, {})`: a missing section reads as `{}`, and `.get`
      on something that is not a dict raises, which validation turns into
      False. */
  function CheckIn(section: Option<Json>, key: string, kind: Kind): bool {
    match section
    case None => false
    case Some(JObject(m)) => key in m && HasKind(m[key], kind)
    case Some(_) => false
  }

  /** `validate_config`: every check of lines 194-209 passes; an assertion
      failure or an exception gives False instead of propagating. */
  function ValidateConfig(config: Json): (valid: bool)
    ensures valid ==> config.JObject?
    ensures valid ==> forall k | k in {"version", "theme", "language"} :: k in config.fields && config.fields[k].JString?
    ensures valid ==> "backup" in config.fields && config.fields["backup"].JObject?
    ensures valid ==> "monitoring" in config.fields && config.fields["monitoring"].JObject?
  {
    match config
    case JObject(c) =>
      var backup := Lookup(c, "backup");
      var monitoring := Lookup(c, "monitoring");
      && CheckIn(Some(config), "version", Str)
      && CheckIn(Some(config), "theme", Str)
      && CheckIn(Some(config), "language", Str)
      && CheckIn(backup, "auto_backup", Bool)
      && CheckIn(backup, "backup_interval", Number)
      && CheckIn(backup, "max_backups", Int)
      && CheckIn(monitoring, "cpu_threshold", Number)
      && CheckIn(monitoring, "memory_threshold", Number)
      && CheckIn(monitoring, "disk_threshold", Number)
      && CheckIn(monitoring, "network_threshold", Number)
    case _ => false
  }

  lemma MeetsAllUnrolled(c: map<string, Json>)
    ensures MeetsAll(c) <==>
      && Meets(c, Requirements[0]) && Meets(c, Requirements[1]) && Meets(c, Requirements[2])
      && Meets(c, Requirements[3]) && Meets(c, Requirements[4]) && Meets(c, Requirements[5])
      && Meets(c, Requirements[6]) && Meets(c, Requirements[7]) && Meets(c, Requirements[8])
      && Meets(c, Requirements[9])
  {
  }

  /** A configuration validates exactly when it is an object meeting every
      requirement in the table: any missing or mistyped field fails it. */
  lemma ValidateMeaning(config: Json)
    ensures ValidateConfig(config) <==> config.JObject? && MeetsAll(config.fields)
  {
    if config.JObject? {
      MeetsAllUnrolled(config.fields);
    }
  }

  /** The default configuration passes validation. */
  lemma DefaultsValid()
    ensures ValidateConfig(JObject(Defaults))
  {
    DefaultsTopLevel();
    DefaultSectionsTyped();
    ValidSections(Defaults, DefaultBackup, DefaultMonitoring);
  }

  lemma DefaultsTopLevel()
    ensures "version" in Defaults && Defaults["version"].JString?
    ensures "theme" in Defaults && Defaults["theme"].JString?
    ensures "language" in Defaults && Defaults["language"].JString?
    ensures "backup" in Defaults && Defaults["backup"] == JObject(DefaultBackup)
    ensures "monitoring" in Defaults && Defaults["monitoring"] == JObject(DefaultMonitoring)
  {
  }

  lemma DefaultSectionsTyped()
    ensures "auto_backup" in DefaultBackup && DefaultBackup["auto_backup"].JBool?
    ensures "backup_interval" in DefaultBackup && IsNumber(DefaultBackup["backup_interval"])
    ensures "max_backups" in DefaultBackup && IsInt(DefaultBackup["max_backups"])
    ensures "cpu_threshold" in DefaultMonitoring && IsNumber(DefaultMonitoring["cpu_threshold"])
    ensures "memory_threshold" in DefaultMonitoring && IsNumber(DefaultMonitoring["memory_threshold"])
    ensures "disk_threshold" in DefaultMonitoring && IsNumber(DefaultMonitoring["disk_threshold"])
    ensures "network_threshold" in DefaultMonitoring && IsNumber(DefaultMonitoring["network_threshold"])
  {
  }

  /** A configuration with string `version`, `theme` and `language` and
      dicts `backup` and `monitoring` is valid as soon as those two
      sections are. */
  lemma ValidSections(c: map<string, Json>, backup: map<string, Json>, monitoring: map<string, Json>)
    requires "version" in c && c["version"].JString?
    requires "theme" in c && c["theme"].JString?
    requires "language" in c && c["language"].JString?
    requires "backup" in c && c["backup"] == JObject(backup)
    requires "monitoring" in c && c["monitoring"] == JObject(monitoring)
    requires "auto_backup" in backup && backup["auto_backup"].JBool?
    requires "backup_interval" in backup && IsNumber(backup["backup_interval"])
    requires "max_backups" in backup && IsInt(backup["max_backups"])
    requires "cpu_threshold" in monitoring && IsNumber(monitoring["cpu_threshold"])
    requires "memory_threshold" in monitoring && IsNumber(monitoring["memory_threshold"])
    requires "disk_threshold" in monitoring && IsNumber(monitoring["disk_threshold"])
    requires "network_threshold" in monitoring && IsNumber(monitoring["network_threshold"])
    ensures ValidateConfig(JObject(c))
  {
  }

  /** A boolean passes where an integer is required, as `isinstance(True,
      int)` holds in Python. */
  lemma BooleanCountsAsInt()
    ensures ValidateConfig(JObject(Defaults["backup" := JObject(DefaultBackup["max_backups" := JBool(true)])]))
  {
    var backup := DefaultBackup["max_backups" := JBool(true)];
    DefaultsTopLevel();
    DefaultSectionsTyped();
    ValidSections(Defaults["backup" := JObject(backup)], backup, DefaultMonitoring);
  }
}
