# ADF System Manager: decision and lookup core in Dafny

ADF System Manager is a PyQt5 desktop tool for Windows. Under its GUI and
operating-system calls sit six small pieces of deterministic logic. This
project models each of them in Dafny, with every operating-system input
passed in as a parameter, and proves what they promise:

- **Updates** (`versions.dfy`, module `Versions`). `_compare_versions`
  compares dotted version strings component by component as integers.
  `check_for_updates` turns the current version and the `version.json`
  manifest into "update required", "update available" or "no update".
- **Settings** (`config.dfy`, module `Settings`).
  - `DEFAULT_CONFIG`.
  - The module-level loader, which backfills missing keys and forces the
    version, and the dotted `get_config_value` / `update_config`.
  - `reset_config` and `validate_config`.
  - The `Config` class, with its shallow merge and its own file.
  - Each settings file is a variable of type `ConfigFile`: missing,
    unreadable, or holding a JSON document.
- **Translations** (`i18n.dfy`, module `Translation`). The `.json` tables
  loaded from a directory listing, the dotted-key lookup with its `pt_BR`
  fallback, and `set_language`, which writes through to the settings.
- **Installed software** (`software.dfy`, module `Software`).
  - Records from registry entries and from the lines of the Store listing.
  - The name-keyed inventory, the case-insensitive search filter, and the
    order in which repair methods are tried.
- **System health** (`system_health.dfy`, module `SystemHealth`). The
  threshold rules of `get_system_health`, and the text of the MAC address.
- **Documents** (`documents.dfy`, module `Documents`). Which directory
  files the documents tab lists, the path each item opens, and what
  opening ends in.

Shared helpers:

- `wrappers.dfy`: `Option`.
- `json.dfy`: JSON values as Python's `json` module hands them over.
- `text.dfy`: Python string operations. These cover whitespace,
  `lower`/`upper`, `in`, `startswith`/`endswith`, `split`/`join`, `split()`
  with no argument, and `replace`.

Where the code keeps state, the model does too:

- `Settings.ConfigModule` holds the global settings file.
- `Settings.Config`, `Translation.I18n`, `Software.SoftwareTab` and
  `Documents.DocumentsTab` are classes whose methods update their fields.

Loops in the source are methods with loops, proved equal to a
specification function. Examples: the version scan, the default backfill,
the registry and Store scans, the search filter, the repair chain, the
health rules, the translation loader and the documents listing. The
properties are lemmas about those functions.

## Model

| member | source | states |
|---|---|---|
| Versions.ParseNat | src/utils/updater.py:64 | `int(x)` of a component succeeds exactly for a non-empty string of decimal digits |
| Versions.ParseShowNat | src/utils/updater.py:64 | parsing the decimal text of any number gives the number back |
| Versions.LeadingZero | src/utils/updater.py:64 | a leading zero does not change a component's value |
| Versions.ParseAll | src/utils/updater.py:64-65 | the list comprehension parses exactly when every part parses, and then holds each part's value in order |
| Versions.ParseVersion | src/utils/updater.py:64 | a version parses exactly when every dot-separated part of it parses; it then has one or more components, each the value of its part in order |
| Versions.CompareFrom | src/utils/updater.py:67-76 | the scan answers -1, 0 or 1, and answers non-zero only inside the padded length |
| Versions.CompareFromMeaning | src/utils/updater.py:67-76 | 0 exactly when all zero-padded components agree; -1 exactly when the first disagreement has the smaller component in the first version |
| Versions.CompareParts | src/utils/updater.py:67-76 | 0 exactly when all zero-padded components agree; -1 (or 1) exactly when the first disagreement has the smaller (or larger) component in the first version |
| Versions.CompareComponents | src/utils/updater.py:67-76 | the loop returns the scan's answer, which is -1, 0 or 1 |
| Versions.CompareReflexive | src/utils/updater.py:67-76 | every version compares equal to itself |
| Versions.CompareAntisymmetric | src/utils/updater.py:67-76 | swapping the versions negates the answer |
| Versions.CompareTransitive | src/utils/updater.py:67-76 | "at most" and "less than" are transitive, so the order is a total preorder |
| Versions.TrailingZero | src/utils/updater.py:68-69 | a trailing zero component makes no difference ("1.0" equals "1.0.0") |
| Versions.Compare | src/utils/updater.py:62-76 | there is an answer exactly when both versions parse; the answer is -1, 0 or 1 |
| Versions.CompareVersions | src/utils/updater.py:62-76 | parsing then scanning gives `Compare`, with the failed `int()` as `None` |
| Versions.NumericNotLexical | src/utils/updater.py:64-76 | "1.0.3" is older than "1.0.10" |
| Versions.LeadingZeroIgnored | src/utils/updater.py:64-76 | "01" equals "1" |
| Versions.CheckForUpdates | src/utils/updater.py:22-60 | `None` for a missing manifest or `version`. Mandatory exactly when the current version is below `min_version` (default "1.0.0"). Newer only when the latest version is above the current one and a url exists. No update only when the latest version is not above the current one |
| Versions.MandatoryWhateverLatest | src/utils/updater.py:37-43 | below the minimum, the update is mandatory with the latest version and the message, whatever the latest version is |
| Versions.NewerCarriesManifest | src/utils/updater.py:46-54 | a newer version carries the manifest's url, `required` (default false), notes (default empty) and hash |
| Versions.NotNewerIsUpToDate | src/utils/updater.py:56 | a supported current version and a latest version that is not newer (older included) give exactly "no update" |
| Versions.FailuresGiveNone | src/utils/updater.py:58-60 | a component that does not parse on a comparison that is reached, or a newer version without `download_url`, gives `None` |
| Versions.ScenarioOptionalUpdate | src/utils/updater.py:33-54 | 1.0.10 over 1.0.3 with minimum 1.0.0 is available and not required |
| Settings.DefaultConfigProper | src/utils/constants.py:3-35 | the default configuration has a `version` that is not a dict |
| Settings.DefaultsValid | src/utils/constants.py:3-35 | the default configuration passes `validate_config` |
| Settings.In | src/utils/config.py:116-117 | Python `key in v`: it raises exactly on a number, boolean or null; the empty key is in every string; on a dict it tests the keys |
| Settings.FillSectionSpec | src/utils/config.py:115-119 | a dict section gets the union of the default and the file subkeys, the file's values win, and something is added exactly when a default subkey was missing; a non-dict value is kept unchanged, or Python raises because some subkey test fails |
| Settings.FillKey | src/utils/config.py:111-119 | a missing key takes the default and counts as an addition; the fill fails only on a non-dict value where a default section is expected; when nothing is added the value is the file's; a dict section keeps all its subkeys |
| Settings.Filled | src/utils/config.py:111-119 | after filling, the keys are those of the file plus those of the defaults; every default key holds its filled value, every other key what the file held |
| Settings.FillKeyIdempotent | src/utils/config.py:111-119 | filling a key a second time changes nothing and adds nothing |
| Settings.FillSection | src/utils/config.py:115-119 | the subkey loop fills a dict section's missing subkeys and reports whether it added any; on a non-dict value it fails exactly where Python raises |
| Settings.FillOne | src/utils/config.py:111-119 | one default key: inserted when missing, its section filled when the default is a dict, kept otherwise |
| Settings.FillDefaults | src/utils/config.py:110-119 | the loop over the defaults succeeds exactly when no key raises; it then gives the filled configuration and `updated` exactly when a key or subkey was added |
| Settings.Backfill | src/utils/config.py:104-119 | a document that is not a dict fails; otherwise the keys are the file's plus the defaults', and keys the defaults do not know keep the file's values |
| Settings.Load | src/utils/config.py:96-134 | the file afterwards is either untouched or holds exactly the returned configuration; every default key is present; a missing or unreadable file gives the defaults |
| Settings.DefaultsSettled | src/utils/config.py:111-119 | the defaults themselves need no backfill |
| Settings.BackfillSettled | src/utils/config.py:104-119 | a backfilled configuration needs no further backfill |
| Settings.LoadSettled | src/utils/config.py:96-134 | whatever the file holds, the loaded configuration has the current version and every default key and subkey |
| Settings.LoadOfSettled | src/utils/config.py:102-125 | loading a complete configuration returns it and does not rewrite the file |
| Settings.StaleVersionNotRewritten | src/utils/config.py:107-123 | a complete file with an old version loads with the current version but is not rewritten |
| Settings.LoadIdempotent | src/utils/config.py:96-134 | loading what a load wrote returns the same configuration and leaves the file alone |
| Settings.LoadForcesVersion | src/utils/config.py:107 | after loading, `version` is the default version whatever the file held |
| Settings.LoadHasDefaults | src/utils/config.py:111-119 | after loading, every default key is present and every subkey of a dict section tests present |
| Settings.BackfillKeepsTopLevel | src/utils/config.py:112-115 | a value the file holds is never overwritten, `version` excepted |
| Settings.BackfillKeepsSubkeys | src/utils/config.py:116-119 | a subkey the file holds in a section is never overwritten |
| Settings.LoadRewritesOnlyWhenFilled | src/utils/config.py:110-123 | the file is rewritten exactly when some key or subkey was added |
| Settings.GetValue | src/utils/config.py:171-184 | the value read is the default, a top-level value, or a value inside a dict section |
| Settings.SetValue | src/utils/config.py:150-169 | the update fails exactly for a key with two or more dots; otherwise it adds at most the key's first component and changes no other top-level entry |
| Settings.GetPlain | src/utils/config.py:180 | a plain key reads the top level, or the default when absent |
| Settings.GetDotted | src/utils/config.py:176-178 | `"a.b"` reads `config[a][b]` when `a` is a dict holding `b`, the default otherwise |
| Settings.SetDotted | src/utils/config.py:156-160 | `"a.b"` assigns inside `a` when it is a dict and otherwise leaves the configuration unchanged |
| Settings.TooManyDots | src/utils/config.py:158 | a key with two or more dots makes the update fail and the read return the default |
| Settings.SetValueSettled | src/utils/config.py:150-165 | a write that is not to the version or to a whole default section keeps the configuration complete |
| Settings.GetAfterSet | src/utils/config.py:150-180 | a value written under such a key reads back |
| Settings.UpdateThenGet | src/utils/config.py:150-184 | after `update_config(k, v)` saves, the next `get_config_value(k)` (which loads again) returns `v` |
| Settings.VersionWriteUndone | src/utils/config.py:107 | a written `version` is replaced by the default at the next load |
| Settings.ConfigModule.SaveConfig | src/utils/config.py:136-148 | the file holds the given configuration |
| Settings.ConfigModule.LoadConfig | src/utils/config.py:96-134 | returns and writes what `Load` says of the old file |
| Settings.ConfigModule.GetAllConfig | src/utils/config.py:219-221 | the same as loading |
| Settings.ConfigModule.UpdateConfig | src/utils/config.py:150-169 | succeeds exactly when the key has at most one dot; then the file holds the loaded configuration with the value assigned |
| Settings.ConfigModule.GetConfigValue | src/utils/config.py:171-184 | the value at the key in the freshly loaded configuration, or the default |
| Settings.ConfigModule.ResetConfig | src/utils/config.py:186-188 | the file holds the defaults |
| Settings.Merge | src/utils/config.py:30-32 | top-level keys from the file win, `version` excepted; missing keys come from the defaults; sections are not merged |
| Settings.MergeIdempotent | src/utils/config.py:30-32 | merging a merged configuration changes nothing |
| Settings.ShallowLoad | src/utils/config.py:20-43 | the file afterwards is untouched or holds exactly the returned configuration, whose `version` is the default one and which has every default key |
| Settings.Config.constructor | src/utils/config.py:15-18 | the object holds what its load returned |
| Settings.Config.SaveConfig | src/utils/config.py:45-59 | adopts the given configuration, if any, and writes the current one |
| Settings.Config.LoadConfig | src/utils/config.py:20-43 | a missing file is created with the defaults; a dict is version-forced and merged, then adopted and written; anything else gives the defaults and changes nothing |
| Settings.Config.Get | src/utils/config.py:61-63 | the value at the key, or the default |
| Settings.Config.Set | src/utils/config.py:65-68 | assigns the key and writes the file |
| Settings.Config.GetItem | src/utils/config.py:70-71 | present exactly when the key is, with its value |
| Settings.Config.SetItem | src/utils/config.py:73-75 | assigns the key and writes the file |
| Settings.ConfigSetThenReload | src/utils/config.py:20-35 | a key other than `version` that `set` wrote reads back in a fresh object |
| Settings.ValidateConfig | src/utils/config.py:190-217 | a valid configuration is a dict with string `version`, `theme` and `language` and with dict `backup` and `monitoring` sections |
| Settings.ValidateMeaning | src/utils/config.py:190-217 | valid exactly when the value is a dict meeting every type requirement; any missing or mistyped field fails, and nothing raises |
| Settings.ValidSections | src/utils/config.py:194-209 | string `version`, `theme`, `language` plus well-typed `backup` and `monitoring` sections make a configuration valid |
| Settings.BooleanCountsAsInt | src/utils/config.py:202 | a boolean `max_backups` passes, since `bool` is an `int` in Python |
| Translation.Walk | src/utils/i18n.py:66-71 | the empty path gives the table itself; a walk that gets anywhere went through a dict holding the first key |
| Translation.Found | src/utils/i18n.py:73 | a found translation is a non-empty string at the end of the walk; nothing is found when the walk fails or ends on something else or on the empty string |
| Translation.TranslationOf | src/utils/i18n.py:58-94 | with no table for the current language the answer is the default or the key; any other answer is a non-empty string; a non-empty key never gives the empty string |
| Translation.CurrentWins | src/utils/i18n.py:62-74 | a non-empty string at the path in the current language is the answer |
| Translation.FallsBackToPtBr | src/utils/i18n.py:76-87 | a key the current language lacks is taken from `pt_BR` |
| Translation.NoTableNoFallback | src/utils/i18n.py:65 | with no table for the current language, the answer is the default or the key, without `pt_BR` |
| Translation.TranslationSources | src/utils/i18n.py:58-94 | the answer is a non-empty string at the path in the current table or in `pt_BR`, or else the default or the key |
| Translation.TranslationNonEmpty | src/utils/i18n.py:58-94 | a non-empty key never translates to the empty string |
| Translation.WalkNest | src/utils/i18n.py:66-71 | walking a path through the matching nesting reaches its leaf |
| Translation.WalkAppend | src/utils/i18n.py:66-71 | walking a longer path is walking its halves in turn |
| Translation.WalkThroughNonDict | src/utils/i18n.py:66-71 | a path through a string, number, list or null finds nothing |
| Translation.DottedKeyRoundTrip | src/utils/i18n.py:62-74 | `"menu.file"` finds the string stored under `{"menu": {"file": s}}` |
| Translation.EmptyOrTableNotFound | src/utils/i18n.py:73 | an empty string or a nested table at the path counts as not found |
| Translation.LanguageName | src/utils/i18n.py:30 | the language is no longer than the file name, and a name without `.json` is its own language |
| Translation.LanguageNameOf | src/utils/i18n.py:30 | `"en_US.json"` names the language `"en_US"` |
| Translation.LoadFiles | src/utils/i18n.py:28-41 | loading never drops a language, and a language other than `pt_BR` that no `.json` file names keeps its table |
| Translation.LoadListing | src/utils/i18n.py:16-41 | loading never drops a language; a directory that cannot be listed adds only an empty `pt_BR` table |
| Translation.LoadFilesLanguages | src/utils/i18n.py:28-34 | when every `.json` file reads, the languages are one per `.json` file, named without `.json`; other files add nothing |
| Translation.LoadFilesOnlyJson | src/utils/i18n.py:16-41 | a language is available only if it was before, is `pt_BR`, or comes from a `.json` file |
| Translation.LoadFailureEmptiesPtBr | src/utils/i18n.py:38-41 | an unreadable `.json` file stops the loading and leaves `pt_BR` an empty table |
| Translation.I18n.constructor | src/utils/i18n.py:10-14 | the current language is the settings' `language` (default `pt_BR`) and the tables are those loaded |
| Translation.I18n.LoadTranslations | src/utils/i18n.py:16-41 | the loop ends with the tables of `LoadListing`, the current language unchanged |
| Translation.I18n.SetLanguage | src/utils/i18n.py:43-52 | succeeds exactly for a loaded language; it then becomes current and is saved in the settings, and otherwise nothing changes |
| Translation.I18n.AvailableLanguages | src/utils/i18n.py:54-56 | exactly the languages with a loaded table |
| Translation.I18n.Get | src/utils/i18n.py:58-94 | with no table for the current language the answer is the default or the key, and a non-empty key never translates to the empty string |
| Translation.I18n.Call | src/utils/i18n.py:96-98 | calling the instance answers as `get` |
| Translation.Translate | src/utils/i18n.py:108-110 | the module-level `_` answers as the global instance's `get` |
| Translation.LanguageSurvivesRestart | src/utils/i18n.py:43-52 | a language saved by `set_language` is the one a fresh settings object reads back |
| Software.FromRegistry | src/gui/tabs/software_tab.py:49-68 | no record exactly when `DisplayName` is missing or empty; otherwise the defaults "N/A", 0 and `None` fill absent values |
| Software.ParseStoreLine | src/gui/tabs/software_tab.py:110-123 | a record's name, publisher and version are whitespace-free words; it is a Store app with install date "N/A", size 0 and no uninstall string |
| Software.StoreLineFields | src/gui/tabs/software_tab.py:110-122 | any line with three or more whitespace-separated fields that does not start with `Name` gives the record of its first three fields, however the columns are padded |
| Software.StoreLineOfWords | src/gui/tabs/software_tab.py:110-122 | words joined by single spaces, the first not starting with `Name`, give the record of the first three words |
| Software.StoreHeaderSkipped | src/gui/tabs/software_tab.py:110 | a line starting with `Name` gives no record |
| Software.StoreShortLineSkipped | src/gui/tabs/software_tab.py:112 | a line with fewer than three fields gives no record |
| Software.FindMeaning | src/gui/tabs/software_tab.py:385 | a name is found exactly when the inventory has it, and the record found has that name |
| Software.Put | src/gui/tabs/software_tab.py:68 | storing a record puts it in the inventory, adds nothing else, and grows the inventory by at most one |
| Software.PutFind | src/gui/tabs/software_tab.py:68 | after storing a record, its name holds it and every other name what it held before |
| Software.PutShape | src/gui/tabs/software_tab.py:68 | storing adds only the record's name, keeps positions and keeps names unique |
| Software.PutAllFind | src/gui/tabs/software_tab.py:24-123 | after storing a sequence, each name holds the last record stored under it |
| Software.PutAllNames | src/gui/tabs/software_tab.py:24-123 | the inventory holds each name once, and exactly the names stored |
| Software.ScanResult | src/gui/tabs/software_tab.py:21-131 | the scanned inventory holds each name once, and exactly the names produced |
| Software.ScanMeaning | src/gui/tabs/software_tab.py:21-131 | the scanned inventory has one record per name, the names produced, and under each the record produced last |
| Software.StoreOverridesRegistry | src/gui/tabs/software_tab.py:104-123 | a Store app replaces a registry record of the same name |
| Software.ScanKey | src/gui/tabs/software_tab.py:35-101 | one key's entries are stored in order |
| Software.ScanStore | src/gui/tabs/software_tab.py:104-128 | the Store lines that parse are stored in order |
| Software.Scan | src/gui/tabs/software_tab.py:21-138 | the three keys in order, then the Store lines, give the scanned inventory |
| Software.Shown | src/gui/tabs/software_tab.py:275 | a record matches exactly when the lowercased search occurs at some position of the lowercased name or publisher; the empty search matches everything |
| Software.Filtered | src/gui/tabs/software_tab.py:268-275 | a record is shown exactly when it is in the inventory and the lowercased search occurs in its lowercased name or publisher |
| Software.EmptySearchShowsAll | src/gui/tabs/software_tab.py:268-275 | the empty search shows every record, in order |
| Software.SearchIgnoresCase | src/gui/tabs/software_tab.py:268-275 | two searches that lower-case alike, such as `Micro` and `MICRO`, show the same records |
| Software.SearchCaseForms | src/gui/tabs/software_tab.py:268-275 | any search, its upper-cased form and its lower-cased form show the same records |
| Software.Succeeds | src/gui/tabs/software_tab.py:423-452 | the installer succeeds only with an uninstall string; DISM and SFC succeed exactly when `Microsoft` occurs in the publisher |
| Software.FirstSuccess | src/gui/tabs/software_tab.py:403-406 | the method chosen is in the list and succeeds; there is none exactly when no method succeeds |
| Software.RepairChoice | src/gui/tabs/software_tab.py:396-452 | repair is possible exactly when the uninstall string contains `/repair` or the publisher contains `Microsoft`; the installer wins when it applies and SFC is never chosen |
| Software.SoftwareTab.FilterSoftware | src/gui/tabs/software_tab.py:265-304 | the table is refilled with the filtered records, the inventory unchanged |
| Software.SoftwareTab.UpdateSoftwareList | src/gui/tabs/software_tab.py:243-250 | adopts the inventory and shows its filtered records |
| Software.SoftwareTab.RepairSoftware | src/gui/tabs/software_tab.py:379-421 | nothing happens without a selection, a record or confirmation; otherwise the first successful method runs its command, and failure is reported exactly when none succeeds |
| SystemHealth.MetricIssues | src/utils/system_info.py:186-198 | at most three messages, and none exactly when every metric is at most 90 |
| SystemHealth.TempIssues | src/utils/system_info.py:201-209 | every temperature message names one of the groups read |
| SystemHealth.Issues | src/utils/system_info.py:180-209 | without sensor readings only the metric messages appear; every message is a metric message or starts with `Temperatura alta: ` |
| SystemHealth.CheckGroup | src/utils/system_info.py:204-207 | one message per entry above 80, with the status kept in step |
| SystemHealth.CheckTemperatures | src/utils/system_info.py:203-207 | the groups' messages in order, with the status kept in step |
| SystemHealth.GetSystemHealth | src/utils/system_info.py:177-211 | the issues are the metric messages then the temperature messages; the status is `Atenção` exactly when there is an issue |
| SystemHealth.AllClear | src/utils/system_info.py:180-211 | no issue exactly when every metric is at most 90 and, when the sensors were read, every entry is at most 80 |
| SystemHealth.MetricMessages | src/utils/system_info.py:186-198 | each metric's message is present exactly when that metric is strictly above 90 |
| SystemHealth.MetricOrder | src/utils/system_info.py:186-198 | with every metric high, the CPU, RAM and disk messages lead in that order |
| SystemHealth.TemperatureMessages | src/utils/system_info.py:201-209 | a group's message is present exactly when the sensors were read and that group has an entry strictly above 80 |
| SystemHealth.TempMessageIff | src/utils/system_info.py:203-207 | among the temperature messages, a group's appears exactly when some group of that name is hot |
| SystemHealth.HotGroupRepeats | src/utils/system_info.py:204-206 | for any readings, a group's messages are its own message repeated once per entry strictly above 80, and nothing else |
| SystemHealth.ShiftGroups | src/utils/system_info.py:118-119 | the text is built from six groups, each a byte |
| SystemHealth.MacAsWritten | src/utils/system_info.py:118-119 | as written, the text is six groups of two upper-case hexadecimal digits separated by colons |
| SystemHealth.Mac | src/utils/system_info.py:118-119 | corrected, the text is six groups of two upper-case hexadecimal digits separated by colons |
| SystemHealth.MacShape | src/utils/system_info.py:118-119 | the text has 17 characters: colons between six groups of two upper-case hexadecimal digits (the `upper()` of line 141), and it reads back as its groups |
| SystemHealth.MacAsWrittenGroups | src/utils/system_info.py:118-119 | as written, group k from the left is the byte of `node >> (10 - 2k)` |
| SystemHealth.MacAsWrittenCollides | src/utils/system_info.py:118-119 | as written, the node 0 and the node 2^18 print the same address |
| SystemHealth.MacExample | src/utils/system_info.py:118-119 | as written, node 256 prints `00:01:04:10:40:00`, which reads back as another node; the corrected text is `00:00:00:00:01:00` |
| SystemHealth.MacRoundTrip | src/utils/system_info.py:118-119 | the corrected text of a 48-bit node is six upper-case two-digit groups separated by colons and reads back as that node |
| Documents.IsListed | src/gui/tabs/documents_tab.py:70 | a listed file is not the manual in any case and ends with a supported extension, so its name has at least three characters |
| Documents.Shown | src/gui/tabs/documents_tab.py:56-71 | the list has the label when the manual exists plus one item per listed file, and every item is the label or a listed file of the directory |
| Documents.DocumentPath | src/gui/tabs/documents_tab.py:83-87 | every item opens a path inside `assets/docs`: the label opens `adf.rtf`, any other item its own name |
| Documents.OpenResult | src/gui/tabs/documents_tab.py:101-107 | the outcome names the item's path, and the item opens exactly when that path exists |
| Documents.ListedFiles | src/gui/tabs/documents_tab.py:69-71 | a directory file is listed exactly when `IsListed` holds of it |
| Documents.FilterListed | src/gui/tabs/documents_tab.py:69-71 | the loop adds the listed files in listing order |
| Documents.LabelNotListed | src/gui/tabs/documents_tab.py:59-70 | the manual's label has no supported extension, so no directory file collides with it |
| Documents.ManualFileNotListed | src/gui/tabs/documents_tab.py:70 | `adf.rtf`, in any case, is never listed as a file |
| Documents.ListedPath | src/gui/tabs/documents_tab.py:83-87 | a listed file opens `assets/docs/<file>` and the label opens `assets/docs/adf.rtf` |
| Documents.ManualFirst | src/gui/tabs/documents_tab.py:62-71 | the label comes first exactly when the manual exists, appears nowhere else, and the listed files follow |
| Documents.ListedKeepsOrder | src/gui/tabs/documents_tab.py:69-71 | listed files keep their listing order |
| Documents.ListedDistinct | src/gui/tabs/documents_tab.py:69-71 | a listing without repeated names lists each file once |
| Documents.ShownDistinct | src/gui/tabs/documents_tab.py:53-87 | a load shows each item once, and each item opens a listed file or the manual |
| Documents.ShownItemsOpen | src/gui/tabs/documents_tab.py:101-107 | when the listed files and the manual still exist, every shown item opens |
| Documents.DocumentsTab.constructor | src/gui/tabs/documents_tab.py:18-24 | the new tab shows what a load shows, with no viewer yet |
| Documents.DocumentsTab.LoadDocuments | src/gui/tabs/documents_tab.py:53-81 | the list is cleared and refilled, so it depends on the inputs alone; an unreadable directory gives the warning |
| Documents.DocumentsTab.OpenDocument | src/gui/tabs/documents_tab.py:101-127 | a missing path gives a warning naming it and changes nothing; otherwise the viewer, created on first use, shows the path |
| Documents.DocumentsTab.ViewSelectedDocument | src/gui/tabs/documents_tab.py:89-99 | without a selection the user is asked to select a document and nothing changes; otherwise the item is opened: the viewer then exists and shows its path, or, when the path is missing, the viewer is as it was |

## Left out

- Reading and writing files, the registry, WMI, `psutil`, PowerShell and
  `os.system` are inputs or outcomes here. A write never fails, so every
  `save_config` returns True. The model does not cover `makedirs`
  failures or a settings file that vanishes between the existence test
  and the read.
- Threads, Qt signals, progress reporting, message boxes and logging are
  left out. The scanner's record map is handed over whole.
- JSON objects are maps, so the key order of a dict, and of the
  languages list, is not modelled. The software inventory keeps insertion
  order because the table shows it.
- `Settings.ConfigModule`: `load_config` shares the default sections
  with `DEFAULT_CONFIG` in three places. Line 113 inserts a missing
  default section by reference. Lines 130 and 134 return
  `DEFAULT_CONFIG.copy()`, a shallow copy. A later `update_config` of
  `"section.key"` (line 160) then writes into the shared default section
  in memory. The next `reset_config` or missing-file load would then
  write the changed defaults. Values are immutable in the model, so this
  aliasing of `DEFAULT_CONFIG` is not captured.
- `Versions.ParseNat`: `int()` also accepts surrounding whitespace, a
  sign and underscores. Components are restricted to decimal digit
  strings, so those forms count as failures.
- `Versions.Manifest`: the manifest is a typed record. A field of the
  wrong JSON type is not modelled; for example, a numeric `version` would
  make `split` raise.
- `Settings.UpdateThenGet`: the round trip is stated for plain keys that
  are neither `version` nor a default section name, and for dotted keys
  into an existing dict section. Writing a whole default section (a dict
  or another value) is not covered.
- `Text.Lower` lowercases ASCII and Latin-1 letters only. `Text.Upper`
  upper-cases ASCII letters only. Other Unicode case mappings are left
  out.
- `Software.FromRegistry`: registry values are strings, and
  `EstimatedSize` is an integer. A non-string publisher, which would make
  the search filter raise, is not modelled.
- The size column's formatting, `uninstall_software` and
  `update_buttons` are outside the modelled core of the software tab.
- `SystemHealth`: GPU load and memory, `get_hardware_info` and
  `get_os_info` are left out, and so are the IP address, DNS and gateway
  of `get_network_info`.
- `SystemHealth.MacAsWritten`: the MAC text is computed inside the `try`
  of `get_network_info` (src/utils/system_info.py:113-153). A failure
  anywhere in it, including the IP lookup `socket.gethostbyname` of line
  115, makes the method return `N/A` for the MAC instead (lines 146-153).
  That error path is not modelled, so the 17-character shape holds only
  when the network lookups succeed.
- `SystemHealth.Metrics`: metrics are exact reals; floating-point
  rounding does not matter for the strict comparisons with 90 and 80.
- `Documents.DocumentPath`: paths are component lists. The platform
  separator and `os.path.join`'s handling of an absolute item text are
  not modelled. The document viewer's own loading is assumed to succeed.

## Findings

| source | as written | input that shows it | evidently intended | confidence | as-written member | corrected member |
|---|---|---|---|---|---|---|
| src/utils/system_info.py:118-119 | the six MAC groups are `(node >> s) & 0xff` for `s` in `range(0, 12, 2)`: shifts of 0, 2, .., 10 bits, so the groups overlap and bits 18-47 of the node never appear | node 256 prints `00:01:04:10:40:00`; nodes 0 and 2^18 both print `00:00:00:00:00:00` | shifts of 0, 8, .., 40 bits, one group per byte: node 256 prints `00:00:00:00:01:00`, and every 48-bit node reads back from its text | not executed | SystemHealth.MacAsWrittenCollides | SystemHealth.MacRoundTrip |
