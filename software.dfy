/** The installed-software inventory of src/gui/tabs/software_tab.py: the
    records the scanner builds from the three Uninstall registry keys and
    from the Microsoft Store listing, the name-keyed inventory they are
    collected into, the search filter of the table, and the choice of
    repair method. Registry reads and the PowerShell output are inputs. */
module Software {
  import opened Wrappers
  import opened Text

  // ---------------------------------------------------------------------
  // Records (SoftwareScanner.run, lines 21-138)

  /** One subkey of an Uninstall key: the values it holds (`None`: the
      value is absent). */
  datatype RegistryEntry = RegistryEntry(
    displayName: Option<string>,
    publisher: Option<string>,
    displayVersion: Option<string>,
    installDate: Option<string>,
    estimatedSize: Option<int>,
    uninstallString: Option<string>)

  /** The `info` dict of one program. */
  datatype SoftwareRecord = SoftwareRecord(
    name: string,
    publisher: string,
    version: string,
    installDate: string,
    size: int,
    uninstall: Option<string>,
    storeApp: bool)

  /** The three keys of lines 28-32, in the order they are read: the
      machine key, its 32-bit view and the user key. A key that cannot be
      opened has no entries. */
  datatype Registry = Registry(machine: seq<RegistryEntry>, machine32: seq<RegistryEntry>, user: seq<RegistryEntry>)

  /** Lines 49-68: the record of a registry entry. An entry without a
      `DisplayName` (the WindowsError of line 70) or with an empty one gives
      none; each other absent value takes its default. */
  function FromRegistry(e: RegistryEntry): (r: Option<SoftwareRecord>)
    ensures r.None? <==> e.displayName.None? || e.displayName.value == ""
    ensures r.Some? ==> r.value == SoftwareRecord(e.displayName.value, e.publisher.GetOr("N/A"),
      e.displayVersion.GetOr("N/A"), e.installDate.GetOr("N/A"), e.estimatedSize.GetOr(0), e.uninstallString, false)
  {
    match e.displayName
    case None => None
    case Some(name) =>
      if name == "" then None
      else Some(SoftwareRecord(
        name,
        e.publisher.GetOr("N/A"),
        e.displayVersion.GetOr("N/A"),
        e.installDate.GetOr("N/A"),
        e.estimatedSize.GetOr(0),
        e.uninstallString,
        false))
  }

  /** Lines 110-122: the record of one line of the Store listing. A line
      counts when it is not blank, does not itself start with `Name` (the
      header), and has at least three whitespace-separated fields: name,
      publisher and version. */
  function ParseStoreLine(line: string): (r: Option<SoftwareRecord>)
    ensures r.Some? ==> IsWord(r.value.name) && IsWord(r.value.publisher) && IsWord(r.value.version)
    ensures r.Some? ==> r.value.storeApp && r.value.installDate == "N/A" && r.value.size == 0 && r.value.uninstall.None?
  {
    var parts := Tokens(line);
    if !IsBlank(line) && !IsPrefix("Name", line) && |parts| >= 3 then
      TokensAreWords(line);
      Some(SoftwareRecord(parts[0], parts[1], parts[2], "N/A", 0, None, true))
    else None
  }

  /** A word that does not start with `Name`, followed by a space, does
      not start with `Name` either. */
  lemma NotNamePrefix(word: string, tail: string)
    requires IsWord(word) && !IsPrefix("Name", word)
    ensures !IsPrefix("Name", word + ([' '] + tail))
  {
    var line := word + ([' '] + tail);
    if |word| >= 4 {
      assert line[..4] == word[..4];
    } else {
      assert line[|word|] == ' ';
      assert "Name"[|word|] != ' ';
    }
  }

  /** Any line with three or more whitespace-separated fields that does
      not start with `Name` gives the record of its first three fields,
      however the columns are padded and whatever follows them. */
  lemma StoreLineFields(line: string)
    requires |Tokens(line)| >= 3 && !IsPrefix("Name", line)
    ensures ParseStoreLine(line) ==
      Some(SoftwareRecord(Tokens(line)[0], Tokens(line)[1], Tokens(line)[2], "N/A", 0, None, true))
  {
    TokensNotBlank(line);
  }

  /** Words joined by single spaces, the first not starting with `Name`,
      give the record of the first three words. */
  lemma StoreLineOfWords(words: seq<string>)
    requires |words| >= 3 && AllWords(words)
    requires !IsPrefix("Name", words[0])
    ensures ParseStoreLine(JoinWords(words)) ==
      Some(SoftwareRecord(words[0], words[1], words[2], "N/A", 0, None, true))
  {
    var line := JoinWords(words);
    TokensJoinWords(words);
    NotNamePrefix(words[0], JoinWords(words[1..]));
    StoreLineFields(line);
  }

  /** The header line of the listing gives no record. */
  lemma StoreHeaderSkipped(rest: string)
    ensures ParseStoreLine("Name" + rest).None?
  {
    assert ("Name" + rest)[..4] == "Name";
  }

  /** A line with fewer than three fields gives no record. */
  lemma StoreShortLineSkipped(line: string)
    requires |Tokens(line)| < 3
    ensures ParseStoreLine(line).None?
  {
  }

  // ---------------------------------------------------------------------
  // The inventory: `software_list`, a dict keyed by name (line 68, 123)

  /** The inventory in insertion order; each record's key is its name. */
  type Inventory = seq<SoftwareRecord>

  /** The names in the inventory. */
  function Names(inv: Inventory): set<string>
    decreases |inv|
  {
    if inv == [] then {} else {inv[0].name} + Names(inv[1..])
  }

  /** No name occurs twice. */
  predicate UniqueNames(inv: Inventory)
    decreases |inv|
  {
    inv == [] || (inv[0].name !in Names(inv[1..]) && UniqueNames(inv[1..]))
  }

  lemma {:induction false} NamesAppend(a: Inventory, b: Inventory)
    ensures Names(a + b) == Names(a) + Names(b)
    decreases |a|
  {
    if a != [] {
      assert (a + b)[1..] == a[1..] + b;
      NamesAppend(a[1..], b);
    } else {
      assert a + b == b;
    }
  }

  /** `software_list[name]`, absent as `None`. */
  function Find(inv: Inventory, name: string): Option<SoftwareRecord>
    decreases |inv|
  {
    if inv == [] then None
    else if inv[0].name == name then Some(inv[0])
    else Find(inv[1..], name)
  }

  /** A name is found exactly when the inventory has it, and what is found
      is a record of the inventory with that name. */
  lemma {:induction false} FindMeaning(inv: Inventory, name: string)
    ensures Find(inv, name).Some? <==> name in Names(inv)
    ensures Find(inv, name).Some? ==> Find(inv, name).value in inv && Find(inv, name).value.name == name
    decreases |inv|
  {
    if inv != [] && inv[0].name != name {
      FindMeaning(inv[1..], name);
    }
  }

  /** `software_list[rec.name] = rec`: a new name is appended, a known one
      is replaced where it stands. */
  function Put(inv: Inventory, rec: SoftwareRecord): (r: Inventory)
    ensures rec in r
    ensures forall x | x in r :: x == rec || x in inv
    ensures |inv| <= |r| <= |inv| + 1
    decreases |inv|
  {
    if inv == [] then [rec]
    else if inv[0].name == rec.name then [rec] + inv[1..]
    else [inv[0]] + Put(inv[1..], rec)
  }

  /** After `Put`, the name of `rec` holds `rec` and every other name what
      it held before. */
  lemma {:induction false} PutFind(inv: Inventory, rec: SoftwareRecord, name: string)
    ensures Find(Put(inv, rec), name) == if name == rec.name then Some(rec) else Find(inv, name)
    decreases |inv|
  {
    if inv != [] {
      if inv[0].name == rec.name {
        assert ([rec] + inv[1..])[1..] == inv[1..];
      } else {
        assert ([inv[0]] + Put(inv[1..], rec))[1..] == Put(inv[1..], rec);
        PutFind(inv[1..], rec, name);
      }
    }
  }

  /** `Put` adds the name of `rec` and no other, keeps every name where it
      stood, and keeps names unique. */
  lemma {:induction false} PutShape(inv: Inventory, rec: SoftwareRecord)
    ensures Names(Put(inv, rec)) == Names(inv) + {rec.name}
    ensures |Put(inv, rec)| == if rec.name in Names(inv) then |inv| else |inv| + 1
    ensures forall i | 0 <= i < |inv| :: Put(inv, rec)[i].name == inv[i].name
    ensures UniqueNames(inv) ==> UniqueNames(Put(inv, rec))
    decreases |inv|
  {
    if inv != [] {
      if inv[0].name == rec.name {
        assert ([rec] + inv[1..])[1..] == inv[1..];
      } else {
        var tail := Put(inv[1..], rec);
        assert ([inv[0]] + tail)[1..] == tail;
        PutShape(inv[1..], rec);
      }
    }
  }

  /** Putting records one after another. */
  function PutAll(inv: Inventory, recs: seq<SoftwareRecord>): Inventory
    decreases |recs|
  {
    if recs == [] then inv else Put(PutAll(inv, recs[..|recs| - 1]), recs[|recs| - 1])
  }

  /** The last record in `recs` with the given name. */
  function LastNamed(recs: seq<SoftwareRecord>, name: string): Option<SoftwareRecord>
    decreases |recs|
  {
    if recs == [] then None
    else if recs[|recs| - 1].name == name then Some(recs[|recs| - 1])
    else LastNamed(recs[..|recs| - 1], name)
  }

  /** After putting `recs`, a name holds the last record put under it, or
      what it held before when none was. */
  lemma {:induction false} PutAllFind(inv: Inventory, recs: seq<SoftwareRecord>, name: string)
    ensures Find(PutAll(inv, recs), name) == if LastNamed(recs, name).Some? then LastNamed(recs, name) else Find(inv, name)
    decreases |recs|
  {
    if recs != [] {
      PutAllFind(inv, recs[..|recs| - 1], name);
      PutFind(PutAll(inv, recs[..|recs| - 1]), recs[|recs| - 1], name);
    }
  }

  /** Putting keeps names unique, and the names are those before plus those
      put. */
  lemma PutAllNames(inv: Inventory, recs: seq<SoftwareRecord>)
    ensures Names(PutAll(inv, recs)) == Names(inv) + Names(recs)
    ensures UniqueNames(inv) ==> UniqueNames(PutAll(inv, recs))
  {
    PutAllNameSet(inv, recs);
    if UniqueNames(inv) {
      PutAllUnique(inv, recs);
    }
  }

  lemma {:induction false} PutAllNameSet(inv: Inventory, recs: seq<SoftwareRecord>)
    ensures Names(PutAll(inv, recs)) == Names(inv) + Names(recs)
    decreases |recs|
  {
    if recs != [] {
      var init := recs[..|recs| - 1];
      var last := recs[|recs| - 1];
      var before := PutAll(inv, init);
      assert PutAll(inv, recs) == Put(before, last);
      PutAllNameSet(inv, init);
      PutShape(before, last);
      NamesSnoc(recs);
    }
  }

  lemma NamesSnoc(recs: seq<SoftwareRecord>)
    requires recs != []
    ensures Names(recs) == Names(recs[..|recs| - 1]) + {recs[|recs| - 1].name}
  {
    var init := recs[..|recs| - 1];
    var last := recs[|recs| - 1];
    assert recs == init + [last];
    NamesAppend(init, [last]);
    assert Names([last]) == {last.name};
  }

  lemma {:induction false} PutAllUnique(inv: Inventory, recs: seq<SoftwareRecord>)
    requires UniqueNames(inv)
    ensures UniqueNames(PutAll(inv, recs))
    decreases |recs|
  {
    if recs != [] {
      var init := recs[..|recs| - 1];
      PutAllUnique(inv, init);
      PutShape(PutAll(inv, init), recs[|recs| - 1]);
    }
  }

  /** Putting a sequence after another is putting their concatenation. */
  lemma {:induction false} PutAllAppend(inv: Inventory, a: seq<SoftwareRecord>, b: seq<SoftwareRecord>)
    ensures PutAll(PutAll(inv, a), b) == PutAll(inv, a + b)
    decreases |b|
  {
    if b != [] {
      assert (a + b)[..|a + b| - 1] == a + b[..|b| - 1];
      PutAllAppend(inv, a, b[..|b| - 1]);
    } else {
      assert a + b == a;
    }
  }

  /** The records one key's entries give, in order. */
  function EntryRecords(entries: seq<RegistryEntry>): seq<SoftwareRecord>
    decreases |entries|
  {
    if entries == [] then []
    else
      var last := entries[|entries| - 1];
      EntryRecords(entries[..|entries| - 1]) + (if FromRegistry(last).Some? then [FromRegistry(last).value] else [])
  }

  /** The records the Store listing gives, in order. */
  function StoreRecords(lines: seq<string>): seq<SoftwareRecord>
    decreases |lines|
  {
    if lines == [] then []
    else
      var last := lines[|lines| - 1];
      StoreRecords(lines[..|lines| - 1]) + (if ParseStoreLine(last).Some? then [ParseStoreLine(last).value] else [])
  }

  /** The keys in the order of lines 28-32. */
  function Keys(reg: Registry): seq<seq<RegistryEntry>> {
    [reg.machine, reg.machine32, reg.user]
  }

  /** The records of several keys, key after key. */
  function RegistryRecords(keys: seq<seq<RegistryEntry>>): seq<SoftwareRecord>
    decreases |keys|
  {
    if keys == [] then [] else RegistryRecords(keys[..|keys| - 1]) + EntryRecords(keys[|keys| - 1])
  }

  /** Every record the scan produces, in the order they are stored. */
  function Produced(reg: Registry, lines: seq<string>): seq<SoftwareRecord> {
    RegistryRecords(Keys(reg)) + StoreRecords(lines)
  }

  /** The inventory the scan emits. */
  function ScanResult(reg: Registry, lines: seq<string>): (inv: Inventory)
    ensures UniqueNames(inv)
    ensures Names(inv) == Names(Produced(reg, lines))
  {
    PutAllNames([], Produced(reg, lines));
    PutAll([], Produced(reg, lines))
  }

  /** The scanned inventory has one record per name, holds exactly the
      names produced, and under each name the record produced last. */
  lemma ScanMeaning(reg: Registry, lines: seq<string>, name: string)
    ensures UniqueNames(ScanResult(reg, lines))
    ensures Names(ScanResult(reg, lines)) == Names(Produced(reg, lines))
    ensures Find(ScanResult(reg, lines), name) == LastNamed(Produced(reg, lines), name)
  {
    PutAllNames([], Produced(reg, lines));
    PutAllFind([], Produced(reg, lines), name);
  }

  /** A Store app overrides a registry record of the same name. */
  lemma StoreOverridesRegistry(reg: Registry, lines: seq<string>, rec: SoftwareRecord)
    requires rec in StoreRecords(lines)
    ensures Find(ScanResult(reg, lines), rec.name).Some?
    ensures Find(ScanResult(reg, lines), rec.name).value.storeApp
  {
    var all := Produced(reg, lines);
    PutAllFind([], all, rec.name);
    LastNamedStore(RegistryRecords(Keys(reg)), lines, rec);
  }

  lemma LastNamedStore(prefix: seq<SoftwareRecord>, lines: seq<string>, rec: SoftwareRecord)
    requires rec in StoreRecords(lines)
    ensures LastNamed(prefix + StoreRecords(lines), rec.name).Some?
    ensures LastNamed(prefix + StoreRecords(lines), rec.name).value.storeApp
  {
    StoreRecordsAreApps(lines);
    LastNamedIn(prefix, StoreRecords(lines), rec);
  }

  lemma {:induction false} StoreRecordsAreApps(lines: seq<string>)
    ensures forall r | r in StoreRecords(lines) :: r.storeApp
    decreases |lines|
  {
    if lines != [] {
      StoreRecordsAreApps(lines[..|lines| - 1]);
    }
  }

  /** When `rec` is in `b`, the last record of `a + b` under its name
      comes from `b`. */
  lemma {:induction false} LastNamedIn(a: seq<SoftwareRecord>, b: seq<SoftwareRecord>, rec: SoftwareRecord)
    requires rec in b
    ensures LastNamed(a + b, rec.name).Some?
    ensures LastNamed(a + b, rec.name).value in b
    decreases |b|
  {
    var s := a + b;
    var last := b[|b| - 1];
    assert s[|s| - 1] == last;
    if last.name != rec.name {
      assert rec in b[..|b| - 1] by {
        assert b == b[..|b| - 1] + [last];
      }
      assert s[..|s| - 1] == a + b[..|b| - 1];
      LastNamedIn(a, b[..|b| - 1], rec);
    }
  }

  /** One record more: putting it after the others. */
  lemma PutAllSnoc(inv: Inventory, recs: seq<SoftwareRecord>, rec: SoftwareRecord)
    ensures PutAll(inv, recs + [rec]) == Put(PutAll(inv, recs), rec)
  {
    assert (recs + [rec])[..|recs|] == recs;
  }

  /** One registry key (lines 36-101): each entry in order, every entry with
      a display name stored under it. */
  method ScanKey(start: Inventory, entries: seq<RegistryEntry>) returns (softwareList: Inventory)
    ensures softwareList == PutAll(start, EntryRecords(entries))
  {
    softwareList := start;
    for j := 0 to |entries|
      invariant softwareList == PutAll(start, EntryRecords(entries[..j]))
    {
      var prefix := entries[..j + 1];
      assert prefix[..j] == entries[..j];
      var info := FromRegistry(entries[j]);
      assert prefix[j] == entries[j];
      if info.Some? {
        assert EntryRecords(prefix) == EntryRecords(entries[..j]) + [info.value];
        PutAllSnoc(start, EntryRecords(entries[..j]), info.value);
        softwareList := Put(softwareList, info.value);
      } else {
        assert EntryRecords(prefix) == EntryRecords(entries[..j]) + [];
        assert EntryRecords(prefix) == EntryRecords(entries[..j]);
      }
    }
    assert entries[..|entries|] == entries;
  }

  /** The Store listing (lines 104-132): every line that parses is stored
      under its name. */
  method ScanStore(start: Inventory, lines: seq<string>) returns (softwareList: Inventory)
    ensures softwareList == PutAll(start, StoreRecords(lines))
  {
    softwareList := start;
    for j := 0 to |lines|
      invariant softwareList == PutAll(start, StoreRecords(lines[..j]))
    {
      var prefix := lines[..j + 1];
      assert prefix[..j] == lines[..j];
      var info := ParseStoreLine(lines[j]);
      assert prefix[j] == lines[j];
      if info.Some? {
        assert StoreRecords(prefix) == StoreRecords(lines[..j]) + [info.value];
        PutAllSnoc(start, StoreRecords(lines[..j]), info.value);
        softwareList := Put(softwareList, info.value);
      } else {
        assert StoreRecords(prefix) == StoreRecords(lines[..j]) + [];
        assert StoreRecords(prefix) == StoreRecords(lines[..j]);
      }
    }
    assert lines[..|lines|] == lines;
  }

  /** The scanner (lines 21-138): the three keys in order, then the Store
      lines, every record stored under its name. */
  method Scan(reg: Registry, lines: seq<string>) returns (softwareList: Inventory)
    ensures softwareList == ScanResult(reg, lines)
  {
    softwareList := [];
    var keys := Keys(reg);
    for k := 0 to |keys|
      invariant softwareList == PutAll([], RegistryRecords(keys[..k]))
    {
      assert keys[..k + 1][..k] == keys[..k];
      PutAllAppend([], RegistryRecords(keys[..k]), EntryRecords(keys[k]));
      softwareList := ScanKey(softwareList, keys[k]);
    }
    assert keys[..|keys|] == keys;
    PutAllAppend([], RegistryRecords(keys), StoreRecords(lines));
    softwareList := ScanStore(softwareList, lines);
  }

  // ---------------------------------------------------------------------
  // Search (filter_software, lines 265-304)

  /** Line 275: the lowercased search text occurs in the lowercased name
      or the lowercased publisher. */
  predicate Shown(search: string, rec: SoftwareRecord)
    ensures search == "" ==> Shown(search, rec)
    ensures Shown(search, rec) <==>
      (exists i :: OccursAt(Lower(rec.name), Lower(search), i)) || (exists i :: OccursAt(Lower(rec.publisher), Lower(search), i))
  {
    var needle := Lower(search);
    ContainsIff(Lower(rec.name), needle);
    ContainsIff(Lower(rec.publisher), needle);
    Contains(Lower(rec.name), needle) || Contains(Lower(rec.publisher), needle)
  }

  /** The records the table shows, in inventory order. */
  function Filtered(inv: Inventory, search: string): (rows: Inventory)
    ensures forall r :: r in rows <==> r in inv && Shown(search, r)
    decreases |inv|
  {
    if inv == [] then []
    else
      var last := inv[|inv| - 1];
      var init := inv[..|inv| - 1];
      assert inv == init + [last];
      Filtered(init, search) + (if Shown(search, last) then [last] else [])
  }

  /** The empty search shows every record. */
  lemma {:induction false} EmptySearchShowsAll(inv: Inventory)
    ensures Filtered(inv, "") == inv
    decreases |inv|
  {
    if inv != [] {
      var last := inv[|inv| - 1];
      assert IsPrefix(Lower(""), Lower(last.name));
      EmptySearchShowsAll(inv[..|inv| - 1]);
      assert inv == inv[..|inv| - 1] + [last];
    }
  }

  /** Matching ignores case: two searches that lower-case alike, such as
      `Micro` and `MICRO`, show the same records. */
  lemma {:induction false} SearchIgnoresCase(inv: Inventory, s: string, t: string)
    ensures Lower(s) == Lower(t) ==> Filtered(inv, s) == Filtered(inv, t)
    decreases |inv|
  {
    if inv != [] {
      SearchIgnoresCase(inv[..|inv| - 1], s, t);
    }
  }

  /** In particular a search, its upper-cased and its lower-cased forms
      show the same records. */
  lemma SearchCaseForms(inv: Inventory, search: string)
    ensures Filtered(inv, Upper(search)) == Filtered(inv, search)
    ensures Filtered(inv, Lower(search)) == Filtered(inv, search)
  {
    LowerUpper(search);
    LowerLower(search);
    SearchIgnoresCase(inv, Upper(search), search);
    SearchIgnoresCase(inv, Lower(search), search);
  }

  // ---------------------------------------------------------------------
  // Repair (repair_software and its three methods, lines 379-452)

  datatype RepairMethod = Installer | Dism | Sfc

  /** The order of lines 396-400. */
  const RepairOrder: seq<RepairMethod> := [Installer, Dism, Sfc]

  /** Whether a method reports success for a record (lines 423-452): the
      installer when the lowercased uninstall string contains `/repair`
      (an absent one raises, which counts as failure); DISM and SFC when
      the publisher contains `Microsoft`, case-sensitively. */
  predicate Succeeds(m: RepairMethod, rec: SoftwareRecord)
    ensures Succeeds(m, rec) && m == Installer ==> rec.uninstall.Some?
    ensures m != Installer ==> (Succeeds(m, rec) <==> exists i :: OccursAt(rec.publisher, "Microsoft", i))
  {
    ContainsIff(rec.publisher, "Microsoft");
    match m
    case Installer => rec.uninstall.Some? && Contains(Lower(rec.uninstall.value), "/repair")
    case Dism => Contains(rec.publisher, "Microsoft")
    case Sfc => Contains(rec.publisher, "Microsoft")
  }

  /** The command a successful method runs. */
  function Command(m: RepairMethod, rec: SoftwareRecord): string
    requires Succeeds(m, rec)
  {
    match m
    case Installer => "start \"\" \"" + rec.uninstall.value + " /repair\""
    case Dism => "DISM /Online /Cleanup-Image /RestoreHealth"
    case Sfc => "sfc /scannow"
  }

  /** What a repair request ends in: nothing (no selection, no record, or
      the user declined), the first method that worked and the command it
      ran, or the "repair failed" warning. */
  datatype RepairOutcome = NotAttempted | Repaired(via: RepairMethod, command: string) | RepairFailed

  /** The first method of `methods` that succeeds. */
  function FirstSuccess(methods: seq<RepairMethod>, rec: SoftwareRecord): (r: Option<RepairMethod>)
    ensures r.Some? ==> r.value in methods && Succeeds(r.value, rec)
    ensures r.None? <==> forall m | m in methods :: !Succeeds(m, rec)
    decreases |methods|
  {
    if methods == [] then None
    else if Succeeds(methods[0], rec) then Some(methods[0])
    else FirstSuccess(methods[1..], rec)
  }

  /** Repair is possible exactly when the uninstall string asks for it or
      the publisher is Microsoft; SFC is never the method used, since DISM
      is tried first on the same condition. */
  lemma RepairChoice(rec: SoftwareRecord)
    ensures FirstSuccess(RepairOrder, rec).Some? <==>
      (rec.uninstall.Some? && Contains(Lower(rec.uninstall.value), "/repair")) || Contains(rec.publisher, "Microsoft")
    ensures FirstSuccess(RepairOrder, rec) != Some(Sfc)
    ensures Succeeds(Installer, rec) ==> FirstSuccess(RepairOrder, rec) == Some(Installer)
  {
    assert RepairOrder[1..] == [Dism, Sfc];
    assert RepairOrder[1..][1..] == [Sfc];
  }

  /** The software tab: the inventory last received and the rows shown. */
  class SoftwareTab {
    var softwareList: Inventory
    var rows: Inventory

    constructor ()
      ensures softwareList == [] && rows == []
    {
      softwareList := [];
      rows := [];
    }

    /** `filter_software` (lines 265-304): the table is cleared and refilled
        with the matching records, in inventory order. */
    method FilterSoftware(searchText: string)
      modifies this
      ensures rows == Filtered(softwareList, searchText)
      ensures softwareList == old(softwareList)
    {
      var search := Lower(searchText);
      var list := softwareList;
      rows := [];
      for i := 0 to |list|
        invariant softwareList == list
        invariant rows == Filtered(list[..i], searchText)
      {
        assert list[..i + 1][..i] == list[..i];
        var info := list[i];
        if Contains(Lower(info.name), search) || Contains(Lower(info.publisher), search) {
          rows := rows + [info];
        }
      }
      assert list[..|list|] == list;
    }

    /** `update_software_list` (lines 243-250): adopt the scanned inventory
        and refilter. */
    method UpdateSoftwareList(list: Inventory, searchText: string)
      modifies this
      ensures softwareList == list
      ensures rows == Filtered(list, searchText)
    {
      softwareList := list;
      FilterSoftware(searchText);
    }

    /** `repair_software` (lines 379-421): the record of the selected row
        (`row` is -1 without a selection), and if the user confirms, the
        methods in order until one succeeds. */
    method RepairSoftware(row: int, confirmed: bool) returns (outcome: RepairOutcome)
      requires -1 <= row < |rows|
      ensures row < 0 || Find(softwareList, rows[row].name).None? || !confirmed ==> outcome == NotAttempted
      ensures row >= 0 && confirmed && Find(softwareList, rows[row].name).Some? ==>
        var rec := Find(softwareList, rows[row].name).value;
        match FirstSuccess(RepairOrder, rec)
        case None => outcome == RepairFailed
        case Some(m) => outcome == Repaired(m, Command(m, rec))
    {
      if row < 0 {
        return NotAttempted;
      }
      var info := Find(softwareList, rows[row].name);
      if info.None? || !confirmed {
        return NotAttempted;
      }
      var rec := info.value;
      var i := 0;
      while i < |RepairOrder|
        invariant 0 <= i <= |RepairOrder|
        invariant FirstSuccess(RepairOrder, rec) == FirstSuccess(RepairOrder[i..], rec)
      {
        var m := RepairOrder[i];
        if Succeeds(m, rec) {
          return Repaired(m, Command(m, rec));
        }
        assert RepairOrder[i..][1..] == RepairOrder[i + 1..];
        i := i + 1;
      }
      return RepairFailed;
    }
  }
}
