/** The update decision of `UpdateManager` (src/utils/updater.py): version
    strings compared component by component as integers, and the manifest
    turned into "update required", "update available" or "no update". */
module Versions {
  import opened Wrappers
  import opened Text

  predicate IsDigit(c: char) {
    '0' <= c <= '9'
  }

  predicate AllDigits(s: string) {
    forall i :: 0 <= i < |s| ==> IsDigit(s[i])
  }

  /** The number a string of decimal digits denotes. */
  function DigitsValue(s: string): nat
    requires AllDigits(s)
  {
    if s == [] then 0
    else DigitsValue(s[..|s| - 1]) * 10 + (s[|s| - 1] as int - '0' as int)
  }

  /** `int(s)` restricted to decimal digit strings: `None` where Python
      raises, that is for the empty string and for any other character. */
  function ParseNat(s: string): (r: Option<nat>)
    ensures r.Some? <==> s != [] && AllDigits(s)
  {
    if s != [] && AllDigits(s) then Some(DigitsValue(s)) else None
  }

  /** The decimal rendering of `n`, without leading zeros. */
  function ShowNat(n: nat): (s: string)
    ensures s != [] && AllDigits(s)
  {
    if n < 10 then [('0' as int + n) as char]
    else ShowNat(n / 10) + [('0' as int + n % 10) as char]
  }

  /** Parsing reads back the number that was written. */
  lemma {:induction false} ParseShowNat(n: nat)
    ensures ParseNat(ShowNat(n)) == Some(n)
  {
    var s := ShowNat(n);
    if n >= 10 {
      ParseShowNat(n / 10);
      assert s[..|s| - 1] == ShowNat(n / 10);
      assert s[|s| - 1] as int - '0' as int == n % 10;
      assert DigitsValue(s) == (n / 10) * 10 + n % 10;
    } else {
      assert s[..0] == [];
      assert DigitsValue(s) == 0 * 10 + n;
    }
  }

  /** Leading zeros do not change the value: `int("01") == int("1")`. */
  lemma {:induction false} LeadingZero(s: string)
    requires AllDigits(s)
    ensures AllDigits("0" + s) && DigitsValue("0" + s) == DigitsValue(s)
  {
    if s != [] {
      var t := "0" + s;
      assert t[..|t| - 1] == "0" + s[..|s| - 1];
      LeadingZero(s[..|s| - 1]);
    }
  }

  /** Every part is a valid `int(x)` argument. */
  predicate EveryPartParses(parts: seq<string>) {
    forall k :: 0 <= k < |parts| ==> ParseNat(parts[k]).Some?
  }

  /** `[int(x) for x in parts]`, or `None` when some part does not parse. */
  function ParseAll(parts: seq<string>): (r: Option<seq<nat>>)
    ensures r.Some? ==> |r.value| == |parts|
    ensures r.Some? <==> EveryPartParses(parts)
    ensures r.Some? ==> forall k :: 0 <= k < |parts| ==> r.value[k] == ParseNat(parts[k]).value
  {
    if parts == [] then Some([])
    else
      match (ParseNat(parts[0]), ParseAll(parts[1..]))
      case (Some(x), Some(xs)) => Some([x] + xs)
      case _ => None
  }

  /** The integer components of a dotted version string (line 64). */
  function ParseVersion(v: string): (r: Option<seq<nat>>)
    ensures r.Some? <==> EveryPartParses(Split(v, '.'))
    ensures r.Some? ==> |r.value| == |Split(v, '.')| >= 1
    ensures r.Some? ==> forall k :: 0 <= k < |r.value| ==> r.value[k] == ParseNat(Split(v, '.')[k]).value
  {
    ParseAll(Split(v, '.'))
  }

  /** Component `i` of a version, a missing trailing component counting
      as 0 (lines 68-69). */
  function Component(p: seq<nat>, i: nat): nat {
    if i < |p| then p[i] else 0
  }

  function Max(x: nat, y: nat): nat {
    if x < y then y else x
  }

  /** What the scan of lines 67-76 returns when started at index `i`. */
  function CompareFrom(a: seq<nat>, b: seq<nat>, i: nat): (r: int)
    ensures r == -1 || r == 0 || r == 1
    ensures r != 0 ==> i < Max(|a|, |b|)
    decreases Max(|a|, |b|) - i
  {
    if i >= Max(|a|, |b|) then 0
    else if Component(a, i) < Component(b, i) then -1
    else if Component(a, i) > Component(b, i) then 1
    else CompareFrom(a, b, i + 1)
  }

  /** The components below `k` agree. */
  predicate AgreeBelow(a: seq<nat>, b: seq<nat>, i: nat, k: nat) {
    forall j :: i <= j < k ==> Component(a, j) == Component(b, j)
  }

  /** The scan is the lexicographic order on zero-padded component lists:
      0 when every component agrees, otherwise the sign of the first
      disagreement. */
  lemma {:induction false} CompareFromMeaning(a: seq<nat>, b: seq<nat>, i: nat)
    ensures CompareFrom(a, b, i) == 0 <==> forall j :: i <= j ==> Component(a, j) == Component(b, j)
    ensures CompareFrom(a, b, i) == -1 <==>
      exists k :: i <= k && AgreeBelow(a, b, i, k) && Component(a, k) < Component(b, k)
    decreases Max(|a|, |b|) - i
  {
    if i >= Max(|a|, |b|) {
      assert forall j :: i <= j ==> Component(a, j) == 0 == Component(b, j);
    } else if Component(a, i) < Component(b, i) {
      assert AgreeBelow(a, b, i, i);
    } else if Component(a, i) > Component(b, i) {
      forall k | i < k
        ensures !AgreeBelow(a, b, i, k)
      {
        assert Component(a, i) != Component(b, i);
      }
    } else {
      CompareFromMeaning(a, b, i + 1);
      if CompareFrom(a, b, i + 1) == -1 {
        var k :| i + 1 <= k && AgreeBelow(a, b, i + 1, k) && Component(a, k) < Component(b, k);
        assert AgreeBelow(a, b, i, k);
      }
      forall k | i <= k && AgreeBelow(a, b, i, k) && Component(a, k) < Component(b, k)
        ensures CompareFrom(a, b, i + 1) == -1
      {
        assert k != i;
        assert AgreeBelow(a, b, i + 1, k);
      }
    }
  }

  /** `_compare_versions` on parsed components. */
  function CompareParts(a: seq<nat>, b: seq<nat>): (r: int)
    ensures r == 0 <==> forall j: nat :: Component(a, j) == Component(b, j)
    ensures r == -1 <==> exists k: nat :: AgreeBelow(a, b, 0, k) && Component(a, k) < Component(b, k)
    ensures r == 1 <==> exists k: nat :: AgreeBelow(a, b, 0, k) && Component(a, k) > Component(b, k)
  {
    CompareFromMeaning(a, b, 0);
    CompareFromMeaning(b, a, 0);
    CompareAntisymmetric(a, b, 0);
    CompareFrom(a, b, 0)
  }

  /** The loop of lines 67-76: scan the padded components and return at the
      first difference. */
  method CompareComponents(v1: seq<nat>, v2: seq<nat>) returns (r: int)
    ensures r == CompareParts(v1, v2)
    ensures r == -1 || r == 0 || r == 1
  {
    var n := Max(|v1|, |v2|);
    var i := 0;
    while i < n
      invariant 0 <= i <= n
      invariant CompareFrom(v1, v2, i) == CompareFrom(v1, v2, 0)
    {
      var x := if i < |v1| then v1[i] else 0;
      var y := if i < |v2| then v2[i] else 0;
      if x < y {
        return -1;
      } else if x > y {
        return 1;
      }
      i := i + 1;
    }
    return 0;
  }

  /** Every version is equal to itself. */
  lemma {:induction false} CompareReflexive(a: seq<nat>, i: nat)
    ensures CompareFrom(a, a, i) == 0
    decreases |a| - i
  {
    if i < |a| {
      CompareReflexive(a, i + 1);
    }
  }

  /** Swapping the arguments negates the result. */
  lemma {:induction false} CompareAntisymmetric(a: seq<nat>, b: seq<nat>, i: nat)
    ensures CompareFrom(a, b, i) == -CompareFrom(b, a, i)
    decreases Max(|a|, |b|) - i
  {
    if i < Max(|a|, |b|) && Component(a, i) == Component(b, i) {
      CompareAntisymmetric(a, b, i + 1);
    }
  }

  /** "At most" is transitive, and so is "less than". */
  lemma {:induction false} CompareTransitive(a: seq<nat>, b: seq<nat>, c: seq<nat>, i: nat)
    ensures CompareFrom(a, b, i) <= 0 && CompareFrom(b, c, i) <= 0 ==> CompareFrom(a, c, i) <= 0
    ensures CompareFrom(a, b, i) < 0 && CompareFrom(b, c, i) <= 0 ==> CompareFrom(a, c, i) < 0
    ensures CompareFrom(a, b, i) <= 0 && CompareFrom(b, c, i) < 0 ==> CompareFrom(a, c, i) < 0
    decreases Max(Max(|a|, |b|), |c|) - i
  {
    if i < Max(Max(|a|, |b|), |c|) {
      CompareTransitive(a, b, c, i + 1);
    }
  }

  /** Trailing zero components make no difference: "1.0" and "1.0.0" are
      the same version. */
  lemma TrailingZero(a: seq<nat>)
    ensures CompareParts(a + [0], a) == 0
  {
    forall j | 0 <= j
      ensures Component(a + [0], j) == Component(a, j)
    {
      if j < |a| {
        assert (a + [0])[j] == a[j];
      }
    }
    CompareFromMeaning(a + [0], a, 0);
  }

  /** `_compare_versions(version1, version2)`; `None` stands for the
      exception `int()` raises on a non-numeric component. */
  function Compare(version1: string, version2: string): (r: Option<int>)
    ensures r.Some? <==> ParseVersion(version1).Some? && ParseVersion(version2).Some?
    ensures r.Some? ==> r.value == -1 || r.value == 0 || r.value == 1
  {
    match (ParseVersion(version1), ParseVersion(version2))
    case (Some(a), Some(b)) => Some(CompareParts(a, b))
    case _ => None
  }

  /** Lines 62-76: parse both versions, then scan their components. */
  method CompareVersions(version1: string, version2: string) returns (r: Option<int>)
    ensures r == Compare(version1, version2)
  {
    var p1 := ParseAll(Split(version1, '.'));
    var p2 := ParseAll(Split(version2, '.'));
    if p1.None? || p2.None? {
      return None;
    }
    var c := CompareComponents(p1.value, p2.value);
    return Some(c);
  }

  lemma ParseSmall()
    ensures ParseNat("0") == Some(0) && ParseNat("1") == Some(1)
    ensures ParseNat("3") == Some(3) && ParseNat("01") == Some(1)
    ensures ParseNat("10") == Some(10)
  {
    assert "01"[..1] == "0";
    assert "10"[..1] == "1";
    assert "1"[..0] == [];
    assert "0"[..0] == [];
    assert "3"[..0] == [];
  }

  /** A version whose components parse one by one parses as a whole. */
  lemma ParsesAs(parts: seq<string>, nums: seq<nat>)
    requires |parts| >= 1
    requires forall k :: 0 <= k < |parts| ==> '.' !in parts[k]
    requires |parts| == |nums|
    requires forall k :: 0 <= k < |parts| ==> ParseNat(parts[k]) == Some(nums[k])
    ensures ParseVersion(Join(parts, '.')) == Some(nums)
  {
    SplitJoin(parts, '.');
    var r := ParseAll(parts);
    assert r.value == nums;
  }

  lemma Parse103()
    ensures ParseVersion("1.0.3") == Some([1, 0, 3])
  {
    ParseSmall();
    assert Join(["1", "0", "3"], '.') == "1.0.3";
    ParsesAs(["1", "0", "3"], [1, 0, 3]);
  }

  lemma Parse1010()
    ensures ParseVersion("1.0.10") == Some([1, 0, 10])
  {
    ParseSmall();
    assert Join(["1", "0", "10"], '.') == "1.0.10";
    ParsesAs(["1", "0", "10"], [1, 0, 10]);
  }

  lemma Parse100()
    ensures ParseVersion("1.0.0") == Some([1, 0, 0])
  {
    ParseSmall();
    assert Join(["1", "0", "0"], '.') == "1.0.0";
    ParsesAs(["1", "0", "0"], [1, 0, 0]);
  }

  lemma ParseOne()
    ensures ParseVersion("01") == Some([1])
    ensures ParseVersion("1") == Some([1])
  {
    ParseSmall();
    ParsesAs(["01"], [1]);
    ParsesAs(["1"], [1]);
  }

  /** Two versions that parse compare as their components. */
  lemma CompareParsed(v1: string, v2: string, a: seq<nat>, b: seq<nat>)
    requires ParseVersion(v1) == Some(a) && ParseVersion(v2) == Some(b)
    ensures Compare(v1, v2) == Some(CompareParts(a, b))
  {
  }

  /** Versions `1.0.x` and `1.0.y` are ordered by `x` and `y`. */
  lemma ThirdComponentDecides(x: nat, y: nat)
    requires x < y
    ensures CompareParts([1, 0, x], [1, 0, y]) == -1
    ensures CompareParts([1, 0, y], [1, 0, x]) == 1
  {
    var a, b := [1, 0, x], [1, 0, y];
    assert CompareFrom(a, b, 2) == -1;
    assert CompareFrom(a, b, 1) == -1;
    assert CompareFrom(b, a, 2) == 1;
    assert CompareFrom(b, a, 1) == 1;
  }

  /** Components compare as numbers, not as text: "1.0.3" is older than
      "1.0.10". */
  lemma NumericNotLexical()
    ensures Compare("1.0.3", "1.0.10") == Some(-1)
  {
    Parse103();
    Parse1010();
    CompareParsed("1.0.3", "1.0.10", [1, 0, 3], [1, 0, 10]);
    ThirdComponentDecides(3, 10);
  }

  /** A leading zero is ignored: "01" equals "1". */
  lemma LeadingZeroIgnored()
    ensures Compare("01", "1") == Some(0)
  {
    ParseOne();
    assert CompareParts([1], [1]) == 0;
  }

  // ---------------------------------------------------------------------
  // check_for_updates (lines 22-60)

  /** The fields of version.json the check reads; `None` is a missing key. */
  datatype Manifest = Manifest(
    version: Option<string>,
    minVersion: Option<string>,
    downloadUrl: Option<string>,
    required: Option<bool>,
    releaseNotes: Option<seq<string>>,
    hash: Option<string>)

  /** The dictionary `check_for_updates` returns. */
  datatype UpdateInfo =
      /** {available: True, required: True, version, message} */
    | Mandatory(version: string, message: string)
      /** {available: True, required, version, url, notes, hash} */
    | Newer(required: bool, version: string, url: string, notes: seq<string>, hash: Option<string>)
      /** {available: False} */
    | UpToDate
  {
    predicate Available() { !UpToDate? }
    predicate Required() { Mandatory? || (Newer? && required) }
  }

  const DefaultMinVersion: string := "1.0.0"
  const MandatoryMessage: string := "Uma atualização obrigatória está disponível."

  /** `version_info.get('min_version', '1.0.0')`. */
  function MinVersion(m: Manifest): string {
    m.minVersion.GetOr(DefaultMinVersion)
  }

  /** `check_for_updates` with the current version and the parsed
      version.json (`None` when the file is missing or unreadable) as
      inputs; `None` in the result is the method's own `None`, returned for
      a missing file and for every exception. */
  function CheckForUpdates(current: string, manifest: Option<Manifest>): (r: Option<UpdateInfo>)
    // the failure cases: no file, no version key, a non-numeric component on
    // a comparison that is reached, no download_url on the newer-version path
    ensures manifest.None? || manifest.value.version.None? ==> r.None?
    ensures r.Some? && r.value.Mandatory? <==>
      manifest.Some? && manifest.value.version.Some? &&
      Compare(current, MinVersion(manifest.value)) == Some(-1)
    ensures r.Some? && r.value.Mandatory? ==>
      r.value == Mandatory(manifest.value.version.value, MandatoryMessage)
    ensures r.Some? && r.value.Newer? ==>
      && Compare(current, MinVersion(manifest.value)) != Some(-1)
      && Compare(manifest.value.version.value, current) == Some(1)
      && manifest.value.downloadUrl.Some?
    ensures r.Some? && r.value.UpToDate? ==>
      && Compare(current, MinVersion(manifest.value)) != Some(-1)
      && Compare(manifest.value.version.value, current) in {Some(-1), Some(0)}
  {
    match manifest
    case None => None
    case Some(m) =>
      match m.version
      case None => None
      case Some(latest) =>
        match Compare(current, MinVersion(m))
        case None => None
        case Some(c) =>
          if c < 0 then Some(Mandatory(latest, MandatoryMessage))
          else
            match Compare(latest, current)
            case None => None
            case Some(d) =>
              if d > 0 then
                match m.downloadUrl
                case None => None
                case Some(url) =>
                  Some(Newer(m.required.GetOr(false), latest, url, m.releaseNotes.GetOr([]), m.hash))
              else Some(UpToDate)
  }

  /** A current version below min_version makes the update mandatory, with
      no url, whatever the latest version says, even when it does not parse
      or is older than the current one. */
  lemma MandatoryWhateverLatest(current: string, m: Manifest, latest: string)
    requires Compare(current, MinVersion(m)) == Some(-1)
    ensures CheckForUpdates(current, Some(m.(version := Some(latest)))) ==
      Some(Mandatory(latest, MandatoryMessage))
  {
  }

  /** A newer version that is not mandatory carries the manifest's url, its
      required flag (default false), its notes (default empty) and hash. */
  lemma NewerCarriesManifest(current: string, m: Manifest)
    requires m.version.Some? && m.downloadUrl.Some?
    requires Compare(current, MinVersion(m)) in {Some(0), Some(1)}
    requires Compare(m.version.value, current) == Some(1)
    ensures CheckForUpdates(current, Some(m)) == Some(Newer(
      m.required.GetOr(false), m.version.value, m.downloadUrl.value,
      m.releaseNotes.GetOr([]), m.hash))
  {
  }

  /** A supported current version and a latest version that is not newer
      give exactly `{available: False}`, an older latest version included. */
  lemma NotNewerIsUpToDate(current: string, m: Manifest)
    requires m.version.Some?
    requires Compare(current, MinVersion(m)) in {Some(0), Some(1)}
    requires Compare(m.version.value, current) in {Some(-1), Some(0)}
    ensures CheckForUpdates(current, Some(m)) == Some(UpToDate)
  {
  }

  /** The exceptions of lines 58-60 on the paths that are reached: a
      component that does not parse, or a newer version without
      `download_url`. */
  lemma FailuresGiveNone(current: string, m: Manifest)
    requires m.version.Some?
    ensures Compare(current, MinVersion(m)).None? ==> CheckForUpdates(current, Some(m)).None?
    ensures (Compare(current, MinVersion(m)) in {Some(0), Some(1)} && Compare(m.version.value, current).None?) ==>
      CheckForUpdates(current, Some(m)).None?
    ensures (Compare(current, MinVersion(m)) in {Some(0), Some(1)} && Compare(m.version.value, current) == Some(1) &&
      m.downloadUrl.None?) ==> CheckForUpdates(current, Some(m)).None?
  {
  }

  lemma CurrentAboveMinimum()
    ensures Compare("1.0.3", "1.0.0") == Some(1)
  {
    Parse103();
    Parse100();
    CompareParsed("1.0.3", "1.0.0", [1, 0, 3], [1, 0, 0]);
    ThirdComponentDecides(0, 3);
  }

  lemma LatestAboveCurrent()
    ensures Compare("1.0.10", "1.0.3") == Some(1)
  {
    Parse103();
    Parse1010();
    CompareParsed("1.0.10", "1.0.3", [1, 0, 10], [1, 0, 3]);
    ThirdComponentDecides(3, 10);
  }

  /** The example of a newer optional release: 1.0.10 over 1.0.3 with
      min_version 1.0.0 is available and not required. */
  lemma ScenarioOptionalUpdate(url: string)
    ensures var r := CheckForUpdates("1.0.3", Some(Manifest(Some("1.0.10"), Some("1.0.0"), Some(url), None, None, None)));
      r.Some? && r.value.Available() && !r.value.Required()
  {
    var m := Manifest(Some("1.0.10"), Some("1.0.0"), Some(url), None, None, None);
    CurrentAboveMinimum();
    LatestAboveCurrent();
    assert MinVersion(m) == "1.0.0";
    NewerCarriesManifest("1.0.3", m);
  }
}
