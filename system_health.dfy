/** Two parts of src/utils/system_info.py: the health evaluation of
    `get_system_health`, over the metrics and sensor readings it is given,
    and the MAC address text of `get_network_info`, built from the 48-bit
    node number of the network card. */
module SystemHealth {
  import opened Wrappers
  import opened Text

  // ---------------------------------------------------------------------
  // Health (get_system_health, lines 177-211)

  /** The percentages of `get_performance_metrics` the evaluation reads. */
  datatype Metrics = Metrics(cpuPercent: real, ramPercent: real, diskPercent: real)

  /** One group of `psutil.sensors_temperatures()`: its name and the
      current reading of each of its entries, in degrees Celsius. */
  datatype SensorGroup = SensorGroup(name: string, current: seq<real>)

  /** The `health_status` dict. */
  datatype Health = Health(status: string, issues: seq<string>)

  const Good := "Bom"
  const Attention := "Atenção"
  const CpuHigh := "CPU com uso muito alto"
  const RamHigh := "Memória RAM próxima do limite"
  const DiskHigh := "Disco próximo do limite"
  const TempPrefix := "Temperatura alta: "

  /** The message of line 206 for a sensor group. */
  function TempHigh(name: string): string {
    TempPrefix + name
  }

  /** Lines 186-198: each metric strictly above 90 adds its own message,
      in the order CPU, RAM, disk. */
  function MetricIssues(m: Metrics): (issues: seq<string>)
    ensures |issues| <= 3
    ensures issues == [] <==> m.cpuPercent <= 90.0 && m.ramPercent <= 90.0 && m.diskPercent <= 90.0
  {
    (if m.cpuPercent > 90.0 then [CpuHigh] else [])
    + (if m.ramPercent > 90.0 then [RamHigh] else [])
    + (if m.diskPercent > 90.0 then [DiskHigh] else [])
  }

  /** Lines 204-207: one message per entry of the group strictly above 80. */
  function GroupIssues(name: string, current: seq<real>): (issues: seq<string>)
    ensures |issues| <= |current|
    decreases |current|
  {
    if current == [] then []
    else
      GroupIssues(name, current[..|current| - 1])
      + (if current[|current| - 1] > 80.0 then [TempHigh(name)] else [])
  }

  /** Lines 203-207: the groups in order. */
  function TempIssues(groups: seq<SensorGroup>): (issues: seq<string>)
    ensures forall s | s in issues :: exists i :: 0 <= i < |groups| && s == TempHigh(groups[i].name)
    decreases |groups|
  {
    if groups == [] then []
    else
      var init := groups[..|groups| - 1];
      var last := groups[|groups| - 1];
      GroupIssuesNamed(last.name, last.current);
      assert forall i :: 0 <= i < |init| ==> init[i] == groups[i];
      TempIssues(init) + GroupIssues(last.name, last.current)
  }

  /** Every message of the evaluation, in order. `None`: reading the
      sensors raised (lines 208-209), which adds nothing. */
  function Issues(m: Metrics, temperatures: Option<seq<SensorGroup>>): (issues: seq<string>)
    ensures temperatures.None? ==> issues == MetricIssues(m)
    ensures forall s | s in issues :: s == CpuHigh || s == RamHigh || s == DiskHigh || IsPrefix(TempPrefix, s)
  {
    TempIssuesPrefixed(temperatures.GetOr([]));
    MetricIssues(m) + TempIssues(temperatures.GetOr([]))
  }

  /** No sensor entry is above 80. */
  predicate AllCool(groups: seq<SensorGroup>) {
    forall i, j :: 0 <= i < |groups| && 0 <= j < |groups[i].current| ==> groups[i].current[j] <= 80.0
  }

  /** Some entry of a group with this name is above 80. */
  predicate HotGroup(groups: seq<SensorGroup>, name: string) {
    exists i, j :: 0 <= i < |groups| && 0 <= j < |groups[i].current| && groups[i].name == name && groups[i].current[j] > 80.0
  }

  /** The status of lines 181-207 after the appends so far. */
  function StatusOf(issues: seq<string>): string {
    if issues == [] then Good else Attention
  }

  /** Lines 204-207 for one group: each entry above 80 appends the group's
      message and sets the status. */
  method CheckGroup(group: SensorGroup, issues0: seq<string>, status0: string) returns (issues: seq<string>, status: string)
    requires status0 == StatusOf(issues0)
    ensures issues == issues0 + GroupIssues(group.name, group.current)
    ensures status == StatusOf(issues)
  {
    issues, status := issues0, status0;
    var entries := group.current;
    for j := 0 to |entries|
      invariant issues == issues0 + GroupIssues(group.name, entries[..j])
      invariant status == StatusOf(issues)
    {
      assert entries[..j + 1][..j] == entries[..j];
      if entries[j] > 80.0 {
        issues := issues + [TempHigh(group.name)];
        status := Attention;
      }
    }
    assert entries[..|entries|] == entries;
  }

  /** Lines 203-207: the groups in order. */
  method CheckTemperatures(groups: seq<SensorGroup>, issues0: seq<string>, status0: string) returns (issues: seq<string>, status: string)
    requires status0 == StatusOf(issues0)
    ensures issues == issues0 + TempIssues(groups)
    ensures status == StatusOf(issues)
  {
    issues, status := issues0, status0;
    for i := 0 to |groups|
      invariant issues == issues0 + TempIssues(groups[..i])
      invariant status == StatusOf(issues)
    {
      assert groups[..i + 1][..i] == groups[..i];
      issues, status := CheckGroup(groups[i], issues, status);
    }
    assert groups[..|groups|] == groups;
  }

  /** `get_system_health`: the status starts as `Bom` and the issues empty;
      each rule that fires appends its message and sets the status to
      `Atenção`. */
  method GetSystemHealth(m: Metrics, temperatures: Option<seq<SensorGroup>>) returns (health: Health)
    ensures health.issues == Issues(m, temperatures)
    ensures health.status == (if health.issues == [] then Good else Attention)
  {
    var status := Good;
    var issues: seq<string> := [];
    if m.cpuPercent > 90.0 {
      issues := issues + [CpuHigh];
      status := Attention;
    }
    if m.ramPercent > 90.0 {
      issues := issues + [RamHigh];
      status := Attention;
    }
    if m.diskPercent > 90.0 {
      issues := issues + [DiskHigh];
      status := Attention;
    }
    assert issues == MetricIssues(m);
    if temperatures.Some? {
      issues, status := CheckTemperatures(temperatures.value, issues, status);
    } else {
      assert issues == Issues(m, temperatures);
    }
    health := Health(status, issues);
  }

  /** A group adds nothing exactly when none of its entries is above 80. */
  lemma {:induction false} GroupIssuesEmpty(name: string, current: seq<real>)
    ensures GroupIssues(name, current) == [] <==> forall j :: 0 <= j < |current| ==> current[j] <= 80.0
    decreases |current|
  {
    if current != [] {
      var init := current[..|current| - 1];
      GroupIssuesEmpty(name, init);
      assert forall j :: 0 <= j < |init| ==> init[j] == current[j];
    }
  }

  /** The sensors add nothing exactly when no entry is above 80. */
  lemma {:induction false} TempIssuesEmpty(groups: seq<SensorGroup>)
    ensures TempIssues(groups) == [] <==> AllCool(groups)
    decreases |groups|
  {
    if groups != [] {
      var init := groups[..|groups| - 1];
      var last := groups[|groups| - 1];
      TempIssuesEmpty(init);
      GroupIssuesEmpty(last.name, last.current);
      assert forall i :: 0 <= i < |init| ==> init[i] == groups[i];
    }
  }

  /** All clear exactly when every metric is at most 90 and, when the
      sensors could be read, every entry is at most 80. */
  lemma AllClear(m: Metrics, temperatures: Option<seq<SensorGroup>>)
    ensures Issues(m, temperatures) == [] <==>
      m.cpuPercent <= 90.0 && m.ramPercent <= 90.0 && m.diskPercent <= 90.0
      && (temperatures.Some? ==> AllCool(temperatures.value))
  {
    TempIssuesEmpty(temperatures.GetOr([]));
  }

  /** Every message of a group names it. */
  lemma {:induction false} GroupIssuesNamed(name: string, current: seq<real>)
    ensures forall s | s in GroupIssues(name, current) :: s == TempHigh(name)
    ensures |GroupIssues(name, current)| <= |current|
    decreases |current|
  {
    if current != [] {
      GroupIssuesNamed(name, current[..|current| - 1]);
    }
  }

  /** A group whose entry `j` is above 80 has its message among those it
      adds. */
  lemma {:induction false} GroupIssuesHot(name: string, current: seq<real>, j: int)
    requires 0 <= j < |current| && current[j] > 80.0
    ensures TempHigh(name) in GroupIssues(name, current)
    decreases |current|
  {
    if j < |current| - 1 {
      var init := current[..|current| - 1];
      assert init[j] == current[j];
      GroupIssuesHot(name, init, j);
    }
  }

  /** Every temperature message starts with the prefix of line 206. */
  lemma {:induction false} TempIssuesPrefixed(groups: seq<SensorGroup>)
    ensures forall s | s in TempIssues(groups) :: IsPrefix(TempPrefix, s)
    decreases |groups|
  {
    if groups != [] {
      var last := groups[|groups| - 1];
      TempIssuesPrefixed(groups[..|groups| - 1]);
      GroupIssuesNamed(last.name, last.current);
      forall s | s in GroupIssues(last.name, last.current) ensures IsPrefix(TempPrefix, s) {
        assert s[..|TempPrefix|] == TempPrefix;
      }
    }
  }

  /** The name in a temperature message is the group's. */
  lemma TempHighInjective(a: string, b: string)
    requires TempHigh(a) == TempHigh(b)
    ensures a == b
  {
    assert a == TempHigh(a)[|TempPrefix|..];
    assert b == TempHigh(b)[|TempPrefix|..];
  }

  /** A group's message is present exactly when some group of that name
      has an entry above 80. */
  lemma {:induction false} TempMessageIff(groups: seq<SensorGroup>, name: string)
    ensures TempHigh(name) in TempIssues(groups) <==> HotGroup(groups, name)
    decreases |groups|
  {
    if groups != [] {
      var init := groups[..|groups| - 1];
      var last := groups[|groups| - 1];
      TempMessageIff(init, name);
      GroupIssuesNamed(last.name, last.current);
      if TempHigh(name) in GroupIssues(last.name, last.current) {
        TempHighInjective(name, last.name);
        GroupIssuesEmpty(last.name, last.current);
        var j :| 0 <= j < |last.current| && last.current[j] > 80.0;
        assert groups[|groups| - 1] == last;
      }
      if HotGroup(groups, name) {
        var i, j :| 0 <= i < |groups| && 0 <= j < |groups[i].current| && groups[i].name == name && groups[i].current[j] > 80.0;
        if i == |groups| - 1 {
          GroupIssuesHot(last.name, last.current, j);
        } else {
          assert init[i] == groups[i];
        }
      }
      if HotGroup(init, name) {
        var i, j :| 0 <= i < |init| && 0 <= j < |init[i].current| && init[i].name == name && init[i].current[j] > 80.0;
        assert groups[i] == init[i];
      }
    }
  }

  lemma NotTempMessage(s: string, groups: seq<SensorGroup>)
    requires |s| > 0 && s[0] != 'T'
    ensures s !in TempIssues(groups)
  {
    TempIssuesPrefixed(groups);
  }

  /** Each metric's message is present exactly when the metric is strictly
      above 90: a value of exactly 90 adds nothing. */
  lemma MetricMessages(m: Metrics, temperatures: Option<seq<SensorGroup>>)
    ensures CpuHigh in Issues(m, temperatures) <==> m.cpuPercent > 90.0
    ensures RamHigh in Issues(m, temperatures) <==> m.ramPercent > 90.0
    ensures DiskHigh in Issues(m, temperatures) <==> m.diskPercent > 90.0
  {
    var groups := temperatures.GetOr([]);
    NotTempMessage(CpuHigh, groups);
    NotTempMessage(RamHigh, groups);
    NotTempMessage(DiskHigh, groups);
  }

  /** A group's message is present exactly when the sensors were read and
      some group of that name has an entry strictly above 80. */
  lemma TemperatureMessages(m: Metrics, temperatures: Option<seq<SensorGroup>>, name: string)
    ensures TempHigh(name) in Issues(m, temperatures) <==> temperatures.Some? && HotGroup(temperatures.value, name)
  {
    var groups := temperatures.GetOr([]);
    TempMessageIff(groups, name);
    assert TempHigh(name)[0] == 'T';
    assert TempHigh(name) !in MetricIssues(m);
  }

  /** With every metric high, the three messages lead, in order. */
  lemma MetricOrder(m: Metrics, temperatures: Option<seq<SensorGroup>>)
    requires m.cpuPercent > 90.0 && m.ramPercent > 90.0 && m.diskPercent > 90.0
    ensures Issues(m, temperatures)[..3] == [CpuHigh, RamHigh, DiskHigh]
  {
  }

  /** The number of entries strictly above 80. */
  function HotCount(current: seq<real>): (n: nat)
    ensures n <= |current|
    decreases |current|
  {
    if current == [] then 0
    else HotCount(current[..|current| - 1]) + (if current[|current| - 1] > 80.0 then 1 else 0)
  }

  /** A group repeats its message once per entry above 80, whatever its
      other entries read. */
  lemma {:induction false} HotGroupRepeats(name: string, current: seq<real>)
    ensures GroupIssues(name, current) == seq(HotCount(current), _ => TempHigh(name))
    decreases |current|
  {
    if current != [] {
      var init := current[..|current| - 1];
      HotGroupRepeats(name, init);
      var n := HotCount(init);
      if current[|current| - 1] > 80.0 {
        assert seq(n, _ => TempHigh(name)) + [TempHigh(name)] == seq(n + 1, _ => TempHigh(name));
      }
    }
  }

  // ---------------------------------------------------------------------
  // MAC address (get_network_info, lines 118-119 and 141)

  /** The largest node number: `uuid.getnode()` is a 48-bit number. */
  const NodeLimit: nat := 0x1_0000_0000_0000

  function Pow2(n: nat): (r: nat)
    ensures r >= 1
  {
    if n == 0 then 1 else 2 * Pow2(n - 1)
  }

  /** A lower-case hexadecimal digit. */
  function HexDigit(d: nat): char
    requires d < 16
  {
    if d < 10 then ('0' as int + d) as char else ('a' as int + d - 10) as char
  }

  /** `'{:02x}'.format(b)`. */
  function Hex2(b: nat): (s: string)
    requires b < 256
    ensures |s| == 2
  {
    [HexDigit(b / 16), HexDigit(b % 16)]
  }

  predicate Bytes(groups: seq<nat>) {
    forall k :: 0 <= k < |groups| ==> groups[k] < 256
  }

  /** The groups joined by `:`, then upper-cased (line 141). */
  function MacText(groups: seq<nat>): string
    requires |groups| >= 1 && Bytes(groups)
  {
    Upper(Join(seq(|groups|, k requires 0 <= k < |groups| => Hex2(groups[k])), ':'))
  }

  /** The six groups for shifts `step * i`, i = 0..5, listed from the
      largest shift (the `[::-1]` of line 119): group k is the byte of
      `node >> (step * (5 - k))`. */
  function ShiftGroups(node: nat, step: nat): (groups: seq<nat>)
    ensures |groups| == 6 && Bytes(groups)
  {
    seq(6, k requires 0 <= k < 6 => (node / Pow2(step * (5 - k))) % 256)
  }

  /** Lines 118-119 as written: `range(0, 2*6, 2)` shifts by 0, 2, .., 10
      bits, so neighbouring groups overlap and the upper 30 bits of the
      node never appear. */
  function MacAsWritten(node: nat): (text: string)
    ensures MacLike(text)
  {
    MacShape(node, 2);
    MacText(ShiftGroups(node, 2))
  }

  /** The evident intent: one group per byte, shifts 0, 8, .., 40. */
  function Mac(node: nat): (text: string)
    ensures MacLike(text)
  {
    MacShape(node, 8);
    MacText(ShiftGroups(node, 8))
  }

  /** An upper-case hexadecimal digit. */
  predicate UpperHex(c: char) {
    '0' <= c <= '9' || 'A' <= c <= 'F'
  }

  /** The shape line 141 gives: six groups of two upper-case hexadecimal
      digits separated by colons. */
  predicate MacLike(text: string) {
    && |text| == 17
    && (forall i :: 0 <= i < 17 && i % 3 == 2 ==> text[i] == ':')
    && (forall i :: 0 <= i < 17 && i % 3 != 2 ==> UpperHex(text[i]))
  }

  /** The value of a hexadecimal digit in either case. */
  function HexValue(c: char): Option<nat> {
    if '0' <= c <= '9' then Some(c as int - '0' as int)
    else if 'A' <= c <= 'F' then Some(c as int - 'A' as int + 10)
    else if 'a' <= c <= 'f' then Some(c as int - 'a' as int + 10)
    else None
  }

  /** Two hexadecimal digits. */
  function HexPair(s: string): Option<nat>
    requires |s| == 2
  {
    match (HexValue(s[0]), HexValue(s[1]))
    case (Some(hi), Some(lo)) => Some(hi * 16 + lo)
    case _ => None
  }

  /** Reading `XX:XX:..:XX` back into its groups. */
  function ParseGroups(s: string): Option<seq<nat>>
    decreases |s|
  {
    if |s| == 2 then
      match HexPair(s)
      case Some(v) => Some([v])
      case None => None
    else if |s| >= 5 && s[2] == ':' then
      match (HexPair(s[..2]), ParseGroups(s[3..]))
      case (Some(v), Some(rest)) => Some([v] + rest)
      case _ => None
    else None
  }

  /** The big-endian number of base-256 groups. */
  function ValueOf(groups: seq<nat>): nat
    decreases |groups|
  {
    if groups == [] then 0 else ValueOf(groups[..|groups| - 1]) * 256 + groups[|groups| - 1]
  }

  /** The node number a MAC text stands for. */
  function ParseMac(s: string): Option<nat> {
    match ParseGroups(s)
    case Some(groups) => if |groups| == 6 then Some(ValueOf(groups)) else None
    case None => None
  }

  lemma HexDigitRoundTrip(d: nat)
    requires d < 16
    ensures HexValue(UpperChar(HexDigit(d))) == Some(d)
  {
  }

  lemma Hex2RoundTrip(b: nat)
    requires b < 256
    ensures HexPair(Upper(Hex2(b))) == Some(b)
  {
    HexDigitRoundTrip(b / 16);
    HexDigitRoundTrip(b % 16);
  }

  lemma UpperAppend(a: string, b: string)
    ensures Upper(a + b) == Upper(a) + Upper(b)
  {
    assert forall i :: 0 <= i < |a + b| ==> Upper(a + b)[i] == (Upper(a) + Upper(b))[i];
  }

  /** One group more on the left. */
  lemma MacTextCons(groups: seq<nat>)
    requires |groups| >= 2 && Bytes(groups)
    ensures MacText(groups) == Upper(Hex2(groups[0])) + [':'] + MacText(groups[1..])
  {
    var parts := seq(|groups|, k requires 0 <= k < |groups| => Hex2(groups[k]));
    var rest := groups[1..];
    assert parts[1..] == seq(|rest|, k requires 0 <= k < |rest| => Hex2(rest[k]));
    UpperAppend(Hex2(groups[0]) + [':'], Join(parts[1..], ':'));
    UpperAppend(Hex2(groups[0]), [':']);
  }

  /** The MAC text has three characters per group less the last colon. */
  lemma {:induction false} MacTextLength(groups: seq<nat>)
    requires |groups| >= 1 && Bytes(groups)
    ensures |MacText(groups)| == 3 * |groups| - 1
    decreases |groups|
  {
    if |groups| >= 2 {
      MacTextCons(groups);
      MacTextLength(groups[1..]);
    }
  }

  /** Reading the text gives the groups back. */
  lemma {:induction false} ParseMacText(groups: seq<nat>)
    requires |groups| >= 1 && Bytes(groups)
    ensures ParseGroups(MacText(groups)) == Some(groups)
    decreases |groups|
  {
    Hex2RoundTrip(groups[0]);
    if |groups| == 1 {
      assert MacText(groups) == Upper(Hex2(groups[0]));
      assert groups == [groups[0]];
    } else {
      var s := MacText(groups);
      MacTextCons(groups);
      MacTextLength(groups[1..]);
      ParseMacText(groups[1..]);
      assert s[2] == ':';
      assert groups == [groups[0]] + groups[1..];
      assert s[..2] == Upper(Hex2(groups[0]));
      assert s[3..] == MacText(groups[1..]);
    }
  }

  /** The text of any node is 17 characters: six groups of two upper-case
      hexadecimal digits and five colons. */
  lemma MacShape(node: nat, step: nat)
    ensures |MacText(ShiftGroups(node, step))| == 17
    ensures forall k :: 0 <= k < 5 ==> MacText(ShiftGroups(node, step))[3 * k + 2] == ':'
    ensures forall i :: 0 <= i < 17 && i % 3 != 2 ==> UpperHex(MacText(ShiftGroups(node, step))[i])
    ensures MacLike(MacText(ShiftGroups(node, step)))
    ensures ParseGroups(MacText(ShiftGroups(node, step))) == Some(ShiftGroups(node, step))
  {
    var g := ShiftGroups(node, step);
    var text := MacText(g);
    MacTextLength(g);
    ParseMacText(g);
    MacTextDigits(g);
    forall k | 0 <= k < 5 ensures text[3 * k + 2] == ':' {
      ColonAt(g, k);
    }
    forall i | 0 <= i < 17 && i % 3 == 2 ensures text[i] == ':' {
      assert text[3 * (i / 3) + 2] == ':';
    }
  }

  lemma UpperHexDigit(d: nat)
    requires d < 16
    ensures UpperHex(UpperChar(HexDigit(d)))
  {
  }

  /** Every character of the text off the colon positions is an upper-case
      hexadecimal digit. */
  lemma {:induction false} MacTextDigits(groups: seq<nat>)
    requires |groups| >= 1 && Bytes(groups)
    ensures forall i :: 0 <= i < |MacText(groups)| && i % 3 != 2 ==> UpperHex(MacText(groups)[i])
    decreases |groups|
  {
    var s := MacText(groups);
    UpperHexDigit(groups[0] / 16);
    UpperHexDigit(groups[0] % 16);
    MacTextLength(groups);
    if |groups| == 1 {
      assert s == Upper(Hex2(groups[0]));
    } else {
      MacTextCons(groups);
      MacTextDigits(groups[1..]);
      var t := MacText(groups[1..]);
      forall i | 0 <= i < |s| && i % 3 != 2 ensures UpperHex(s[i]) {
        if i >= 3 {
          assert s[i] == t[i - 3];
        }
      }
    }
  }

  lemma {:induction false} ColonAt(groups: seq<nat>, k: nat)
    requires |groups| >= 1 && Bytes(groups) && k < |groups| - 1
    ensures |MacText(groups)| == 3 * |groups| - 1
    ensures MacText(groups)[3 * k + 2] == ':'
    decreases k
  {
    MacTextCons(groups);
    MacTextLength(groups);
    MacTextLength(groups[1..]);
    if k > 0 {
      ColonAt(groups[1..], k - 1);
    }
  }

  /** Lines 118-119 as written: group k (from the left) is the byte of
      `node >> (10 - 2k)`, and the text has the shape of a MAC address. */
  lemma MacAsWrittenGroups(node: nat)
    ensures |MacAsWritten(node)| == 17
    ensures ParseGroups(MacAsWritten(node)) == Some(seq(6, k requires 0 <= k < 6 => (node / Pow2(10 - 2 * k)) % 256))
  {
    MacShape(node, 2);
    assert ShiftGroups(node, 2) == seq(6, k requires 0 <= k < 6 => (node / Pow2(10 - 2 * k)) % 256);
  }

  lemma Pow2Table()
    ensures Pow2(0) == 1 && Pow2(2) == 4 && Pow2(4) == 16 && Pow2(6) == 64
    ensures Pow2(8) == 256 && Pow2(10) == 1024 && Pow2(16) == 65536
    ensures Pow2(18) == 262144 && Pow2(24) == 16777216 && Pow2(32) == 4294967296
    ensures Pow2(40) == 1099511627776
  {
    Pow2Mul(8, 8);
    Pow2Mul(16, 2);
    Pow2Mul(16, 8);
    Pow2Mul(16, 16);
    Pow2Mul(32, 8);
  }

  /** As written, the node 2^18 has the same six groups as the node 0. */
  lemma HighNodeGroups()
    ensures ShiftGroups(0, 2) == [0, 0, 0, 0, 0, 0]
    ensures ShiftGroups(262144, 2) == [0, 0, 0, 0, 0, 0]
  {
    Pow2Table();
    var a := ShiftGroups(262144, 2);
    assert a[0] == 262144 / 1024 % 256 == 0;
    assert a[1] == 262144 / 256 % 256 == 0;
    assert a[2] == 262144 / 64 % 256 == 0;
    assert a[3] == 262144 / 16 % 256 == 0;
    assert a[4] == 262144 / 4 % 256 == 0;
    assert a[5] == 262144 / 1 % 256 == 0;
  }

  /** As written, the node 256 spreads over four groups. */
  lemma Node256GroupsAsWritten()
    ensures ShiftGroups(256, 2) == [0, 1, 4, 16, 64, 0]
  {
    Pow2Table();
    var b := ShiftGroups(256, 2);
    assert b[0] == 256 / 1024 % 256 == 0;
    assert b[1] == 256 / 256 % 256 == 1;
    assert b[2] == 256 / 64 % 256 == 4;
    assert b[3] == 256 / 16 % 256 == 16;
    assert b[4] == 256 / 4 % 256 == 64;
    assert b[5] == 256 / 1 % 256 == 0;
  }

  /** Corrected, the node 256 is the byte 1 in the fifth group. */
  lemma Node256Groups()
    ensures ShiftGroups(256, 8) == [0, 0, 0, 0, 1, 0]
  {
    Pow2Table();
    var c := ShiftGroups(256, 8);
    assert c[0] == 256 / 1099511627776 % 256 == 0;
    assert c[1] == 256 / 4294967296 % 256 == 0;
    assert c[2] == 256 / 16777216 % 256 == 0;
    assert c[3] == 256 / 65536 % 256 == 0;
    assert c[4] == 256 / 256 % 256 == 1;
    assert c[5] == 256 / 1 % 256 == 0;
  }

  /** As written, different nodes share a MAC text: the node with only bit
      18 set prints like the node 0. */
  lemma MacAsWrittenCollides()
    ensures MacAsWritten(0) == MacAsWritten(Pow2(18))
  {
    Pow2Table();
    HighNodeGroups();
  }

  /** As written, the node 256 gives `00:01:04:10:40:00`, which reads back
      as a different node; the corrected text `00:00:00:00:01:00` reads
      back as 256. */
  lemma MacExample()
    ensures ParseGroups(MacAsWritten(256)) == Some([0, 1, 4, 16, 64, 0])
    ensures ParseMac(MacAsWritten(256)) != Some(256)
    ensures ParseGroups(Mac(256)) == Some([0, 0, 0, 0, 1, 0])
  {
    Node256GroupsAsWritten();
    Node256Groups();
    MacShape(256, 2);
    MacShape(256, 8);
    AsWrittenValue();
  }

  lemma AsWrittenValue()
    ensures ValueOf([0, 1, 4, 16, 64, 0]) != 256
  {
    ValueOfSnoc([], 0);
    ValueOfSnoc([0], 1);
    ValueOfSnoc([0, 1], 4);
    ValueOfSnoc([0, 1, 4], 16);
    ValueOfSnoc([0, 1, 4, 16], 64);
    ValueOfSnoc([0, 1, 4, 16, 64], 0);
  }

  lemma ValueOfSnoc(groups: seq<nat>, b: nat)
    ensures ValueOf(groups + [b]) == ValueOf(groups) * 256 + b
  {
    assert (groups + [b])[..|groups|] == groups;
  }

  // Arithmetic for the round trip of the corrected text.

  lemma Pow2Mul(a: nat, b: nat)
    ensures Pow2(a + b) == Pow2(a) * Pow2(b)
    decreases a
  {
    if a > 0 {
      Pow2Mul(a - 1, b);
    }
  }

  lemma DivModUnique(x: int, d: int, q: int, r: int)
    requires d > 0 && 0 <= r < d && x == d * q + r
    ensures x / d == q && x % d == r
  {
    var q0 := x / d;
    var r0 := x % d;
    assert d * q0 + r0 == x;
    assert d * (q - q0) == r0 - r;
    if q > q0 {
      MulAtLeast(d, q - q0);
    } else if q < q0 {
      MulAtLeast(d, q0 - q);
    }
  }

  lemma MulAtLeast(d: int, n: int)
    requires d > 0 && n >= 1
    ensures d * n >= d
  {
  }

  lemma DivDiv(x: nat, a: nat, b: nat)
    requires a > 0 && b > 0
    ensures x / a / b == x / (a * b)
  {
    var q := x / a / b;
    var r := (x / a % b) * a + x % a;
    assert x / a == b * q + x / a % b;
    assert x == a * (x / a) + x % a;
    assert x == (a * b) * q + r by {
      assert a * (b * q + x / a % b) == (a * b) * q + (x / a % b) * a;
    }
    assert (x / a % b) * a <= (b - 1) * a by {
      MulLeq(x / a % b, b - 1, a);
    }
    DivModUnique(x, a * b, q, r);
  }

  lemma MulLeq(m: nat, n: nat, a: nat)
    requires m <= n
    ensures m * a <= n * a
  {
  }

  /** Dropping the last byte: the groups of `node / 256` for one byte fewer. */
  function Bytes6(node: nat, n: nat): seq<nat>
  {
    seq(n, k requires 0 <= k < n => (node / Pow2(8 * (n - 1 - k))) % 256)
  }

  lemma BytesInit(node: nat, n: nat)
    requires n >= 1
    ensures Bytes6(node, n)[..n - 1] == Bytes6(node / 256, n - 1)
    ensures Bytes6(node, n)[n - 1] == node % 256
  {
    forall k | 0 <= k < n - 1
      ensures Bytes6(node, n)[k] == Bytes6(node / 256, n - 1)[k]
    {
      Pow2Mul(8, 8 * (n - 2 - k));
      assert Pow2(8) == 256;
      assert 8 * (n - 1 - k) == 8 + 8 * (n - 2 - k);
      DivDiv(node, 256, Pow2(8 * (n - 2 - k)));
    }
    assert Pow2(8 * (n - 1 - (n - 1))) == 1;
  }

  /** The remainder modulo `256 * m` from the remainder of the quotient
      and the last byte. */
  lemma SplitByte(node: nat, m: nat)
    requires m >= 1
    ensures (node / 256 % m) * 256 + node % 256 == node % (256 * m)
  {
    var q := node / 256 / m;
    var r := (node / 256 % m) * 256 + node % 256;
    assert node / 256 == m * q + node / 256 % m;
    assert node == 256 * (node / 256) + node % 256;
    assert node == (256 * m) * q + r by {
      assert 256 * (m * q + node / 256 % m) == (256 * m) * q + (node / 256 % m) * 256;
    }
    assert (node / 256 % m) * 256 <= (m - 1) * 256 by {
      MulLeq(node / 256 % m, m - 1, 256);
    }
    DivModUnique(node, 256 * m, q, r);
  }

  /** The bytes of a node read back as the node, modulo the width. */
  lemma {:induction false} BytesValue(node: nat, n: nat)
    ensures ValueOf(Bytes6(node, n)) == node % Pow2(8 * n)
    decreases n
  {
    if n == 0 {
      assert Bytes6(node, 0) == [];
    } else {
      var b := Bytes6(node, n);
      BytesInit(node, n);
      BytesValue(node / 256, n - 1);
      assert ValueOf(b) == ValueOf(Bytes6(node / 256, n - 1)) * 256 + node % 256;
      var m := Pow2(8 * (n - 1));
      Pow2Mul(8, 8 * (n - 1));
      assert Pow2(8) == 256;
      assert 8 * n == 8 + 8 * (n - 1);
      SplitByte(node, m);
    }
  }

  /** The corrected text reads back as the node it was made from, so
      different 48-bit nodes have different texts. */
  lemma MacRoundTrip(node: nat)
    requires node < NodeLimit
    ensures MacLike(Mac(node))
    ensures ParseMac(Mac(node)) == Some(node)
  {
    MacShape(node, 8);
    assert ShiftGroups(node, 8) == Bytes6(node, 6);
    BytesValue(node, 6);
    Pow2Width();
    DivModUnique(node, NodeLimit, 0, node);
  }

  lemma Pow2Width()
    ensures Pow2(48) == NodeLimit
  {
    Pow2Table();
    Pow2Mul(16, 32);
  }
}
