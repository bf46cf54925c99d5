/** The network analyser (`extract_network_files`): a walk over the
    filesystem that keeps the non-directory files whose path looks
    network-related, and labels each with the first of ten ordered anomaly
    rules that matches its lower-cased path, size and timestamps. */
module NetworkAnalyser {
  import opened Base
  import opened Text
  import opened Timestamps
  import opened FsTree

  /** Path fragments of browser, mail, event-log and network-configuration
      stores; they are compared lower-cased. */
  const NetworkKeywords: seq<string> := [
    "/AppData/Local/Google/Chrome/User Data",
    "/AppData/Local/Mozilla/Firefox/Profiles",
    "/AppData/Local/Microsoft/Windows/INetCache",
    "/Windows/System32/winevt/Logs/Microsoft-Windows-NetworkProfile",
    "/Windows/System32/drivers/etc/hosts",
    "/Windows/System32/LogFiles/W3SVC",
    "/Windows/System32/netstat",
    "/Windows/System32/drivers/tcpip",
    "/Windows/System32/LogFiles/Firewall",
    "/inetpub/logs",
    "/AppData/Local/Microsoft/Outlook"]

  const NetworkExtensions: seq<string> := [
    ".pcap", ".pcapng", ".evt", ".evtx", ".log",
    ".sqlite", ".db", ".dat", ".etl", ".pf",
    ".hosts", ".dnscache", ".history", ".eml"]

  const SuspiciousPorts: seq<string> := ["4444", "31337", "1337", "666", "6666", "8080"]

  const NetworkTools: seq<string> := ["netcat", "wireshark", "tcpdump"]

  /** Browser data above this many bytes is unusual. */
  const LargeBrowserData: int := 500000000

  /** A firewall log below this many bytes is suspicious. */
  const SmallFirewallLog: int := 1024

  // ---------------------------------------------------------------------
  // is_network_related

  /** `is_network_related(path)`: a lower-cased keyword occurs in the
      lower-cased path, or the lower-cased path ends with one of the
      extensions. */
  predicate IsNetworkRelated(path: string) {
    var lp := ToLower(path);
    || (exists k :: 0 <= k < |NetworkKeywords| && Contains(lp, ToLower(NetworkKeywords[k])))
    || EndsWithAny(lp, NetworkExtensions)
  }

  /** The filter ignores letter case: a path and its lower-cased form are
      judged alike. */
  lemma NetworkRelatedIgnoresCase(path: string)
    ensures IsNetworkRelated(ToLower(path)) == IsNetworkRelated(path)
  {
    ToLowerIdempotent(path);
  }

  /** Any path, in any letter case, that ends with ".pcap" is kept. */
  lemma CaptureFilesAreNetworkRelated(path: string)
    requires IsSuffix(".pcap", ToLower(path))
    ensures IsNetworkRelated(path)
  {
    assert IsSuffix(NetworkExtensions[0], ToLower(path));
  }

  // ---------------------------------------------------------------------
  // detect_anomalies

  /** The three timestamps of a record as `strptime` reads them, in seconds
      from the epoch. */
  datatype Times = Times(created: int, modified: int, accessed: int)

  /** Reads the three timestamp strings; `None` when any of them is not a
      valid `YYYY-MM-DD HH:MM:SS` date and time ("N/A" included). */
  function ParseTimes(created: string, modified: string, accessed: string): Option<Times> {
    match (ParseDateTime(created), ParseDateTime(modified), ParseDateTime(accessed))
    case (Some(c), Some(m), Some(a)) => Some(Times(ToEpoch(c), ToEpoch(m), ToEpoch(a)))
    case _ => None
  }

  /** A hidden file or directory: "/." occurs in the path or its last
      segment starts with ".". */
  predicate Hidden(lp: string) {
    Contains(lp, "/.") || IsPrefix(".", LastSegment(lp))
  }

  predicate MisplacedExecutable(lp: string) {
    Contains(lp, ".exe") && !Contains(lp, "/windows/system32")
  }

  predicate SystemFileInTemp(lp: string) {
    Contains(lp, "system32") && Contains(lp, "/temp/")
  }

  predicate LargeBrowserFile(lp: string, size: int) {
    Contains(lp, "chrome") && size > LargeBrowserData
  }

  predicate SmallFirewallFile(lp: string, size: int) {
    Contains(lp, "firewall") && size < SmallFirewallLog
  }

  predicate ModifiedHosts(lp: string, t: Times) {
    Contains(lp, "hosts") && t.modified > t.accessed
  }

  predicate ToolOnDesktop(lp: string) {
    ContainsAny(lp, NetworkTools) && Contains(lp, "/desktop/")
  }

  /** `detect_anomalies(file_data)` with the clock reading `now` (seconds on
      the same scale as the parsed timestamps): the timestamps are parsed
      first, and a failure gives no reason whatever the path; then the
      rules are tried in order and the first that holds gives the reason. */
  function NetworkAnomaly(path: string, size: int, created: string, modified: string, accessed: string, now: int): Option<string> {
    var lp := ToLower(path);
    match ParseTimes(created, modified, accessed)
    case None => None
    case Some(t) =>
      if Hidden(lp) then Some("Hidden file/directory")
      else if MisplacedExecutable(lp) then Some("Executable in non-standard location")
      else if t.created > now then Some("Future creation timestamp")
      else if t.modified < t.created then Some("Modified before creation")
      else if SystemFileInTemp(lp) then Some("System file in temporary location")
      else if LargeBrowserFile(lp, size) then Some("Unusually large browser data")
      else if SmallFirewallFile(lp, size) then Some("Suspiciously small firewall log")
      else if ContainsAny(lp, SuspiciousPorts) then Some("Reference to suspicious port")
      else if ModifiedHosts(lp, t) then Some("Modified hosts file")
      else if ToolOnDesktop(lp) then Some("Network tool in user space")
      else None
  }

  /** The rule table: the reasons in the order the rules are tried. */
  const Reasons: seq<string> := [
    "Hidden file/directory",
    "Executable in non-standard location",
    "Future creation timestamp",
    "Modified before creation",
    "System file in temporary location",
    "Unusually large browser data",
    "Suspiciously small firewall log",
    "Reference to suspicious port",
    "Modified hosts file",
    "Network tool in user space"]

  /** Whether the `k`-th rule of the table holds. */
  predicate RuleHolds(k: nat, lp: string, size: int, t: Times, now: int)
    requires k < |Reasons|
  {
    match k
    case 0 => Hidden(lp)
    case 1 => MisplacedExecutable(lp)
    case 2 => t.created > now
    case 3 => t.modified < t.created
    case 4 => SystemFileInTemp(lp)
    case 5 => LargeBrowserFile(lp, size)
    case 6 => SmallFirewallFile(lp, size)
    case 7 => ContainsAny(lp, SuspiciousPorts)
    case 8 => ModifiedHosts(lp, t)
    case _ => ToolOnDesktop(lp)
  }

  /** The first rule from the `k`-th on that holds, or `|Reasons|` when
      none does. */
  function FirstRule(lp: string, size: int, t: Times, now: int, k: nat): (m: nat)
    requires k <= |Reasons|
    ensures k <= m <= |Reasons|
    ensures forall j :: k <= j < m ==> !RuleHolds(j, lp, size, t, now)
    ensures m < |Reasons| ==> RuleHolds(m, lp, size, t, now)
    decreases |Reasons| - k
  {
    if k == |Reasons| || RuleHolds(k, lp, size, t, now) then k
    else FirstRule(lp, size, t, now, k + 1)
  }

  /** The table reading of the rules: the reason of the first rule that
      holds, if any. */
  function FirstReason(lp: string, size: int, t: Times, now: int): Option<string> {
    var m := FirstRule(lp, size, t, now, 0);
    if m < |Reasons| then Some(Reasons[m]) else None
  }

  lemma ReasonsDistinct()
    ensures forall i, j :: 0 <= i < j < |Reasons| ==> Reasons[i] != Reasons[j]
  {
    forall i, j | 0 <= i < j < |Reasons| ensures Reasons[i] != Reasons[j] {
      if |Reasons[i]| == |Reasons[j]| {
        assert Reasons[i][1] != Reasons[j][1];
      }
    }
  }

  /** The if-chain is the rule table read first-match-wins: no reason when
      a timestamp does not parse, and otherwise the reason of the first
      rule that holds. */
  lemma {:induction false} AnomalyIsFirstMatch(path: string, size: int, created: string, modified: string, accessed: string, now: int)
    ensures NetworkAnomaly(path, size, created, modified, accessed, now) ==
      match ParseTimes(created, modified, accessed)
      case None => None
      case Some(t) => FirstReason(ToLower(path), size, t, now)
  {
    var times := ParseTimes(created, modified, accessed);
    if times.Some? {
      var lp, t := ToLower(path), times.value;
      var m := FirstRule(lp, size, t, now, 0);
      assert RuleHolds(0, lp, size, t, now) == Hidden(lp);
      assert RuleHolds(1, lp, size, t, now) == MisplacedExecutable(lp);
      assert RuleHolds(2, lp, size, t, now) == (t.created > now);
      assert RuleHolds(3, lp, size, t, now) == (t.modified < t.created);
      assert RuleHolds(4, lp, size, t, now) == SystemFileInTemp(lp);
      assert RuleHolds(5, lp, size, t, now) == LargeBrowserFile(lp, size);
      assert RuleHolds(6, lp, size, t, now) == SmallFirewallFile(lp, size);
      assert RuleHolds(7, lp, size, t, now) == ContainsAny(lp, SuspiciousPorts);
      assert RuleHolds(8, lp, size, t, now) == ModifiedHosts(lp, t);
      assert RuleHolds(9, lp, size, t, now) == ToolOnDesktop(lp);
    }
  }

  /** The table reading, stated rule by rule: reason `k` exactly when rule
      `k` holds and no earlier rule does, and no reason exactly when no rule
      holds. */
  lemma FirstReasonSpec(lp: string, size: int, t: Times, now: int)
    ensures FirstReason(lp, size, t, now).None? <==> forall k :: 0 <= k < |Reasons| ==> !RuleHolds(k, lp, size, t, now)
    ensures forall k :: 0 <= k < |Reasons| ==>
      (FirstReason(lp, size, t, now) == Some(Reasons[k]) <==>
        RuleHolds(k, lp, size, t, now) && forall j :: 0 <= j < k ==> !RuleHolds(j, lp, size, t, now))
  {
    var m := FirstRule(lp, size, t, now, 0);
    forall k | 0 <= k < |Reasons|
      ensures FirstReason(lp, size, t, now) == Some(Reasons[k]) <==> m == k
    {
      if m < |Reasons| {
        ReasonIndex(m, k);
      }
    }
    forall k | 0 <= k < |Reasons|
      ensures m == k <==> RuleHolds(k, lp, size, t, now) && forall j :: 0 <= j < k ==> !RuleHolds(j, lp, size, t, now)
    {
      if m < k {
        assert RuleHolds(m, lp, size, t, now);
      }
    }
  }

  /** Reasons are told apart by their position in the table. */
  lemma ReasonIndex(m: nat, k: nat)
    requires m < |Reasons| && k < |Reasons|
    ensures Reasons[m] == Reasons[k] <==> m == k
  {
    ReasonsDistinct();
    if m < k {
      assert Reasons[m] != Reasons[k];
    } else if k < m {
      assert Reasons[k] != Reasons[m];
    }
  }

  /** Which reason `detect_anomalies` reports, stated rule by rule: reason
      `k` exactly when the timestamps parse, rule `k` holds and no earlier
      rule does; no reason exactly when a timestamp does not parse or no
      rule holds. */
  lemma FirstMatchWins(path: string, size: int, created: string, modified: string, accessed: string, now: int)
    ensures var r := NetworkAnomaly(path, size, created, modified, accessed, now);
      var times := ParseTimes(created, modified, accessed);
      && (r.None? <==> times.None? || forall k :: 0 <= k < |Reasons| ==> !RuleHolds(k, ToLower(path), size, times.value, now))
      && forall k :: 0 <= k < |Reasons| ==>
        (r == Some(Reasons[k]) <==>
          && times.Some? && RuleHolds(k, ToLower(path), size, times.value, now)
          && forall j :: 0 <= j < k ==> !RuleHolds(j, ToLower(path), size, times.value, now))
  {
    AnomalyIsFirstMatch(path, size, created, modified, accessed, now);
    var times := ParseTimes(created, modified, accessed);
    if times.Some? {
      FirstReasonSpec(ToLower(path), size, times.value, now);
    }
  }

  /** A timestamp that is "N/A" or otherwise unparsable silences every
      rule, the path-only ones included. */
  lemma MissingTimeGivesNoReason(path: string, size: int, created: string, modified: string, accessed: string, now: int)
    requires created == NotAvailable || modified == NotAvailable || accessed == NotAvailable
    ensures NetworkAnomaly(path, size, created, modified, accessed, now) == None
  {
    NotAvailableDoesNotParse();
  }

  /** "1337" occurs in "31337" and "666" in "6666": the port rule reduces
      to four fragments. */
  lemma PortRuleFragments(lp: string)
    ensures ContainsAny(lp, SuspiciousPorts) <==> ContainsAny(lp, ["4444", "1337", "666", "8080"])
  {
    if Contains(lp, "31337") {
      var i :| 0 <= i <= |lp| - 5 && OccursAt(lp, "31337", i);
      assert lp[i + 1..i + 5] == lp[i..i + 5][1..];
      assert OccursAt(lp, "1337", i + 1);
    }
    if Contains(lp, "6666") {
      var i :| 0 <= i <= |lp| - 4 && OccursAt(lp, "6666", i);
      assert lp[i..i + 3] == lp[i..i + 4][..3];
      assert OccursAt(lp, "666", i);
    }
    var short: seq<string> := ["4444", "1337", "666", "8080"];
    assert SuspiciousPorts[0] == short[0] && SuspiciousPorts[2] == short[1];
    assert SuspiciousPorts[3] == short[2] && SuspiciousPorts[5] == short[3];
  }

  // ---------------------------------------------------------------------
  // extract_network_files

  datatype NetworkRecord = NetworkRecord(
    path: string,
    size: int,
    createdTime: string,
    modifiedTime: string,
    accessedTime: string,
    kind: string,
    anomalyReason: Option<string>)

  /** The record dict built for a network-related file, with its anomaly
      reason; formatting a timestamp may raise, and then nothing is built. */
  function NetworkEntry(meta: Meta, path: string, now: int): Option<NetworkRecord> {
    match (FormatTimestamp(meta.crtime), FormatTimestamp(meta.mtime), FormatTimestamp(meta.atime))
    case (Ok(c), Ok(m), Ok(a)) =>
      Some(NetworkRecord(path, meta.size, c, m, a, "File", NetworkAnomaly(path, meta.size, c, m, a, now)))
    case _ => None
  }

  /** A formatted timestamp reads back as the instant it was formatted from. */
  lemma FormattedTimeParses(t: int, s: string)
    requires FormatTimestamp(Some(t)) == Ok(s)
    ensures ParseDateTime(s).Some? && ToEpoch(ParseDateTime(s).value) == t
  {
    FormatTimestampSpec(Some(t));
  }

  /** The reason of a built record, in terms of the metadata: when all
      three timestamps exist, the rules judge the original instants; a
      missing one ("N/A") gives no reason. */
  lemma NetworkEntryReason(meta: Meta, path: string, now: int)
    ensures var r := NetworkEntry(meta, path, now);
      r.Some? ==>
        && r.value.path == path && r.value.size == meta.size && r.value.kind == "File"
        && r.value.anomalyReason ==
          if meta.crtime.Some? && meta.mtime.Some? && meta.atime.Some? then
            FirstReason(ToLower(path), meta.size, Times(meta.crtime.value, meta.mtime.value, meta.atime.value), now)
          else None
  {
    var r := NetworkEntry(meta, path, now);
    if r.Some? {
      var c, m, a := r.value.createdTime, r.value.modifiedTime, r.value.accessedTime;
      AnomalyIsFirstMatch(path, meta.size, c, m, a, now);
      if meta.crtime.Some? && meta.mtime.Some? && meta.atime.Some? {
        FormattedTimeParses(meta.crtime.value, c);
        FormattedTimeParses(meta.mtime.value, m);
        FormattedTimeParses(meta.atime.value, a);
      } else {
        NotAvailableDoesNotParse();
      }
    }
  }

  /** The records `extract_network_files(n, parent)` appends, in order. */
  function NetworkFilesOf(n: Node, parent: string, now: int): seq<NetworkRecord>
    decreases n, 1
  {
    if n.meta.None? || n.meta.value.size == 0 || n.name.None? then []
    else
      var path := Join(parent, n.name.value);
      if n.meta.value.kind == Dir then ChildNetworkFiles(n, path, now, 0)
      else if IsNetworkRelated(path) then
        match NetworkEntry(n.meta.value, path, now)
        case None => []
        case Some(r) => [r]
      else []
  }

  /** The listing of `n` from its `i`-th yielded entry on: the exception a
      nameless entry or the listing raises is caught and ends the loop. */
  function ChildNetworkFiles(n: Node, path: string, now: int, i: nat): seq<NetworkRecord>
    requires i <= |n.children|
    decreases n, 0, |n.children| - i
  {
    if i == |n.children| || n.children[i].name.None? then []
    else EntryNetworkFiles(n, path, now, i) + ChildNetworkFiles(n, path, now, i + 1)
  }

  /** The `i`-th yielded entry alone: none for "." and "..". */
  function EntryNetworkFiles(n: Node, path: string, now: int, i: nat): seq<NetworkRecord>
    requires i < |n.children|
    decreases n, 0, 0
  {
    var c := n.children[i];
    if IsDot(c) then [] else NetworkFilesOf(c, path, now)
  }

  /** `extract_network_files(n, parent, results)` with the clock reading
      `now`: appends the records of the walk from `n` and keeps everything
      gathered before, whatever is raised below it. */
  method ExtractNetworkFiles(n: Node, parent: string, now: int, results: seq<NetworkRecord>)
    returns (out: seq<NetworkRecord>)
    ensures out == results + NetworkFilesOf(n, parent, now)
    decreases n, 1
  {
    if n.meta.None? || n.meta.value.size == 0 || n.name.None? {
      return results;
    }
    var path := Join(parent, n.name.value);
    if n.meta.value.kind == Dir {
      out := ExtractNetworkListing(n, path, now, results);
    } else if IsNetworkRelated(path) {
      var entry := NetworkEntry(n.meta.value, path, now);
      if entry.None? {
        return results;
      }
      out := results + [entry.value];
    } else {
      out := results;
    }
  }

  /** The loop over a directory's listing in `extract_network_files`. */
  method ExtractNetworkListing(n: Node, path: string, now: int, results: seq<NetworkRecord>)
    returns (out: seq<NetworkRecord>)
    ensures out == results + ChildNetworkFiles(n, path, now, 0)
    decreases n, 0, 1
  {
    out := results;
    var i := 0;
    while i < |n.children| && n.children[i].name.Some?
      invariant 0 <= i <= |n.children|
      invariant results + ChildNetworkFiles(n, path, now, 0) == out + ChildNetworkFiles(n, path, now, i)
      decreases |n.children| - i
    {
      ghost var before := out;
      out := ExtractNetworkEntry(n, path, now, i, out);
      AppendAssoc(before, EntryNetworkFiles(n, path, now, i), ChildNetworkFiles(n, path, now, i + 1));
      i := i + 1;
    }
  }

  /** One pass of the listing loop, for the named entry at `i`. */
  method ExtractNetworkEntry(n: Node, path: string, now: int, i: nat, results: seq<NetworkRecord>)
    returns (out: seq<NetworkRecord>)
    requires i < |n.children| && n.children[i].name.Some?
    ensures out == results + EntryNetworkFiles(n, path, now, i)
    decreases n, 0, 0
  {
    var c := n.children[i];
    if IsDot(c) {
      return results;
    }
    out := ExtractNetworkFiles(c, path, now, results);
  }

  // ---------------------------------------------------------------------
  // Properties of the walk

  /** What every appended record satisfies: a file ("File") with non-zero
      size whose path is network-related, labelled by the rules applied to
      its own fields. */
  predicate GoodRecord(r: NetworkRecord, now: int) {
    && r.kind == "File" && r.size != 0 && IsNetworkRelated(r.path)
    && r.anomalyReason == NetworkAnomaly(r.path, r.size, r.createdTime, r.modifiedTime, r.accessedTime, now)
  }

  predicate AllGood(rs: seq<NetworkRecord>, now: int) {
    forall k :: 0 <= k < |rs| ==> GoodRecord(rs[k], now)
  }

  lemma AllGoodAppend(a: seq<NetworkRecord>, b: seq<NetworkRecord>, now: int)
    requires AllGood(a, now) && AllGood(b, now)
    ensures AllGood(a + b, now)
  {
    forall k | 0 <= k < |a + b| ensures GoodRecord((a + b)[k], now) {
      if k >= |a| {
        assert (a + b)[k] == b[k - |a|];
      }
    }
  }

  /** Only network-related non-directory files with non-zero size are kept,
      each as a "File" carrying the reason the rules give for it; an entry
      without metadata or with size 0 contributes nothing from its whole
      subtree. */
  lemma {:induction false} NetworkRecordsGood(n: Node, parent: string, now: int)
    ensures AllGood(NetworkFilesOf(n, parent, now), now)
    ensures n.meta.None? || n.meta.value.size == 0 ==> NetworkFilesOf(n, parent, now) == []
    decreases n, 1
  {
    if n.meta.Some? && n.meta.value.size != 0 && n.name.Some? {
      var path := Join(parent, n.name.value);
      if n.meta.value.kind == Dir {
        ChildNetworkRecordsGood(n, path, now, 0);
      }
    }
  }

  lemma {:induction false} ChildNetworkRecordsGood(n: Node, path: string, now: int, i: nat)
    requires i <= |n.children|
    ensures AllGood(ChildNetworkFiles(n, path, now, i), now)
    decreases n, 0, |n.children| - i
  {
    if i < |n.children| && n.children[i].name.Some? {
      ChildNetworkRecordsGood(n, path, now, i + 1);
      if !IsDot(n.children[i]) {
        NetworkRecordsGood(n.children[i], path, now);
      }
      AllGoodAppend(EntryNetworkFiles(n, path, now, i), ChildNetworkFiles(n, path, now, i + 1), now);
    }
  }

  /** At most one record per entry of the tree. */
  lemma {:induction false} NetworkCount(n: Node, parent: string, now: int)
    ensures |NetworkFilesOf(n, parent, now)| <= Size(n)
    decreases n, 1
  {
    if n.meta.Some? && n.meta.value.size != 0 && n.name.Some? && n.meta.value.kind == Dir {
      ChildNetworkCount(n, Join(parent, n.name.value), now, 0);
    }
  }

  lemma {:induction false} ChildNetworkCount(n: Node, path: string, now: int, i: nat)
    requires i <= |n.children|
    ensures |ChildNetworkFiles(n, path, now, i)| <= SizeFrom(n, i)
    decreases n, 0, |n.children| - i
  {
    if i < |n.children| {
      ChildNetworkCount(n, path, now, i + 1);
      if n.children[i].name.Some? && !IsDot(n.children[i]) {
        NetworkCount(n.children[i], path, now);
      }
    }
  }

  /** Every record's path starts with `prefix`. */
  predicate NetworkUnder(rs: seq<NetworkRecord>, prefix: string) {
    forall k :: 0 <= k < |rs| ==> IsPrefix(prefix, rs[k].path)
  }

  lemma NetworkUnderAppend(a: seq<NetworkRecord>, b: seq<NetworkRecord>, prefix: string)
    requires NetworkUnder(a, prefix) && NetworkUnder(b, prefix)
    ensures NetworkUnder(a + b, prefix)
  {
    forall k | 0 <= k < |a + b| ensures IsPrefix(prefix, (a + b)[k].path) {
      if k >= |a| {
        assert (a + b)[k] == b[k - |a|];
      }
    }
  }

  lemma NetworkUnderWeaken(rs: seq<NetworkRecord>, shorter: string, longer: string)
    requires NetworkUnder(rs, longer) && IsPrefix(shorter, longer)
    ensures NetworkUnder(rs, shorter)
  {
    forall k | 0 <= k < |rs| ensures IsPrefix(shorter, rs[k].path) {
      PrefixTrans(shorter, longer, rs[k].path);
    }
  }

  /** A directory is never recorded, only what lies below it: every record
      of a named directory's walk has the directory's path followed by "/"
      as a prefix. */
  lemma {:induction false} DirectoryNetworkNested(n: Node, parent: string, now: int)
    requires WellNamed(n) && n.name.Some? && n.meta.Some? && n.meta.value.kind == Dir
    ensures NetworkUnder(NetworkFilesOf(n, parent, now), Join(parent, n.name.value) + "/")
    decreases n, 1
  {
    var path := Join(parent, n.name.value);
    assert path != "" && !IsSuffix("/", path) by { JoinShape(parent, n.name.value); }
    if n.meta.value.size != 0 {
      ChildNetworkNested(n, path, now, 0);
    }
  }

  lemma {:induction false} ChildNetworkNested(n: Node, path: string, now: int, i: nat)
    requires i <= |n.children| && WellNamed(n) && path != "" && !IsSuffix("/", path)
    ensures NetworkUnder(ChildNetworkFiles(n, path, now, i), path + "/")
    decreases n, 0, |n.children| - i
  {
    if i < |n.children| && n.children[i].name.Some? {
      var c := n.children[i];
      assert NetworkUnder(EntryNetworkFiles(n, path, now, i), path + "/") by {
        if !IsDot(c) {
          assert WellNamed(c);
          EntryNetworkNested(c, path, now);
        }
      }
      ChildNetworkNested(n, path, now, i + 1);
      NetworkUnderAppend(EntryNetworkFiles(n, path, now, i), ChildNetworkFiles(n, path, now, i + 1), path + "/");
    }
  }

  /** The records of a named entry of a directory's listing lie under the
      directory's path. */
  lemma {:induction false} EntryNetworkNested(c: Node, path: string, now: int)
    requires WellNamed(c) && c.name.Some? && path != "" && !IsSuffix("/", path)
    ensures NetworkUnder(NetworkFilesOf(c, path, now), path + "/")
    decreases c, 2
  {
    var name := c.name.value;
    var cpath := Join(path, name);
    assert IsPrefix(path + "/", cpath) by {
      JoinShape(path, name);
      assert cpath[..|path| + 1] == path + "/";
    }
    if c.meta.Some? && c.meta.value.size != 0 {
      if c.meta.value.kind == Dir {
        DirectoryNetworkNested(c, path, now);
        assert (cpath + "/")[..|path| + 1] == path + "/";
        NetworkUnderWeaken(NetworkFilesOf(c, path, now), path + "/", cpath + "/");
      } else {
        FileRecordPath(c, path, now);
      }
    }
  }

  /** A file's walk records at most its own path. */
  lemma FileRecordPath(c: Node, parent: string, now: int)
    requires c.name.Some? && c.meta.Some? && c.meta.value.kind == NonDir
    ensures forall k :: 0 <= k < |NetworkFilesOf(c, parent, now)| ==>
      NetworkFilesOf(c, parent, now)[k].path == Join(parent, c.name.value)
  {
    var path := Join(parent, c.name.value);
    var e := NetworkEntry(c.meta.value, path, now);
    assert e.Some? ==> e.value.path == path;
  }

  /** Reference count: the non-directory entries of the tree whose full
      path is network-related. */
  function RelatedFileCount(n: Node, parent: string): nat
    decreases n, 1
  {
    if n.name.None? || n.meta.None? then 0
    else
      var path := Join(parent, n.name.value);
      (if n.meta.value.kind == NonDir && IsNetworkRelated(path) then 1 else 0)
      + RelatedFileCountFrom(n, path, 0)
  }

  function RelatedFileCountFrom(n: Node, path: string, i: nat): nat
    requires i <= |n.children|
    decreases n, 0, |n.children| - i
  {
    if i == |n.children| then 0
    else RelatedFileCount(n.children[i], path) + RelatedFileCountFrom(n, path, i + 1)
  }

  /** In a tree where nothing is skipped and nothing raises, every
      network-related file is recorded, once. Unlike the log walk, a failing
      listing does not matter here: it only ends the loop after the last
      entry. */
  lemma {:induction false} EveryRelatedFileRecorded(n: Node, parent: string, now: int)
    requires Unobstructed(n)
    ensures |NetworkFilesOf(n, parent, now)| == RelatedFileCount(n, parent)
    decreases n, 1
  {
    var path := Join(parent, n.name.value);
    if n.meta.value.kind == Dir {
      ChildRelatedFilesRecorded(n, path, now, 0);
    } else {
      assert RelatedFileCountFrom(n, path, 0) == 0;
    }
  }

  lemma {:induction false} ChildRelatedFilesRecorded(n: Node, path: string, now: int, i: nat)
    requires i <= |n.children| && Unobstructed(n)
    ensures |ChildNetworkFiles(n, path, now, i)| == RelatedFileCountFrom(n, path, i)
    decreases n, 0, |n.children| - i
  {
    if i < |n.children| {
      var c := n.children[i];
      assert !IsDot(c) && Unobstructed(c);
      EveryRelatedFileRecorded(c, path, now);
      ChildRelatedFilesRecorded(n, path, now, i + 1);
    }
  }

  /** Two trees that differ at most in which directory listings raise after
      their entries. */
  predicate SameButListings(a: Node, b: Node)
    decreases a
  {
    && a.name == b.name && a.meta == b.meta && a.content == b.content && a.readFault == b.readFault
    && |a.children| == |b.children|
    && forall i :: 0 <= i < |a.children| ==> SameButListings(a.children[i], b.children[i])
  }

  /** A failing listing is caught inside the directory and only ends its
      loop after the last entry, so which listings raise, at any depth,
      changes nothing in the result. */
  lemma {:induction false} ListingFailuresContained(a: Node, b: Node, parent: string, now: int)
    requires SameButListings(a, b)
    ensures NetworkFilesOf(a, parent, now) == NetworkFilesOf(b, parent, now)
    decreases a, 1
  {
    if a.meta.Some? && a.meta.value.size != 0 && a.name.Some? && a.meta.value.kind == Dir {
      ChildListingFailuresContained(a, b, Join(parent, a.name.value), now, 0);
    }
  }

  lemma {:induction false} ChildListingFailuresContained(a: Node, b: Node, path: string, now: int, i: nat)
    requires SameButListings(a, b) && i <= |a.children|
    ensures ChildNetworkFiles(a, path, now, i) == ChildNetworkFiles(b, path, now, i)
    decreases a, 0, |a.children| - i
  {
    if i < |a.children| {
      var c, d := a.children[i], b.children[i];
      assert SameButListings(c, d);
      if c.name.Some? {
        ChildListingFailuresContained(a, b, path, now, i + 1);
        if !IsDot(c) {
          ListingFailuresContained(c, d, path, now);
        }
      }
    }
  }
}
