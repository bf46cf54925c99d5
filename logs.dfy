/** The log analyser (`backend/log.py`): a walk over the filesystem tree
    that reads every log-like file in chunks, finds the timestamps in its
    text, and records whether the file looks anomalous. */
module LogAnalyser {
  import opened Base
  import opened Text
  import opened Timestamps
  import opened FsTree

  /** The chunk size `analyze_log` asks `read_random` for. */
  const ChunkSize: nat := 1024 * 1024

  /** Length of a `YYYY-MM-DD HH:MM:SS` match. */
  const StampLength: nat := 19

  /** Case-sensitive keywords whose presence marks a log as anomalous. */
  const Keywords: seq<string> := ["ERROR", "CRITICAL", "FAILURE", "WARNING", "ALERT", "EXCEPTION"]

  /** The file-name endings `extract_logs` analyses. */
  const LogExtensions: seq<string> := [".log", ".evtx", ".txt"]

  const NoStampsMessage: string := "No timestamps found in the log file."
  const AnomalyDetected: string := "Anomaly detected"
  const NoAnomalies: string := "No anomalies detected"
  const NoExtension: string := "No Extension"

  // ---------------------------------------------------------------------
  // Reading a file's content

  /** What one `read_random(offset, len)` call gives: the bytes stored from
      `offset` on (none past the end), or an exception once `offset`
      reaches the entry's read fault. */
  datatype Chunk = Data(bytes: string) | ReadFailed

  function Min(a: int, b: int): int {
    if a <= b then a else b
  }

  function ReadRandom(n: Node, offset: nat, len: nat): (c: Chunk)
    ensures c.Data? ==> |c.bytes| <= len
    ensures c.Data? && c.bytes != [] ==>
      offset + |c.bytes| <= |n.content| && c.bytes == n.content[offset..offset + |c.bytes|]
  {
    if n.readFault.Some? && offset >= n.readFault.value then ReadFailed
    else if offset >= |n.content| then Data([])
    else Data(n.content[offset..Min(offset + len, |n.content|)])
  }

  /** The text the read loop holds when it stops, started at `offset`
      with `acc` gathered, for a file whose metadata gives `size`: it stops
      on reaching `size`, on an empty read and on a read error. */
  function ReadFrom(n: Node, size: int, offset: nat, acc: string): string
    decreases size - offset
  {
    if offset >= size then acc
    else match ReadRandom(n, offset, ChunkSize)
      case ReadFailed => acc
      case Data(d) => if d == [] then acc else ReadFrom(n, size, offset + |d|, acc + d)
  }

  /** The content `analyze_log` gathers for a file. */
  function FileContent(n: Node, size: int): string {
    ReadFrom(n, size, 0, [])
  }

  /** The read loop of `analyze_log`: `offset` grows by the length of each
      chunk read and the content is the concatenation of the chunks. */
  method ReadContent(n: Node, size: int) returns (content: string)
    ensures content == FileContent(n, size)
  {
    content := [];
    var offset: nat := 0;
    while offset < size
      invariant ReadFrom(n, size, offset, content) == FileContent(n, size)
      decreases size - offset
    {
      var chunk := ReadRandom(n, offset, ChunkSize);
      if chunk.ReadFailed? || chunk.bytes == [] {
        break;
      }
      content := content + chunk.bytes;
      offset := offset + |chunk.bytes|;
    }
  }

  /** The offset at which the read loop stops, started at `offset`. */
  function ReadEnd(n: Node, size: int, offset: nat): nat
    decreases size - offset
  {
    if offset >= size then offset
    else match ReadRandom(n, offset, ChunkSize)
      case ReadFailed => offset
      case Data(d) => if d == [] then offset else ReadEnd(n, size, offset + |d|)
  }

  /** The loop stops within the stored content; without a read fault it
      stops no earlier than `size` or the end of the content, and with one
      it stops within a chunk of the fault. */
  lemma {:induction false} ReadEndBounds(n: Node, size: int, offset: nat)
    requires offset <= |n.content|
    ensures offset <= ReadEnd(n, size, offset) <= |n.content|
    ensures n.readFault.None? ==> ReadEnd(n, size, offset) >= Min(size, |n.content|)
    ensures n.readFault.Some? && offset < n.readFault.value + ChunkSize ==>
      ReadEnd(n, size, offset) < n.readFault.value + ChunkSize
    decreases size - offset
  {
    if offset < size {
      var c := ReadRandom(n, offset, ChunkSize);
      if c.Data? && c.bytes != [] {
        ReadEndBounds(n, size, offset + |c.bytes|);
      }
    }
  }

  /** What the loop gathers is the stored content from where it starts to
      where it stops. */
  lemma {:induction false} ReadFromSlice(n: Node, size: int, offset: nat, acc: string)
    requires offset <= |n.content|
    ensures offset <= ReadEnd(n, size, offset) <= |n.content|
    ensures ReadFrom(n, size, offset, acc) == acc + n.content[offset..ReadEnd(n, size, offset)]
    decreases size - offset
  {
    ReadEndBounds(n, size, offset);
    if offset < size {
      var c := ReadRandom(n, offset, ChunkSize);
      if c.Data? && c.bytes != [] {
        var d := c.bytes;
        var e := ReadEnd(n, size, offset);
        ReadFromSlice(n, size, offset + |d|, acc + d);
        assert n.content[offset..e] == d + n.content[offset + |d|..e];
      }
    }
  }

  /** A file that reads without error and whose stored content is no
      longer than its metadata size is read in full. */
  lemma ReadsWholeFile(n: Node, size: int)
    requires n.readFault.None? && |n.content| <= size
    ensures FileContent(n, size) == n.content
  {
    ReadFromSlice(n, size, 0, []);
    ReadEndBounds(n, size, 0);
    assert n.content[0..|n.content|] == n.content;
  }

  /** The content is always a prefix of what is stored. */
  lemma ContentIsPrefix(n: Node, size: int)
    ensures IsPrefix(FileContent(n, size), n.content)
  {
    ReadFromSlice(n, size, 0, []);
  }

  // ---------------------------------------------------------------------
  // extract_timestamps

  /** A match of `\d{4}-\d{2}-\d{2} \d{2}:\d{2}:\d{2}` starts at `i`. */
  predicate StampAt(s: string, i: int) {
    0 <= i <= |s| - StampLength && IsStampShape(s[i..i + StampLength])
  }

  /** The start positions `re.findall` reports from `i` on: matches, in
      increasing order, each beginning at or after the end of the
      previous one. */
  function MatchStarts(s: string, i: nat): (p: seq<nat>)
    requires i <= |s|
    ensures forall k :: 0 <= k < |p| ==> i <= p[k] && StampAt(s, p[k])
    ensures forall k, l :: 0 <= k < l < |p| ==> p[k] + StampLength <= p[l]
    decreases |s| - i
  {
    if i + StampLength > |s| then []
    else if StampAt(s, i) then [i] + MatchStarts(s, i + StampLength)
    else MatchStarts(s, i + 1)
  }

  /** Position `j` lies inside one of the reported matches. */
  predicate Covered(p: seq<nat>, j: int) {
    exists k :: 0 <= k < |p| && p[k] <= j < p[k] + StampLength
  }

  /** No match is passed over: every match from `i` on starts inside a
      reported one, so only matches overlapping a reported one are
      skipped. */
  lemma {:induction false} MatchStartsComplete(s: string, i: nat)
    requires i <= |s|
    ensures forall j :: i <= j && StampAt(s, j) ==> Covered(MatchStarts(s, i), j)
    decreases |s| - i
  {
    if i + StampLength > |s| {
      assert forall j :: i <= j ==> !StampAt(s, j);
    } else if StampAt(s, i) {
      MatchStartsComplete(s, i + StampLength);
      CoveredAfterMatch(s, i);
    } else {
      MatchStartsComplete(s, i + 1);
      assert MatchStarts(s, i) == MatchStarts(s, i + 1);
    }
  }

  /** A match at `i` covers the positions up to its end; the scan after it
      covers the rest. */
  lemma CoveredAfterMatch(s: string, i: nat)
    requires i + StampLength <= |s| && StampAt(s, i)
    requires forall j :: i + StampLength <= j && StampAt(s, j) ==> Covered(MatchStarts(s, i + StampLength), j)
    ensures forall j :: i <= j && StampAt(s, j) ==> Covered(MatchStarts(s, i), j)
  {
    var p := MatchStarts(s, i);
    var rest := MatchStarts(s, i + StampLength);
    assert p == [i] + rest;
    forall j | i <= j && StampAt(s, j)
      ensures Covered(p, j)
    {
      if j < i + StampLength {
        assert p[0] <= j < p[0] + StampLength;
      } else {
        assert Covered(rest, j);
        var k :| 0 <= k < |rest| && rest[k] <= j < rest[k] + StampLength;
        assert p[k + 1] == rest[k];
      }
    }
  }

  /** `extract_timestamps(content)`: the text of every match, in order. */
  function ExtractTimestamps(s: string): (r: seq<string>)
    ensures var p := MatchStarts(s, 0);
      && |r| == |p|
      && forall k :: 0 <= k < |r| ==> r[k] == s[p[k]..p[k] + StampLength] && IsStampShape(r[k])
  {
    var p := MatchStarts(s, 0);
    seq(|p|, k requires 0 <= k < |p| => s[p[k]..p[k] + StampLength])
  }

  /** The scan finds nothing exactly when no match occurs anywhere. */
  lemma NoStampsFound(s: string)
    ensures ExtractTimestamps(s) == [] <==> forall j :: !StampAt(s, j)
  {
    var p := MatchStarts(s, 0);
    MatchStartsComplete(s, 0);
    if p != [] {
      assert StampAt(s, p[0]);
    }
  }

  // ---------------------------------------------------------------------
  // detect_anomalies

  /** A found timestamp is unusual when `strptime` rejects it or its year
      lies before 2000 or after the current year. */
  predicate UnusualStamp(ts: string, currentYear: int) {
    var p := ParseDateTime(ts);
    p.None? || p.value.year < 2000 || p.value.year > currentYear
  }

  /** The verdict of `detect_anomalies`, stated directly: no timestamp, a
      keyword in the content, or an unusual timestamp. */
  predicate Anomalous(content: string, stamps: seq<string>, currentYear: int) {
    || stamps == []
    || ContainsAny(content, Keywords)
    || exists k :: 0 <= k < |stamps| && UnusualStamp(stamps[k], currentYear)
  }

  function KeywordMessage(keyword: string): string {
    "Keyword '" + keyword + "' detected in log content."
  }

  /** The keyword messages for the keywords of `keys`, in order. */
  function KeywordMessages(content: string, keys: seq<string>): seq<string> {
    if keys == [] then []
    else
      var last := keys[|keys| - 1];
      KeywordMessages(content, keys[..|keys| - 1]) + (if Contains(content, last) then [KeywordMessage(last)] else [])
  }

  /** The message for one found timestamp, if any. */
  function StampMessage(ts: string, currentYear: int): Option<string> {
    match ParseDateTime(ts)
    case None => Some("Invalid timestamp format: " + ts)
    case Some(dt) =>
      if dt.year < 2000 || dt.year > currentYear then Some("Unusual timestamp detected: " + ts) else None
  }

  function StampMessages(stamps: seq<string>, currentYear: int): seq<string> {
    if stamps == [] then []
    else
      var m := StampMessage(stamps[|stamps| - 1], currentYear);
      StampMessages(stamps[..|stamps| - 1], currentYear) + (if m.Some? then [m.value] else [])
  }

  function Opening(stamps: seq<string>): seq<string> {
    if stamps == [] then [NoStampsMessage] else []
  }

  /** The `anomalies` list `detect_anomalies` builds. */
  function AnomalyMessages(content: string, stamps: seq<string>, currentYear: int): seq<string> {
    Opening(stamps) + KeywordMessages(content, Keywords) + StampMessages(stamps, currentYear)
  }

  lemma {:induction false} KeywordMessagesSpec(content: string, keys: seq<string>)
    ensures KeywordMessages(content, keys) != [] <==> ContainsAny(content, keys)
  {
    if keys != [] {
      var init := keys[..|keys| - 1];
      KeywordMessagesSpec(content, init);
      if ContainsAny(content, init) {
        var j :| 0 <= j < |init| && Contains(content, init[j]);
        assert keys[j] == init[j];
      }
      if ContainsAny(content, keys) {
        var j :| 0 <= j < |keys| && Contains(content, keys[j]);
        if j < |init| {
          assert init[j] == keys[j];
        }
      }
    }
  }

  lemma {:induction false} StampMessagesSpec(stamps: seq<string>, currentYear: int)
    ensures StampMessages(stamps, currentYear) != [] <==>
      exists k :: 0 <= k < |stamps| && UnusualStamp(stamps[k], currentYear)
  {
    if stamps != [] {
      var init := stamps[..|stamps| - 1];
      StampMessagesSpec(init, currentYear);
      if exists k :: 0 <= k < |init| && UnusualStamp(init[k], currentYear) {
        var k :| 0 <= k < |init| && UnusualStamp(init[k], currentYear);
        assert stamps[k] == init[k];
      }
      if exists k :: 0 <= k < |stamps| && UnusualStamp(stamps[k], currentYear) {
        var k :| 0 <= k < |stamps| && UnusualStamp(stamps[k], currentYear);
        if k < |init| {
          assert init[k] == stamps[k];
        }
      }
    }
  }

  /** The list `detect_anomalies` builds is non-empty exactly when the
      direct statement of the verdict holds. */
  lemma AnomalyMessagesSpec(content: string, stamps: seq<string>, currentYear: int)
    ensures AnomalyMessages(content, stamps, currentYear) != [] <==> Anomalous(content, stamps, currentYear)
  {
    KeywordMessagesSpec(content, Keywords);
    StampMessagesSpec(stamps, currentYear);
  }

  /** `detect_anomalies(content, timestamps)`, with the current year as a
      parameter: builds the list of messages and reports whether it is
      non-empty. */
  method DetectAnomalies(content: string, stamps: seq<string>, currentYear: int) returns (anomalous: bool)
    ensures anomalous == Anomalous(content, stamps, currentYear)
  {
    var anomalies: seq<string> := [];
    if stamps == [] {
      anomalies := anomalies + [NoStampsMessage];
    }
    for j := 0 to |Keywords|
      invariant anomalies == Opening(stamps) + KeywordMessages(content, Keywords[..j])
    {
      assert Keywords[..j + 1][..j] == Keywords[..j];
      if Contains(content, Keywords[j]) {
        AppendAssoc(Opening(stamps), KeywordMessages(content, Keywords[..j]), [KeywordMessage(Keywords[j])]);
        anomalies := anomalies + [KeywordMessage(Keywords[j])];
      }
    }
    assert Keywords[..|Keywords|] == Keywords;
    for k := 0 to |stamps|
      invariant anomalies == Opening(stamps) + KeywordMessages(content, Keywords) + StampMessages(stamps[..k], currentYear)
    {
      assert stamps[..k + 1][..k] == stamps[..k];
      var m := StampMessage(stamps[k], currentYear);
      if m.Some? {
        AppendAssoc(Opening(stamps) + KeywordMessages(content, Keywords), StampMessages(stamps[..k], currentYear), [m.value]);
        anomalies := anomalies + [m.value];
      }
    }
    assert stamps[..|stamps|] == stamps;
    anomalous := |anomalies| > 0;
    AnomalyMessagesSpec(content, stamps, currentYear);
  }

  // ---------------------------------------------------------------------
  // os.path.splitext

  /** `p` has an extension starting at `d`: a "." after which no "." or "/"
      follows, preceded within the last path segment by some character
      other than ".". */
  predicate ExtensionAt(p: string, d: int) {
    && 0 <= d < |p| && p[d] == '.'
    && (forall i :: d < i < |p| ==> p[i] != '.' && p[i] != '/')
    && (forall i :: 0 <= i < d && p[i] == '/' ==> exists k :: i < k < d && p[k] != '.')
    && exists k :: 0 <= k < d && p[k] != '.' && p[k] != '/'
  }

  /** `os.path.splitext(p)[1]`: from the last "." to the end, when that
      "." lies after the last "/" and something other than a dot precedes
      it within the last segment; otherwise empty. */
  function Extension(p: string): (e: string)
    ensures e != [] ==> IsSuffix(e, p) && e[0] == '.'
  {
    SplitAt(p, RFind(p, '/'), RFind(p, '.'))
  }

  /** The extension given the positions of the last "/" and the last ".". */
  function SplitAt(p: string, sep: int, dot: int): string
    requires -1 <= sep < |p| && -1 <= dot < |p|
  {
    if dot > sep && exists k | sep < k < dot :: p[k] != '.' then p[dot..] else []
  }

  /** The extension is exactly the suffix from a position where the path
      has one, and it is empty exactly when there is none. */
  lemma ExtensionSpec(p: string)
    ensures Extension(p) != [] ==> ExtensionAt(p, |p| - |Extension(p)|)
    ensures (exists d :: ExtensionAt(p, d)) ==> Extension(p) != []
  {
    var sep := RFind(p, '/');
    var dot := RFind(p, '.');
    if Extension(p) != [] {
      var k :| sep < k < dot && p[k] != '.';
      assert p[k] != '/';
      assert |p| - |Extension(p)| == dot;
      forall i | 0 <= i < dot && p[i] == '/'
        ensures exists k' :: i < k' < dot && p[k'] != '.'
      {
        assert i <= sep;
      }
    }
    if d :| ExtensionAt(p, d) {
      assert dot == d;
      var k :| 0 <= k < d && p[k] != '.' && p[k] != '/';
      if sep >= 0 {
        assert p[sep] == '/';
        var k' :| sep < k' < d && p[k'] != '.';
      }
    }
  }

  /** The `type` field: the extension, or "No Extension". */
  function LogType(path: string): (t: string)
    ensures t == NoExtension || (|t| > 0 && t[0] == '.' && IsSuffix(t, path))
  {
    var e := Extension(path);
    if e == [] then NoExtension else e
  }

  /** The extension lies in the last path segment: putting directories in
      front of a name does not change it. */
  lemma ExtensionOfLastSegment(q: string, name: string)
    requires q == [] || q[|q| - 1] == '/'
    requires forall i :: 0 <= i < |name| ==> name[i] != '/'
    ensures Extension(q + name) == Extension(name)
  {
    var p := q + name;
    var dn := RFind(name, '.');
    SegmentFinds(q, name);
    RFindUnique(name, '/', -1);
    if dn >= 0 {
      SplitShift(q, name, dn);
    }
  }

  /** Where the last "/" and the last "." of a path are found, for a path
      made of directories `q` and a name. */
  lemma SegmentFinds(q: string, name: string)
    requires q == [] || q[|q| - 1] == '/'
    requires forall i :: 0 <= i < |name| ==> name[i] != '/'
    ensures RFind(q + name, '/') == |q| - 1
    ensures RFind(name, '.') >= 0 ==> RFind(q + name, '.') == |q| + RFind(name, '.')
    ensures RFind(name, '.') < 0 ==> RFind(q + name, '.') < |q|
  {
    RFindAppend(q, name, '/');
    RFindAppend(q, name, '.');
    RFindUnique(name, '/', -1);
    if RFind(name, '.') < 0 && q != [] {
      assert RFind(q, '.') != |q| - 1;
    }
  }

  /** Splitting at a dot of the name is the same on the name and on the
      whole path. */
  lemma SplitShift(q: string, name: string, dn: int)
    requires 0 <= dn < |name|
    ensures SplitAt(q + name, |q| - 1, |q| + dn) == SplitAt(name, -1, dn)
  {
    var p := q + name;
    if exists k | -1 < k < dn :: name[k] != '.' {
      var k :| -1 < k < dn && name[k] != '.';
      assert p[|q| + k] == name[k];
    }
    if exists k | |q| - 1 < k < |q| + dn :: p[k] != '.' {
      var k :| |q| - 1 < k < |q| + dn && p[k] != '.';
      assert p[k] == name[k - |q|];
    }
    assert p[|q| + dn..] == name[dn..];
  }

  /** A name without "/" that ends with `ext` (a "." followed by no
      further "." or "/"), after some character other than ".", has `ext`
      as its extension. */
  lemma ExtensionOfName(name: string, ext: string)
    requires forall i :: 0 <= i < |name| ==> name[i] != '/'
    requires IsSuffix(ext, name) && |ext| >= 1 && ext[0] == '.'
    requires forall i :: 1 <= i < |ext| ==> ext[i] != '.'
    requires exists k :: 0 <= k < |name| - |ext| && name[k] != '.'
    ensures Extension(name) == ext
  {
    var d := |name| - |ext|;
    assert name[d..] == ext;
    assert RFind(name, '.') == d by {
      assert forall i :: d <= i < |name| ==> name[i] == ext[i - d];
      RFindUnique(name, '.', d);
    }
    RFindUnique(name, '/', -1);
    var k :| 0 <= k < d && name[k] != '.';
    assert -1 < k < d;
  }

  /** A file whose name ends with `ext` (a "." followed by no further "."
      or "/") after some character other than "." gets `ext` as its type. */
  lemma LogTypeOfName(parent: string, name: string, ext: string)
    requires GoodName(name) && IsSuffix(ext, name) && |ext| >= 1 && ext[0] == '.'
    requires forall i :: 1 <= i < |ext| ==> ext[i] != '.'
    requires exists k :: 0 <= k < |name| - |ext| && name[k] != '.'
    ensures LogType(Join(parent, name)) == ext
  {
    var path := Join(parent, name);
    var q := path[..|path| - |name|];
    JoinSegment(parent, name);
    ExtensionInFolder(q, name, ext);
  }

  lemma ExtensionInFolder(q: string, name: string, ext: string)
    requires q == [] || q[|q| - 1] == '/'
    requires GoodName(name) && IsSuffix(ext, name) && |ext| >= 1 && ext[0] == '.'
    requires forall i :: 1 <= i < |ext| ==> ext[i] != '.'
    requires exists k :: 0 <= k < |name| - |ext| && name[k] != '.'
    ensures Extension(q + name) == ext
  {
    ExtensionOfLastSegment(q, name);
    ExtensionOfName(name, ext);
  }

  /** A file named exactly like an extension (".log") has none: its type is
      "No Extension". */
  lemma LogTypeOfBareExtension(parent: string, ext: string)
    requires GoodName(ext) && ext[0] == '.'
    requires forall i :: 1 <= i < |ext| ==> ext[i] != '.'
    ensures LogType(Join(parent, ext)) == NoExtension
  {
    var path := Join(parent, ext);
    var q := path[..|path| - |ext|];
    JoinSegment(parent, ext);
    NoExtensionInFolder(q, ext);
  }

  lemma NoExtensionInFolder(q: string, ext: string)
    requires q == [] || q[|q| - 1] == '/'
    requires GoodName(ext) && ext[0] == '.'
    requires forall i :: 1 <= i < |ext| ==> ext[i] != '.'
    ensures Extension(q + ext) == []
  {
    ExtensionOfLastSegment(q, ext);
    RFindUnique(ext, '.', 0);
    RFindUnique(ext, '/', -1);
  }

  // ---------------------------------------------------------------------
  // analyze_log

  datatype LogRecord = LogRecord(
    path: string,
    size: int,
    createdTime: string,
    modifiedTime: string,
    accessedTime: string,
    kind: string,
    anomalyReason: string)

  /** The record `analyze_log` appends for an entry, or none when building
      it raises (no metadata, or a timestamp that cannot be formatted). */
  function LogEntry(n: Node, path: string, currentYear: int): Option<LogRecord> {
    if n.meta.None? then None
    else
      var meta := n.meta.value;
      var content := FileContent(n, meta.size);
      var verdict := AnomalyMessages(content, ExtractTimestamps(content), currentYear) != [];
      match (FormatTimestamp(meta.crtime), FormatTimestamp(meta.mtime), FormatTimestamp(meta.atime))
      case (Ok(c), Ok(m), Ok(a)) =>
        Some(LogRecord(path, meta.size, c, m, a, LogType(path), if verdict then AnomalyDetected else NoAnomalies))
      case _ => None
  }

  /** A record is built exactly when the entry has metadata and its three
      timestamps can be formatted; it carries the path, the size, the
      formatted times and the type, and says "Anomaly detected" exactly
      when the content read from the file is anomalous. */
  lemma LogEntrySpec(n: Node, path: string, currentYear: int)
    ensures var r := LogEntry(n, path, currentYear);
      r.Some? <==>
        && n.meta.Some?
        && FormatTimestamp(n.meta.value.crtime).Ok?
        && FormatTimestamp(n.meta.value.mtime).Ok?
        && FormatTimestamp(n.meta.value.atime).Ok?
    ensures var r := LogEntry(n, path, currentYear);
      r.Some? ==>
        var content := FileContent(n, n.meta.value.size);
        && r.value.path == path && r.value.size == n.meta.value.size
        && Ok(r.value.createdTime) == FormatTimestamp(n.meta.value.crtime)
        && Ok(r.value.modifiedTime) == FormatTimestamp(n.meta.value.mtime)
        && Ok(r.value.accessedTime) == FormatTimestamp(n.meta.value.atime)
        && r.value.kind == LogType(path)
        && (r.value.anomalyReason == AnomalyDetected <==> Anomalous(content, ExtractTimestamps(content), currentYear))
        && (r.value.anomalyReason == NoAnomalies <==> !Anomalous(content, ExtractTimestamps(content), currentYear))
  {
    if n.meta.Some? {
      var content := FileContent(n, n.meta.value.size);
      AnomalyMessagesSpec(content, ExtractTimestamps(content), currentYear);
    }
  }

  /** `analyze_log(n, path, logs)`: reads the file, judges it and appends
      its record; any exception while building the record is caught and
      leaves the list as it was. */
  method AnalyzeLog(n: Node, path: string, currentYear: int, logs: seq<LogRecord>) returns (out: seq<LogRecord>)
    ensures out == logs + LeafLogs(n, path, currentYear)
  {
    if n.meta.None? {
      return logs;
    }
    var meta := n.meta.value;
    var content := ReadContent(n, meta.size);
    var stamps := ExtractTimestamps(content);
    var anomalous := DetectAnomalies(content, stamps, currentYear);
    AnomalyMessagesSpec(content, stamps, currentYear);
    var c := FormatTimestamp(meta.crtime);
    var m := FormatTimestamp(meta.mtime);
    var a := FormatTimestamp(meta.atime);
    if c.Error? || m.Error? || a.Error? {
      return logs;
    }
    var reason := if anomalous then AnomalyDetected else NoAnomalies;
    out := logs + [LogRecord(path, meta.size, c.value, m.value, a.value, LogType(path), reason)];
  }

  // ---------------------------------------------------------------------
  // extract_logs

  /** What a call of `extract_logs` appends, and whether an exception
      escapes from it (`extract_logs` catches none). */
  datatype LogWalk = LogWalk(records: seq<LogRecord>, aborted: bool)

  predicate IsLogName(name: string) {
    EndsWithAny(name, LogExtensions)
  }

  function LogsOf(n: Node, parent: string, currentYear: int): LogWalk
    decreases n, 1
  {
    if n.meta.None? || n.meta.value.size == 0 then LogWalk([], false)
    else if n.name.None? then LogWalk([], true)
    else
      var path := Join(parent, n.name.value);
      if n.meta.value.kind == Dir then ChildLogs(n, path, currentYear, 0)
      else if IsLogName(n.name.value) then LogWalk(LeafLogs(n, path, currentYear), false)
      else LogWalk([], false)
  }

  /** The listing of `n` from its `i`-th yielded entry on: an entry that
      raises ends the walk with what was appended before it, and so does a
      failing listing after the last entry. */
  function ChildLogs(n: Node, path: string, currentYear: int, i: nat): LogWalk
    requires i <= |n.children|
    decreases n, 0, |n.children| - i
  {
    if i == |n.children| then LogWalk([], n.listingFails)
    else
      var w := EntryLogs(n, path, currentYear, i);
      if w.aborted then w
      else
        var rest := ChildLogs(n, path, currentYear, i + 1);
        LogWalk(w.records + rest.records, rest.aborted)
  }

  /** The `i`-th yielded entry alone: a nameless entry raises at the dot
      test, and "." and ".." contribute nothing. */
  function EntryLogs(n: Node, path: string, currentYear: int, i: nat): LogWalk
    requires i < |n.children|
    decreases n, 0, 0
  {
    var c := n.children[i];
    if c.name.None? then LogWalk([], true)
    else if IsDot(c) then LogWalk([], false)
    else LogsOf(c, path, currentYear)
  }

  /** `extract_logs(n, parent, logs)` with the current year as a parameter:
      appends the records of the walk from `n`; `aborted` reports the
      exception that escapes, after which the list holds what was appended
      before it. */
  method ExtractLogs(n: Node, parent: string, currentYear: int, logs: seq<LogRecord>)
    returns (out: seq<LogRecord>, aborted: bool)
    ensures out == logs + LogsOf(n, parent, currentYear).records
    ensures aborted == LogsOf(n, parent, currentYear).aborted
    decreases n, 1
  {
    if n.meta.None? || n.meta.value.size == 0 {
      return logs, false;
    }
    if n.name.None? {
      return logs, true;
    }
    var path := Join(parent, n.name.value);
    if n.meta.value.kind == Dir {
      out, aborted := ExtractLogListing(n, path, currentYear, logs);
    } else if IsLogName(n.name.value) {
      out := AnalyzeLog(n, path, currentYear, logs);
      aborted := false;
    } else {
      out, aborted := logs, false;
    }
  }

  /** The loop over a directory's listing in `extract_logs`. */
  method ExtractLogListing(n: Node, path: string, currentYear: int, logs: seq<LogRecord>)
    returns (out: seq<LogRecord>, aborted: bool)
    ensures out == logs + ChildLogs(n, path, currentYear, 0).records
    ensures aborted == ChildLogs(n, path, currentYear, 0).aborted
    decreases n, 0, 1
  {
    ghost var walk := ChildLogs(n, path, currentYear, 0);
    out := logs;
    var i := 0;
    while i < |n.children|
      invariant 0 <= i <= |n.children|
      invariant logs + walk.records == out + ChildLogs(n, path, currentYear, i).records
      invariant walk.aborted == ChildLogs(n, path, currentYear, i).aborted
      decreases |n.children| - i
    {
      ghost var before := out;
      var failed;
      out, failed := ExtractLogEntry(n, path, currentYear, i, out);
      if failed {
        return out, true;
      }
      ghost var w := EntryLogs(n, path, currentYear, i).records;
      ghost var rest := ChildLogs(n, path, currentYear, i + 1).records;
      assert ChildLogs(n, path, currentYear, i).records == w + rest;
      AppendAssoc(before, w, rest);
      i := i + 1;
    }
    aborted := n.listingFails;
  }

  /** One pass of the listing loop, for the entry at `i`; `failed` reports
      an exception, which leaves the loop. */
  method ExtractLogEntry(n: Node, path: string, currentYear: int, i: nat, logs: seq<LogRecord>)
    returns (out: seq<LogRecord>, failed: bool)
    requires i < |n.children|
    ensures out == logs + EntryLogs(n, path, currentYear, i).records
    ensures failed == EntryLogs(n, path, currentYear, i).aborted
    decreases n, 0, 0
  {
    var c := n.children[i];
    if c.name.None? {
      return logs, true;
    }
    if IsDot(c) {
      return logs, false;
    }
    out, failed := ExtractLogs(c, path, currentYear, logs);
  }

  /** Every record names a file whose name ends with a log extension. */
  predicate AllLogFiles(rs: seq<LogRecord>) {
    forall k :: 0 <= k < |rs| ==> IsLogName(rs[k].path)
  }

  lemma AllLogFilesAppend(a: seq<LogRecord>, b: seq<LogRecord>)
    requires AllLogFiles(a) && AllLogFiles(b)
    ensures AllLogFiles(a + b)
  {
    forall k | 0 <= k < |a + b|
      ensures IsLogName((a + b)[k].path)
    {
      if k >= |a| {
        assert (a + b)[k] == b[k - |a|];
      }
    }
  }

  /** Every analysed file is a named non-directory whose name ends with
      ".log", ".evtx" or ".txt", so every record's path carries that
      ending; a skipped entry (no metadata, or size 0) contributes nothing
      from its whole subtree. */
  lemma {:induction false} LogsAreLogFiles(n: Node, parent: string, currentYear: int)
    requires WellNamed(n)
    ensures AllLogFiles(LogsOf(n, parent, currentYear).records)
    ensures n.meta.None? || n.meta.value.size == 0 ==> LogsOf(n, parent, currentYear) == LogWalk([], false)
    decreases n, 1
  {
    if n.meta.Some? && n.meta.value.size != 0 && n.name.Some? {
      var path := Join(parent, n.name.value);
      if n.meta.value.kind == Dir {
        assert LogsOf(n, parent, currentYear) == ChildLogs(n, path, currentYear, 0);
        ChildLogsAreLogFiles(n, path, currentYear, 0);
      } else if IsLogName(n.name.value) {
        assert LogsOf(n, parent, currentYear).records == LeafLogs(n, path, currentYear);
        LeafLogsAreLogFiles(n, parent, currentYear);
      }
    }
  }

  /** The records of an analysed file. */
  function LeafLogs(n: Node, path: string, currentYear: int): seq<LogRecord> {
    match LogEntry(n, path, currentYear)
    case None => []
    case Some(r) => [r]
  }

  lemma LeafLogsAreLogFiles(n: Node, parent: string, currentYear: int)
    requires n.name.Some? && GoodName(n.name.value) && IsLogName(n.name.value)
    ensures AllLogFiles(LeafLogs(n, Join(parent, n.name.value), currentYear))
  {
    var name := n.name.value;
    var path := Join(parent, name);
    var j :| 0 <= j < |LogExtensions| && IsSuffix(LogExtensions[j], name);
    assert IsSuffix(name, path) by {
      JoinSegment(parent, name);
    }
    SuffixTrans(LogExtensions[j], name, path);
    assert IsLogName(path);
    LogEntrySpec(n, path, currentYear);
  }

  lemma {:induction false} ChildLogsAreLogFiles(n: Node, path: string, currentYear: int, i: nat)
    requires i <= |n.children| && WellNamed(n)
    ensures AllLogFiles(ChildLogs(n, path, currentYear, i).records)
    decreases n, 0, |n.children| - i
  {
    if i < |n.children| && n.children[i].name.Some? {
      var c := n.children[i];
      ChildLogsAreLogFiles(n, path, currentYear, i + 1);
      if !IsDot(c) {
        assert WellNamed(c);
        LogsAreLogFiles(c, path, currentYear);
        var w := LogsOf(c, path, currentYear);
        if !w.aborted {
          var rest := ChildLogs(n, path, currentYear, i + 1).records;
          assert ChildLogs(n, path, currentYear, i).records == w.records + rest;
          AllLogFilesAppend(w.records, rest);
        }
      }
    }
  }

  /** A tree in which no exception can arise: every entry is named and no
      listing fails. */
  predicate Listable(n: Node)
    decreases n
  {
    && n.name.Some? && !n.listingFails
    && forall i :: 0 <= i < |n.children| ==> Listable(n.children[i])
  }

  /** The walk aborts only because of a nameless entry or a failing
      listing. */
  lemma {:induction false} ListableNeverAborts(n: Node, parent: string, currentYear: int)
    requires Listable(n)
    ensures !LogsOf(n, parent, currentYear).aborted
    decreases n, 1
  {
    if n.meta.Some? && n.meta.value.size != 0 && n.meta.value.kind == Dir {
      ListableChildrenNeverAbort(n, Join(parent, n.name.value), currentYear, 0);
    }
  }

  lemma {:induction false} ListableChildrenNeverAbort(n: Node, path: string, currentYear: int, i: nat)
    requires i <= |n.children| && Listable(n)
    ensures !ChildLogs(n, path, currentYear, i).aborted
    decreases n, 0, |n.children| - i
  {
    if i < |n.children| {
      var c := n.children[i];
      assert Listable(c);
      ListableChildrenNeverAbort(n, path, currentYear, i + 1);
      if !IsDot(c) {
        ListableNeverAborts(c, path, currentYear);
      }
    }
  }

  /** The walk leaves at most one record per entry of the tree. */
  lemma {:induction false} LogCount(n: Node, parent: string, currentYear: int)
    ensures |LogsOf(n, parent, currentYear).records| <= Size(n)
    decreases n, 1
  {
    if n.meta.Some? && n.meta.value.size != 0 && n.name.Some? && n.meta.value.kind == Dir {
      ChildLogCount(n, Join(parent, n.name.value), currentYear, 0);
    }
  }

  lemma {:induction false} ChildLogCount(n: Node, path: string, currentYear: int, i: nat)
    requires i <= |n.children|
    ensures |ChildLogs(n, path, currentYear, i).records| <= SizeFrom(n, i)
    decreases n, 0, |n.children| - i
  {
    if i < |n.children| {
      var c := n.children[i];
      ChildLogCount(n, path, currentYear, i + 1);
      LogCount(c, path, currentYear);
    }
  }

  // ---------------------------------------------------------------------
  // Only files are recorded, and every log file is

  /** Every record's path starts with `prefix`. */
  predicate LogsUnder(rs: seq<LogRecord>, prefix: string) {
    forall k :: 0 <= k < |rs| ==> IsPrefix(prefix, rs[k].path)
  }

  lemma LogsUnderAppend(a: seq<LogRecord>, b: seq<LogRecord>, prefix: string)
    requires LogsUnder(a, prefix) && LogsUnder(b, prefix)
    ensures LogsUnder(a + b, prefix)
  {
    forall k | 0 <= k < |a + b| ensures IsPrefix(prefix, (a + b)[k].path) {
      if k >= |a| {
        assert (a + b)[k] == b[k - |a|];
      }
    }
  }

  lemma LogsUnderWeaken(rs: seq<LogRecord>, shorter: string, longer: string)
    requires LogsUnder(rs, longer) && IsPrefix(shorter, longer)
    ensures LogsUnder(rs, shorter)
  {
    forall k | 0 <= k < |rs| ensures IsPrefix(shorter, rs[k].path) {
      PrefixTrans(shorter, longer, rs[k].path);
    }
  }

  /** A directory is never recorded, only what lies below it: every record
      of a named directory's walk has the directory's path followed by "/"
      as a prefix. */
  lemma {:induction false} DirectoryLogsNested(n: Node, parent: string, currentYear: int)
    requires WellNamed(n) && n.name.Some? && n.meta.Some? && n.meta.value.kind == Dir
    ensures LogsUnder(LogsOf(n, parent, currentYear).records, Join(parent, n.name.value) + "/")
    decreases n, 1
  {
    var path := Join(parent, n.name.value);
    assert path != "" && !IsSuffix("/", path) by { JoinShape(parent, n.name.value); }
    if n.meta.value.size != 0 {
      ChildLogsNested(n, path, currentYear, 0);
    }
  }

  lemma {:induction false} ChildLogsNested(n: Node, path: string, currentYear: int, i: nat)
    requires i <= |n.children| && WellNamed(n) && path != "" && !IsSuffix("/", path)
    ensures LogsUnder(ChildLogs(n, path, currentYear, i).records, path + "/")
    decreases n, 0, |n.children| - i
  {
    if i < |n.children| {
      var c := n.children[i];
      var w := EntryLogs(n, path, currentYear, i);
      assert LogsUnder(w.records, path + "/") by {
        if c.name.Some? && !IsDot(c) {
          assert WellNamed(c);
          EntryLogsNested(c, path, currentYear);
        }
      }
      if !w.aborted {
        ChildLogsNested(n, path, currentYear, i + 1);
        LogsUnderAppend(w.records, ChildLogs(n, path, currentYear, i + 1).records, path + "/");
      }
    }
  }

  /** The records of a named entry of a directory's listing lie under the
      directory's path. */
  lemma {:induction false} EntryLogsNested(c: Node, path: string, currentYear: int)
    requires WellNamed(c) && c.name.Some? && path != "" && !IsSuffix("/", path)
    ensures LogsUnder(LogsOf(c, path, currentYear).records, path + "/")
    decreases c, 2
  {
    var name := c.name.value;
    var cpath := Join(path, name);
    assert IsPrefix(path + "/", cpath) by {
      JoinShape(path, name);
      assert cpath[..|path| + 1] == path + "/";
    }
    if c.meta.Some? && c.meta.value.size != 0 {
      if c.meta.value.kind == Dir {
        DirectoryLogsNested(c, path, currentYear);
        assert (cpath + "/")[..|path| + 1] == path + "/";
        LogsUnderWeaken(LogsOf(c, path, currentYear).records, path + "/", cpath + "/");
      } else if IsLogName(name) {
        LogEntrySpec(c, cpath, currentYear);
      }
    }
  }

  /** Reference count: the non-directory entries of the tree whose name
      ends with a log extension. */
  function LogFileCount(n: Node): nat
    decreases n, 1
  {
    (if n.meta.Some? && n.meta.value.kind == NonDir && n.name.Some? && IsLogName(n.name.value) then 1 else 0)
    + LogFileCountFrom(n, 0)
  }

  function LogFileCountFrom(n: Node, i: nat): nat
    requires i <= |n.children|
    decreases n, 0, |n.children| - i
  {
    if i == |n.children| then 0 else LogFileCount(n.children[i]) + LogFileCountFrom(n, i + 1)
  }

  /** In a tree where nothing is skipped and nothing raises, every log file
      is analysed and recorded: the walk does not abort and leaves exactly
      one record per log file. */
  lemma {:induction false} EveryLogFileRecorded(n: Node, parent: string, currentYear: int)
    requires Unobstructed(n) && Listable(n)
    ensures !LogsOf(n, parent, currentYear).aborted
    ensures |LogsOf(n, parent, currentYear).records| == LogFileCount(n)
    decreases n, 1
  {
    var path := Join(parent, n.name.value);
    if n.meta.value.kind == Dir {
      ChildLogFilesRecorded(n, path, currentYear, 0);
    } else {
      assert LogFileCountFrom(n, 0) == 0;
      if IsLogName(n.name.value) {
        UnobstructedFileLogged(n, path, currentYear);
      }
    }
  }

  /** The entry of a file whose metadata formats is always built. */
  lemma UnobstructedFileLogged(n: Node, path: string, currentYear: int)
    requires Unobstructed(n)
    ensures |LeafLogs(n, path, currentYear)| == 1
  {
    LogEntrySpec(n, path, currentYear);
  }

  lemma {:induction false} ChildLogFilesRecorded(n: Node, path: string, currentYear: int, i: nat)
    requires i <= |n.children| && Unobstructed(n) && Listable(n)
    ensures !ChildLogs(n, path, currentYear, i).aborted
    ensures |ChildLogs(n, path, currentYear, i).records| == LogFileCountFrom(n, i)
    decreases n, 0, |n.children| - i
  {
    if i < |n.children| {
      var c := n.children[i];
      assert !IsDot(c) && Unobstructed(c) && Listable(c);
      EveryLogFileRecorded(c, path, currentYear);
      ChildLogFilesRecorded(n, path, currentYear, i + 1);
    }
  }

  /** `extract_logs` catches nothing, so a directory whose listing raises
      aborts the walk, whatever its entries give (the network walk instead
      catches the exception inside the directory). */
  lemma FailingListingAborts(n: Node, parent: string, currentYear: int)
    requires n.name.Some? && n.meta.Some? && n.meta.value.size != 0 && n.meta.value.kind == Dir
    requires n.listingFails
    ensures LogsOf(n, parent, currentYear).aborted
  {
    FailingListingAbortsFrom(n, Join(parent, n.name.value), currentYear, 0);
  }

  lemma {:induction false} FailingListingAbortsFrom(n: Node, path: string, currentYear: int, i: nat)
    requires i <= |n.children| && n.listingFails
    ensures ChildLogs(n, path, currentYear, i).aborted
    decreases |n.children| - i
  {
    if i < |n.children| {
      FailingListingAbortsFrom(n, path, currentYear, i + 1);
    }
  }
}
