/** The generic file lister (`extract_files`): a pre-order walk that
    appends one record per entry with metadata and a name to a shared
    result list, recursing into directories and skipping "." and "..". */
module FileLister {
  import opened Base
  import opened Text
  import opened Timestamps
  import opened FsTree

  datatype FileRecord = FileRecord(
    path: string,
    size: int,
    createdTime: string,
    modifiedTime: string,
    accessedTime: string,
    kind: string)

  /** The record dict built for an entry; formatting a timestamp may raise,
      and then nothing is built. */
  function MakeRecord(path: string, meta: Meta): Result<FileRecord> {
    match (FormatTimestamp(meta.crtime), FormatTimestamp(meta.mtime), FormatTimestamp(meta.atime))
    case (Ok(c), Ok(m), Ok(a)) =>
      Ok(FileRecord(path, meta.size, c, m, a, if meta.kind == Dir then "Directory" else "File"))
    case _ => Error
  }

  /** A record is built exactly when all three timestamps can be formatted;
      it carries the path, the size, the three formatted timestamps, and the
      type "Directory" for a directory and "File" for anything else. */
  lemma MakeRecordSpec(path: string, meta: Meta)
    ensures var r := MakeRecord(path, meta);
      && (r.Ok? <==>
        FormatTimestamp(meta.crtime).Ok? && FormatTimestamp(meta.mtime).Ok? && FormatTimestamp(meta.atime).Ok?)
      && (r.Ok? ==>
        && r.value.path == path && r.value.size == meta.size
        && (r.value.kind == "Directory" <==> meta.kind == Dir)
        && (r.value.kind == "File" <==> meta.kind == NonDir)
        && Ok(r.value.createdTime) == FormatTimestamp(meta.crtime)
        && Ok(r.value.modifiedTime) == FormatTimestamp(meta.mtime)
        && Ok(r.value.accessedTime) == FormatTimestamp(meta.atime))
  {
  }

  /** The records `extract_files(n, parent)` appends, in order. */
  function FileRecords(n: Node, parent: string): seq<FileRecord>
    decreases n, 1
  {
    if n.meta.None? || n.name.None? then []
    else
      var path := Join(parent, n.name.value);
      match MakeRecord(path, n.meta.value)
      case Error => []
      case Ok(rec) => [rec] + (if n.meta.value.kind == Dir then ChildRecords(n, path, 0) else [])
  }

  /** The records of the listing of `n` from its `i`-th yielded entry on: a
      nameless entry raises at the dot test, which ends the listing. */
  function ChildRecords(n: Node, path: string, i: nat): seq<FileRecord>
    requires i <= |n.children|
    decreases n, 0, |n.children| - i
  {
    if i == |n.children| || n.children[i].name.None? then []
    else EntryRecords(n, path, i) + ChildRecords(n, path, i + 1)
  }

  /** The records of the `i`-th yielded entry alone: none for "." and "..". */
  function EntryRecords(n: Node, path: string, i: nat): seq<FileRecord>
    requires i < |n.children|
    decreases n, 0, 0
  {
    var c := n.children[i];
    if IsDot(c) then [] else FileRecords(c, path)
  }

  /** `extract_files(n, parent, results)`: appends the records of the walk
      from `n` to `results`, keeping everything gathered before. */
  method ExtractFiles(n: Node, parent: string, results: seq<FileRecord>) returns (out: seq<FileRecord>)
    ensures out == results + FileRecords(n, parent)
    decreases n, 1
  {
    if n.meta.None? || n.name.None? {
      return results;
    }
    var path := Join(parent, n.name.value);
    var rec := MakeRecord(path, n.meta.value);
    if rec.Error? {
      return results;
    }
    out := results + [rec.value];
    if n.meta.value.kind == Dir {
      out := ExtractListing(n, path, out);
      AppendAssoc(results, [rec.value], ChildRecords(n, path, 0));
    }
  }

  /** The loop over a directory's listing in `extract_files`: recurses into
      every named entry other than "." and ".."; the `AttributeError` a
      nameless entry raises is caught and ends the loop. */
  method ExtractListing(n: Node, path: string, results: seq<FileRecord>) returns (out: seq<FileRecord>)
    ensures out == results + ChildRecords(n, path, 0)
    decreases n, 0, 1
  {
    out := results;
    var i := 0;
    while i < |n.children| && n.children[i].name.Some?
      invariant 0 <= i <= |n.children|
      invariant results + ChildRecords(n, path, 0) == out + ChildRecords(n, path, i)
      decreases |n.children| - i
    {
      ghost var before := out;
      out := ExtractEntry(n, path, i, out);
      AppendAssoc(before, EntryRecords(n, path, i), ChildRecords(n, path, i + 1));
      i := i + 1;
    }
  }

  /** One pass of the listing loop, for the named entry at `i`. */
  method ExtractEntry(n: Node, path: string, i: nat, results: seq<FileRecord>) returns (out: seq<FileRecord>)
    requires i < |n.children| && n.children[i].name.Some?
    ensures out == results + EntryRecords(n, path, i)
    decreases n, 0, 0
  {
    var c := n.children[i];
    if IsDot(c) {
      return results;
    }
    out := ExtractFiles(c, path, results);
  }

  /** An entry is listed exactly when it has metadata and a name and its
      timestamps can be formatted; its own record then comes first (before
      any descendant's), with the joined path, the size unchanged, and type
      "Directory" exactly for directories. */
  lemma OwnRecordFirst(n: Node, parent: string)
    ensures FileRecords(n, parent) != [] <==>
      && n.meta.Some? && n.name.Some?
      && MakeRecord(Join(parent, n.name.value), n.meta.value).Ok?
    ensures FileRecords(n, parent) != [] ==>
      var r := FileRecords(n, parent)[0];
      && r.path == Join(parent, n.name.value)
      && r.size == n.meta.value.size
      && (r.kind == "Directory" <==> n.meta.value.kind == Dir)
  {
    if n.meta.Some? && n.name.Some? {
      MakeRecordSpec(Join(parent, n.name.value), n.meta.value);
    }
  }

  /** A tree with nothing that makes the walk skip or stop: every entry has
      metadata, a name and formattable timestamps, listings do not fail,
      yield no "." or "..", and only directories have children. */
  predicate Complete(n: Node)
    decreases n
  {
    && n.meta.Some? && n.name.Some?
    && MakeRecord("", n.meta.value).Ok?
    && !n.listingFails
    && (n.meta.value.kind == NonDir ==> n.children == [])
    && forall i :: 0 <= i < |n.children| ==> !IsDot(n.children[i]) && Complete(n.children[i])
  }

  /** At most one record per entry of the tree, and exactly one per entry
      when the tree is complete. */
  lemma {:induction false} RecordCount(n: Node, parent: string)
    ensures |FileRecords(n, parent)| <= Size(n)
    ensures Complete(n) ==> |FileRecords(n, parent)| == Size(n)
    decreases n, 1
  {
    if n.meta.Some? && n.name.Some? {
      var path := Join(parent, n.name.value);
      MakeRecordSpec(path, n.meta.value);
      MakeRecordSpec("", n.meta.value);
      if MakeRecord(path, n.meta.value).Ok? {
        ChildRecordCount(n, path, 0);
        if n.meta.value.kind == NonDir && Complete(n) {
          assert SizeFrom(n, 0) == 0;
        }
      }
    }
  }

  lemma {:induction false} ChildRecordCount(n: Node, path: string, i: nat)
    requires i <= |n.children|
    ensures |ChildRecords(n, path, i)| <= SizeFrom(n, i)
    ensures Complete(n) ==> |ChildRecords(n, path, i)| == SizeFrom(n, i)
    decreases n, 0, |n.children| - i
  {
    if i < |n.children| {
      var c := n.children[i];
      ChildRecordCount(n, path, i + 1);
      RecordCount(c, path);
      if Complete(n) {
        assert !IsDot(c) && Complete(c);
      }
    }
  }

  /** Every record's path starts with `prefix`. */
  predicate AllUnder(rs: seq<FileRecord>, prefix: string) {
    forall k :: 0 <= k < |rs| ==> IsPrefix(prefix, rs[k].path)
  }

  /** No record's last path segment is "." or "..". */
  predicate NoDotSegments(rs: seq<FileRecord>) {
    forall k :: 0 <= k < |rs| ==> !IsDotName(LastSegment(rs[k].path))
  }

  /** The walk is pre-order and follows the tree: with good names every
      record after the first lies under the first one's path (its path
      starts with that path followed by "/"), and no record's last segment
      is "." or ".." (those entries are never visited). */
  lemma {:induction false} RecordsNested(n: Node, parent: string)
    requires WellNamed(n)
    requires n.name.Some? ==> !IsDotName(n.name.value)
    ensures FileRecords(n, parent) != [] ==>
      AllUnder(FileRecords(n, parent)[1..], FileRecords(n, parent)[0].path + "/")
    ensures NoDotSegments(FileRecords(n, parent))
    decreases n, 1
  {
    var rs := FileRecords(n, parent);
    if n.meta.Some? && n.name.Some? {
      var name := n.name.value;
      var path := Join(parent, name);
      var rec := MakeRecord(path, n.meta.value);
      if rec.Ok? {
        assert rec.value.path == path by {
          MakeRecordSpec(path, n.meta.value);
        }
        assert LastSegment(path) == name && path != "" && !IsSuffix("/", path) by {
          JoinShape(parent, name);
        }
        var tail := if n.meta.value.kind == Dir then ChildRecords(n, path, 0) else [];
        assert rs == [rec.value] + tail;
        if n.meta.value.kind == Dir {
          ChildrenNested(n, path, 0);
        }
        assert rs[1..] == tail;
        NoDotCons(rs);
      }
    }
  }

  lemma NoDotCons(rs: seq<FileRecord>)
    requires rs != [] && !IsDotName(LastSegment(rs[0].path)) && NoDotSegments(rs[1..])
    ensures NoDotSegments(rs)
  {
    forall k | 0 < k < |rs| ensures !IsDotName(LastSegment(rs[k].path)) {
      assert rs[k] == rs[1..][k - 1];
    }
  }

  lemma {:induction false} ChildrenNested(n: Node, path: string, i: nat)
    requires i <= |n.children|
    requires WellNamed(n) && path != "" && !IsSuffix("/", path)
    ensures AllUnder(ChildRecords(n, path, i), path + "/")
    ensures NoDotSegments(ChildRecords(n, path, i))
    decreases n, 0, |n.children| - i
  {
    if i < |n.children| && n.children[i].name.Some? {
      var c := n.children[i];
      ChildrenNested(n, path, i + 1);
      var rest := ChildRecords(n, path, i + 1);
      if !IsDot(c) {
        ChildUnder(n, i, path);
        var own := FileRecords(c, path);
        assert ChildRecords(n, path, i) == own + rest;
      } else {
        assert ChildRecords(n, path, i) == rest;
      }
    }
  }

  /** The records of a visited entry of the listing lie under the
      directory's path. */
  lemma {:induction false} ChildUnder(n: Node, i: nat, path: string)
    requires i < |n.children| && n.children[i].name.Some? && !IsDot(n.children[i])
    requires WellNamed(n) && path != "" && !IsSuffix("/", path)
    ensures AllUnder(FileRecords(n.children[i], path), path + "/")
    ensures NoDotSegments(FileRecords(n.children[i], path))
    decreases n, 0, 0
  {
    var c := n.children[i];
    assert WellNamed(c);
    RecordsNested(c, path);
    var own := FileRecords(c, path);
    if own != [] {
      JoinShape(path, c.name.value);
      var cpath := own[0].path;
      assert cpath == path + "/" + c.name.value;
      assert IsPrefix(path + "/", cpath + "/");
      AllUnderWeaken(own[1..], path + "/", cpath + "/");
      AllUnderCons(own, path + "/");
    }
  }

  lemma AllUnderWeaken(rs: seq<FileRecord>, shorter: string, longer: string)
    requires AllUnder(rs, longer) && IsPrefix(shorter, longer)
    ensures AllUnder(rs, shorter)
  {
    forall k | 0 <= k < |rs| ensures IsPrefix(shorter, rs[k].path) {
      PrefixTrans(shorter, longer, rs[k].path);
    }
  }

  lemma AllUnderCons(rs: seq<FileRecord>, prefix: string)
    requires rs != [] && IsPrefix(prefix, rs[0].path) && AllUnder(rs[1..], prefix)
    ensures AllUnder(rs, prefix)
  {
    forall k | 0 < k < |rs| ensures IsPrefix(prefix, rs[k].path) {
      assert rs[k] == rs[1..][k - 1];
    }
  }
}
