/** What the registry analyser does with the walks: parsing one extracted
    hive (`parse_registry_file`), collecting every hive of an image and
    merging their statistics (`process_registry_files`), and flattening the
    entries into one CSV row per value (`save_to_csv`). */
module RegistryReport {
  import opened Base
  import opened Text
  import FsTree
  import opened RegistryWalk

  // ---------------------------------------------------------------------
  // parse_registry_file

  /** `parse_registry_file` for the file `file` (its base name), whose hive
      the registry library opens (`Some`) or fails to open (`None`). */
  function ParseSpec(file: string, hive: Option<Key>, now: int): Walk {
    match hive
    case None => Walk([], NoStats)
    case Some(root) => TraverseSpec(root, 0, file, now, Walk([], NoStats))
  }

  /** `parse_registry_file(file_path)`: a fresh parser walks the hive from
      its root at depth 0. */
  method ParseRegistryFile(filePath: string, hive: Option<Key>, now: int) returns (data: seq<Entry>, stats: Stats)
    ensures Walk(data, stats) == ParseSpec(FsTree.LastSegment(filePath), hive, now)
  {
    if hive.None? {
      return [], NoStats;
    }
    var parser := new RegistryParser(FsTree.LastSegment(filePath), now);
    parser.Traverse(hive.value, 0);
    data := parser.registryData;
    stats := Stats(parser.keyDepths, parser.valueTypes, parser.operations, parser.keyFrequencies);
  }

  /** A parsed hive: every entry names the file; there is an entry exactly
      when the root's subkeys can be listed, and then the first is the
      root's at depth 0 and every other is deeper; the operation summaries
      never decrease; `key_depths` counts the keys reached at each depth;
      and when every key lists, there is one entry per key. */
  lemma ParsedHive(file: string, root: Key, now: int)
    ensures var r := ParseSpec(file, Some(root), now);
      && (forall k :: 0 <= k < |r.entries| ==> r.entries[k].registryFile == file)
      && (r.entries != [] <==> !root.subkeysFail)
      && (r.entries != [] ==> r.entries[0].keyPath == root.path && r.entries[0].keyDepth == 0)
      && (forall k :: 0 < k < |r.entries| ==> r.entries[k].keyDepth > 0)
      && Chronological(r)
      && (forall d :: Get(r.stats.keyDepths, d) == Reached(root, 0, d))
      && (Listable(root) ==> |r.entries| == KeyCount(root))
  {
    var w := Walk([], NoStats);
    var r := TraverseSpec(root, 0, file, now, w);
    TraversePreorder(root, 0, file, now, w);
    TraverseChronological(root, 0, file, now, w);
    forall d ensures Get(r.stats.keyDepths, d) == Reached(root, 0, d) {
      DepthCounts(root, 0, file, now, w, d);
    }
    if Listable(root) {
      EntryCount(root, 0, file, now, w);
    }
  }

  // ---------------------------------------------------------------------
  // Merging statistics

  /** `combined[key].update(statistics[key])` for the four counters. */
  function Merge(a: Stats, b: Stats): (r: Stats)
    ensures forall d :: Get(r.keyDepths, d) == Get(a.keyDepths, d) + Get(b.keyDepths, d)
    ensures forall l :: Get(r.valueTypes, l) == Get(a.valueTypes, l) + Get(b.valueTypes, l)
    ensures forall l :: Get(r.operations, l) == Get(a.operations, l) + Get(b.operations, l)
    ensures forall p :: Get(r.keyFrequencies, p) == Get(a.keyFrequencies, p) + Get(b.keyFrequencies, p)
  {
    Stats(Add(a.keyDepths, b.keyDepths), Add(a.valueTypes, b.valueTypes),
          Add(a.operations, b.operations), Add(a.keyFrequencies, b.keyFrequencies))
  }

  /** Merging is commutative and associative, with the empty statistics as
      identity. */
  lemma MergeLaws(a: Stats, b: Stats, c: Stats)
    ensures Merge(a, b) == Merge(b, a)
    ensures Merge(Merge(a, b), c) == Merge(a, Merge(b, c))
    ensures Merge(a, NoStats) == a
  {
    MergeCommutes(a, b);
    MergeAssociates(a, b, c);
    MergeIdentity(a);
  }

  lemma MergeCommutes(a: Stats, b: Stats)
    ensures Merge(a, b) == Merge(b, a)
  {
    AddLaws(a.keyDepths, b.keyDepths, map[]);
    AddLaws(a.valueTypes, b.valueTypes, map[]);
    AddLaws(a.operations, b.operations, map[]);
    AddLaws(a.keyFrequencies, b.keyFrequencies, map[]);
  }

  lemma MergeAssociates(a: Stats, b: Stats, c: Stats)
    ensures Merge(Merge(a, b), c) == Merge(a, Merge(b, c))
  {
    AddLaws(a.keyDepths, b.keyDepths, c.keyDepths);
    AddLaws(a.valueTypes, b.valueTypes, c.valueTypes);
    AddLaws(a.operations, b.operations, c.operations);
    AddLaws(a.keyFrequencies, b.keyFrequencies, c.keyFrequencies);
  }

  lemma MergeIdentity(a: Stats)
    ensures Merge(a, NoStats) == a
  {
    AddLaws(a.keyDepths, map[], map[]);
    AddLaws(a.valueTypes, map[], map[]);
    AddLaws(a.operations, map[], map[]);
    AddLaws(a.keyFrequencies, map[], map[]);
  }

  /** The combined statistics do not depend on the order the hives are
      merged in. */
  lemma MergeOrderFree(acc: Stats, x: Stats, y: Stats)
    ensures Merge(Merge(acc, x), y) == Merge(Merge(acc, y), x)
  {
    MergeAssociates(acc, x, y);
    MergeAssociates(acc, y, x);
    MergeCommutes(x, y);
  }

  // ---------------------------------------------------------------------
  // process_registry_files

  /** The image, as far as the analyser sees it: the names listed in each
      directory that can be opened, and for each file that can be
      extracted, its hive (`None` when the registry library cannot open the
      copy). */
  datatype Image = Image(dirs: map<string, seq<string>>, files: map<string, Option<Key>>)

  const RegistryPaths: seq<string> := [
    "/Windows/System32/config/SYSTEM",
    "/Windows/System32/config/SOFTWARE",
    "/Windows/System32/config/SAM",
    "/Windows/System32/config/SECURITY",
    "/Users/*/NTUSER.DAT"
  ]

  /** One hive to extract: where it is in the image and where its copy
      goes. */
  datatype Target = Target(source: string, output: string)

  /** A path without a wildcard is copied to "extracted_" and its base
      name. */
  function PlainTarget(regPath: string): Target {
    Target(regPath, "extracted_" + FsTree.LastSegment(regPath))
  }

  /** The directory before the first "*" and the file pattern after the
      last "/"; `rindex` raises when there is no "/". */
  function WildcardParts(regPath: string): Option<(string, string)>
    requires '*' in regPath
  {
    var star := Find(regPath, '*');
    var slash := RFind(regPath, '/');
    if slash < 0 then None else Some((regPath[..star], regPath[slash + 1..]))
  }

  /** The hive of user `name` and the file its copy goes to. */
  function UserTarget(base: string, name: string, pattern: string): Target {
    Target(base + name + "/" + pattern, "extracted_" + name + "_" + pattern)
  }

  /** `extract_registry_file` then `parse_registry_file` and the merge; a
      file that cannot be extracted changes nothing. */
  function ProcessTarget(t: Target, img: Image, now: int, acc: Walk): Walk {
    if t.source !in img.files then acc
    else
      var p := ParseSpec(FsTree.LastSegment(t.output), img.files[t.source], now);
      Walk(acc.entries + p.entries, Merge(acc.stats, p.stats))
  }

  /** The loop over the entries of the users' directory, "." and ".."
      skipped. */
  function ProcessUsers(names: seq<string>, base: string, pattern: string, img: Image, now: int, acc: Walk): Walk
  {
    if names == [] then acc
    else
      var next := if names[0] == "." || names[0] == ".." then acc
                  else ProcessTarget(UserTarget(base, names[0], pattern), img, now, acc);
      ProcessUsers(names[1..], base, pattern, img, now, next)
  }

  /** One element of `registry_paths`; a wildcard path whose parts cannot
      be found or whose directory cannot be opened changes nothing. */
  function ProcessPath(regPath: string, img: Image, now: int, acc: Walk): Walk {
    if '*' in regPath then
      match WildcardParts(regPath)
      case None => acc
      case Some((base, pattern)) =>
        if base in img.dirs then ProcessUsers(img.dirs[base], base, pattern, img, now, acc) else acc
    else ProcessTarget(PlainTarget(regPath), img, now, acc)
  }

  function ProcessPaths(paths: seq<string>, img: Image, now: int, acc: Walk): Walk {
    if paths == [] then acc else ProcessPaths(paths[1..], img, now, ProcessPath(paths[0], img, now, acc))
  }

  /** `all_registry_data` and `combined_statistics` at the end of
      `process_registry_files`. */
  function ProcessSpec(img: Image, now: int): Walk {
    ProcessPaths(RegistryPaths, img, now, Walk([], NoStats))
  }

  /** Extracting, parsing and merging one hive. */
  method ProcessHive(t: Target, img: Image, now: int, allData: seq<Entry>, combined: Stats)
    returns (allData': seq<Entry>, combined': Stats)
    ensures Walk(allData', combined') == ProcessTarget(t, img, now, Walk(allData, combined))
  {
    allData', combined' := allData, combined;
    if t.source in img.files {
      var data, stats := ParseRegistryFile(t.output, img.files[t.source], now);
      allData' := allData + data;
      combined' := Merge(combined, stats);
    }
  }

  /** `process_registry_files(fs)` up to the writing of the reports. */
  method ProcessRegistryFiles(img: Image, now: int) returns (allData: seq<Entry>, combined: Stats)
    ensures Walk(allData, combined) == ProcessSpec(img, now)
  {
    allData, combined := [], NoStats;
    for i := 0 to |RegistryPaths|
      invariant ProcessPaths(RegistryPaths[i..], img, now, Walk(allData, combined)) == ProcessSpec(img, now)
    {
      var regPath := RegistryPaths[i];
      assert RegistryPaths[i..][1..] == RegistryPaths[i + 1..];
      ghost var goal := ProcessPath(regPath, img, now, Walk(allData, combined));
      if '*' in regPath {
        var parts := WildcardParts(regPath);
        if parts.Some? && parts.value.0 in img.dirs {
          var base, pattern := parts.value.0, parts.value.1;
          var names := img.dirs[base];
          for j := 0 to |names|
            invariant ProcessUsers(names[j..], base, pattern, img, now, Walk(allData, combined)) == goal
          {
            assert names[j..][1..] == names[j + 1..];
            if names[j] != "." && names[j] != ".." {
              allData, combined := ProcessHive(UserTarget(base, names[j], pattern), img, now, allData, combined);
            }
          }
        }
      } else {
        allData, combined := ProcessHive(PlainTarget(regPath), img, now, allData, combined);
      }
    }
  }

  /** The wildcard stands for one path segment: for a path made of `base`, "*", "/" and `pattern`
      the parts are `base` and `pattern`, and the hive of user `name` is
      the path with "*" replaced by `name`. */
  lemma WildcardExpansion(base: string, pattern: string, name: string)
    requires '*' !in base && '/' !in pattern
    ensures var regPath := base + "*/" + pattern;
      && '*' in regPath
      && WildcardParts(regPath) == Some((base, pattern))
      && UserTarget(base, name, pattern).source == regPath[..|base|] + name + regPath[|base| + 1..]
  {
    var regPath := base + "*/" + pattern;
    assert regPath[|base|] == '*';
    var star := Find(regPath, '*');
    assert star == |base| by {
      forall i | 0 <= i < |base| ensures regPath[i] != '*' {
        assert regPath[i] == base[i];
      }
    }
    var slash := RFind(regPath, '/');
    assert regPath[|base| + 1] == '/';
    assert slash == |base| + 1 by {
      forall i | |base| + 1 < i < |regPath| ensures regPath[i] != '/' {
        assert regPath[i] == pattern[i - |base| - 2];
      }
    }
    assert regPath[..star] == base;
    assert regPath[slash + 1..] == pattern;
    assert regPath[|base| + 1..] == "/" + pattern;
  }

  /** The users' hives: the last registry path splits into "/Users/" and
      "NTUSER.DAT", and user `name`'s hive is that path with `name` in
      place of "*". */
  lemma UserHiveTargets(name: string)
    ensures '*' in RegistryPaths[4]
    ensures WildcardParts(RegistryPaths[4]) == Some(("/Users/", "NTUSER.DAT"))
    ensures UserTarget("/Users/", name, "NTUSER.DAT").source == RegistryPaths[4][..7] + name + RegistryPaths[4][8..]
  {
    assert RegistryPaths[4] == "/Users/" + "*/" + "NTUSER.DAT";
    WildcardExpansion("/Users/", "NTUSER.DAT", name);
  }

  /** The four system hives have no wildcard. */
  lemma SystemHivesArePlain()
    ensures forall i :: 0 <= i < 4 ==> '*' !in RegistryPaths[i]
  {
    forall i | 0 <= i < 4 ensures '*' !in RegistryPaths[i] {
      var p := RegistryPaths[i];
      forall k | 0 <= k < |p| ensures p[k] != '*' {
      }
    }
  }

  /** An image from which no hive can be extracted yields no data ("No
      registry data was collected") and empty statistics. */
  lemma {:induction false} NothingExtracted(paths: seq<string>, dirs: map<string, seq<string>>, now: int)
    ensures ProcessPaths(paths, Image(dirs, map[]), now, Walk([], NoStats)) == Walk([], NoStats)
  {
    if paths != [] {
      var img := Image(dirs, map[]);
      assert ProcessPath(paths[0], img, now, Walk([], NoStats)) == Walk([], NoStats) by {
        if '*' in paths[0] {
          var parts := WildcardParts(paths[0]);
          if parts.Some? && parts.value.0 in dirs {
            NoUsersExtracted(dirs[parts.value.0], parts.value.0, parts.value.1, dirs, now);
          }
        }
      }
      NothingExtracted(paths[1..], dirs, now);
    }
  }

  lemma {:induction false} NoUsersExtracted(names: seq<string>, base: string, pattern: string, dirs: map<string, seq<string>>, now: int)
    ensures ProcessUsers(names, base, pattern, Image(dirs, map[]), now, Walk([], NoStats)) == Walk([], NoStats)
  {
    if names != [] {
      NoUsersExtracted(names[1..], base, pattern, dirs, now);
    }
  }

  /** Processing only appends: the data gathered before is kept in front. */
  lemma {:induction false} ProcessKeepsData(paths: seq<string>, img: Image, now: int, acc: Walk)
    ensures Extends(acc, ProcessPaths(paths, img, now, acc))
  {
    if paths != [] {
      var next := ProcessPath(paths[0], img, now, acc);
      assert Extends(acc, next) by {
        if '*' in paths[0] {
          var parts := WildcardParts(paths[0]);
          if parts.Some? && parts.value.0 in img.dirs {
            UsersKeepData(img.dirs[parts.value.0], parts.value.0, parts.value.1, img, now, acc);
          }
        }
      }
      ProcessKeepsData(paths[1..], img, now, next);
      ExtendsTrans(acc, next, ProcessPaths(paths[1..], img, now, next));
    }
  }

  lemma {:induction false} UsersKeepData(names: seq<string>, base: string, pattern: string, img: Image, now: int, acc: Walk)
    ensures Extends(acc, ProcessUsers(names, base, pattern, img, now, acc))
  {
    if names != [] {
      var next := if names[0] == "." || names[0] == ".." then acc
                  else ProcessTarget(UserTarget(base, names[0], pattern), img, now, acc);
      UsersKeepData(names[1..], base, pattern, img, now, next);
      ExtendsTrans(acc, next, ProcessUsers(names[1..], base, pattern, img, now, next));
    }
  }

  // ---------------------------------------------------------------------
  // save_to_csv: one row per value

  /** A row of the main CSV file. */
  datatype Row = Row(
    registryFile: string,
    keyPath: string,
    keyDepth: nat,
    lastWriteTime: string,
    numberOfValues: nat,
    numberOfSubkeys: nat,
    valueName: string,
    valueType: string,
    operation: string)

  /** `base_entry` completed with the value fields. */
  function BaseRow(e: Entry, valueName: string, valueType: string, operation: string): Row {
    Row(e.registryFile, e.keyPath, e.keyDepth, e.lastWriteTime, e.numberOfValues, e.numberOfSubkeys,
        valueName, valueType, operation)
  }

  function ValueRow(e: Entry, v: ValueItem): Row {
    BaseRow(e, v.name, v.kind, v.operation)
  }

  /** The rows of one entry: one per value, or one with empty value fields
      for a key without values. */
  function EntryRows(e: Entry): seq<Row> {
    if e.values == [] then [BaseRow(e, "", "", "")]
    else seq(|e.values|, j requires 0 <= j < |e.values| => ValueRow(e, e.values[j]))
  }

  /** `flattened_data` after the loop over `data`. */
  function Flatten(es: seq<Entry>): seq<Row> {
    if es == [] then [] else Flatten(es[..|es| - 1]) + EntryRows(es[|es| - 1])
  }

  /** The number of rows each entry contributes: `max(1, len(values))`. */
  function RowCount(e: Entry): nat {
    if |e.values| < 1 then 1 else |e.values|
  }

  function TotalRows(es: seq<Entry>): nat {
    if es == [] then 0 else TotalRows(es[..|es| - 1]) + RowCount(es[|es| - 1])
  }

  /** An entry gives `max(1, len(values))` rows, each copying its six base
      fields; with values, row `j` carries value `j`'s name, type and
      operation; without, the one row has empty value fields. */
  lemma EntryRowsSpec(e: Entry)
    ensures |EntryRows(e)| == RowCount(e)
    ensures forall k :: 0 <= k < |EntryRows(e)| ==>
      var r := EntryRows(e)[k];
      && r.registryFile == e.registryFile && r.keyPath == e.keyPath && r.keyDepth == e.keyDepth
      && r.lastWriteTime == e.lastWriteTime && r.numberOfValues == e.numberOfValues
      && r.numberOfSubkeys == e.numberOfSubkeys
    ensures forall j :: 0 <= j < |e.values| ==>
      EntryRows(e)[j].valueName == e.values[j].name && EntryRows(e)[j].valueType == e.values[j].kind
      && EntryRows(e)[j].operation == e.values[j].operation
    ensures e.values == [] ==> EntryRows(e) == [Row(e.registryFile, e.keyPath, e.keyDepth, e.lastWriteTime,
                                                    e.numberOfValues, e.numberOfSubkeys, "", "", "")]
  {
  }

  /** Flattening works entry by entry. */
  lemma {:induction false} FlattenAppend(a: seq<Entry>, b: seq<Entry>)
    ensures Flatten(a + b) == Flatten(a) + Flatten(b)
    decreases |b|
  {
    if b == [] {
      assert a + b == a;
    } else {
      var b' := b[..|b| - 1];
      assert (a + b)[..|a + b| - 1] == a + b';
      FlattenAppend(a, b');
    }
  }

  /** The CSV has one row per value, and one per key without values. */
  lemma {:induction false} FlattenCount(es: seq<Entry>)
    ensures |Flatten(es)| == TotalRows(es)
  {
    if es != [] {
      var last := es[|es| - 1];
      FlattenCount(es[..|es| - 1]);
      assert |EntryRows(last)| == RowCount(last) by {
        EntryRowsSpec(last);
      }
    }
  }

  /** The flattening loop of `save_to_csv`. */
  method FlattenRows(data: seq<Entry>) returns (rows: seq<Row>)
    ensures rows == Flatten(data)
  {
    rows := [];
    for i := 0 to |data|
      invariant rows == Flatten(data[..i])
    {
      var e := data[i];
      assert data[..i + 1][..i] == data[..i];
      if e.values != [] {
        ghost var before := rows;
        for j := 0 to |e.values|
          invariant rows == before + EntryRows(e)[..j]
        {
          rows := rows + [ValueRow(e, e.values[j])];
          assert EntryRows(e)[..j + 1] == EntryRows(e)[..j] + [ValueRow(e, e.values[j])];
        }
        assert EntryRows(e)[..|e.values|] == EntryRows(e);
      } else {
        rows := rows + [BaseRow(e, "", "", "")];
      }
    }
    assert data[..|data|] == data;
  }
}
