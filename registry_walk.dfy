/** `parse_registry_file`'s traversal (`traverse_registry`): a pre-order
    walk over a hive's keys that appends one entry per key to
    `registry_data` and counts, in four counters held in `statistics`, the
    depths and paths of the keys visited and the types and operations of the
    values read. */
module RegistryWalk {
  import opened Base
  import opened Text
  import opened Timestamps
  import opened RegistryRules

  /** A value of a key: `value.value()` may raise (`Error`). */
  datatype RegValue = RegValue(name: string, data: Result<Data>)

  /** A key as the registry library presents it. When `subkeysFail`,
      `key.subkeys()` raises. */
  datatype Key = Key(
    path: string,
    timestamp: Option<Instant>,
    values: seq<RegValue>,
    subkeys: seq<Key>,
    subkeysFail: bool)

  /** One element of an entry's `values` list; `data` is `None` for a value
      that could not be read. */
  datatype ValueItem = ValueItem(name: string, data: Option<Data>, kind: string, operation: string)

  /** The entry dict of a key. */
  datatype Entry = Entry(
    registryFile: string,
    keyPath: string,
    keyDepth: nat,
    lastWriteTime: string,
    values: seq<ValueItem>,
    numberOfValues: nat,
    numberOfSubkeys: nat,
    operationSummary: Counter<string>)

  /** The four counters of `statistics`. */
  datatype Stats = Stats(
    keyDepths: Counter<nat>,
    valueTypes: Counter<string>,
    operations: Counter<string>,
    keyFrequencies: Counter<string>)

  const NoStats: Stats := Stats(map[], map[], map[], map[])

  /** `registry_data` and `statistics` together. */
  datatype Walk = Walk(entries: seq<Entry>, stats: Stats)

  /** The `values` element for one value: a value that reads is labelled
      with its type and operation, one that raises with "ERROR" twice. */
  function Item(v: RegValue, timestamp: Option<Instant>, now: int): (it: ValueItem)
    ensures it.name == v.name
    ensures it.data.Some? <==> v.data.Ok?
    ensures it.kind == ErrorLabel <==> v.data.Error?
    ensures it.operation == ErrorLabel <==> v.data.Error?
    ensures v.data.Ok? ==>
      it.kind == ValueType(v.data.value) && it.operation == OperationType(timestamp, now, v.data.value)
  {
    match v.data
    case Ok(d) =>
      ValueTypeSpec(d);
      OperationTypeSpec(timestamp, now, d);
      ValueItem(v.name, Some(d), ValueType(d), OperationType(timestamp, now, d))
    case Error => ValueItem(v.name, None, ErrorLabel, ErrorLabel)
  }

  function Items(vs: seq<RegValue>, timestamp: Option<Instant>, now: int): (items: seq<ValueItem>)
    ensures |items| == |vs|
  {
    seq(|vs|, j requires 0 <= j < |vs| => Item(vs[j], timestamp, now))
  }

  /** The label of an item a counter tallies: its operation or its type. */
  function Label(it: ValueItem, operation: bool): string {
    if operation then it.operation else it.kind
  }

  /** `value_types` (or `operations`) after the loop over `items`: only the
      values that were read are counted. */
  function Tally(c: Counter<string>, items: seq<ValueItem>, operation: bool): Counter<string> {
    if items == [] then c
    else
      var t := Tally(c, items[..|items| - 1], operation);
      var it := items[|items| - 1];
      if it.data.Some? then Inc(t, Label(it, operation)) else t
  }

  /** Reference definition: the labels of the values read, in order. */
  function ReadLabels(items: seq<ValueItem>, operation: bool): seq<string> {
    if items == [] then []
    else (if items[0].data.Some? then [Label(items[0], operation)] else []) + ReadLabels(items[1..], operation)
  }

  lemma {:induction false} ReadLabelsSnoc(items: seq<ValueItem>, it: ValueItem, operation: bool)
    ensures ReadLabels(items + [it], operation)
         == ReadLabels(items, operation) + (if it.data.Some? then [Label(it, operation)] else [])
  {
    if items == [] {
      assert [] + [it] == [it];
      assert [it][1..] == [];
    } else {
      assert (items + [it])[1..] == items[1..] + [it];
      ReadLabelsSnoc(items[1..], it, operation);
    }
  }

  /** The counter grows, label by label, by the labels of the values that
      were read. */
  lemma {:induction false} TallyCounts(c: Counter<string>, items: seq<ValueItem>, operation: bool)
    ensures forall l :: Get(Tally(c, items, operation), l) == Get(c, l) + multiset(ReadLabels(items, operation))[l]
  {
    if items != [] {
      var p := items[..|items| - 1];
      var it := items[|items| - 1];
      TallyCounts(c, p, operation);
      assert items == p + [it];
      ReadLabelsSnoc(p, it, operation);
    }
  }

  /** Values that could not be read are never counted: "ERROR" is neither a
      value type nor an operation in the statistics. */
  lemma {:induction false} ErrorNeverCounted(vs: seq<RegValue>, timestamp: Option<Instant>, now: int, operation: bool)
    ensures ErrorLabel !in ReadLabels(Items(vs, timestamp, now), operation)
  {
    if vs != [] {
      var items := Items(vs, timestamp, now);
      ErrorNeverCounted(vs[1..], timestamp, now, operation);
      assert items[1..] == Items(vs[1..], timestamp, now);
    }
  }

  /** `{op: operations[op] for op in [...]}` */
  function Summary(ops: Counter<string>): (r: Counter<string>)
    ensures r.Keys == SummaryKeys
    ensures forall op :: op in r ==> r[op] == Get(ops, op)
  {
    map["MODIFY" := Get(ops, "MODIFY"), "BINARY_UPDATE" := Get(ops, "BINARY_UPDATE"),
        "ACCESS" := Get(ops, "ACCESS"), "UNKNOWN" := Get(ops, "UNKNOWN")]
  }

  /** The counters once a key has been visited and its values read. */
  function VisitStats(key: Key, depth: nat, now: int, s: Stats): Stats {
    var items := Items(key.values, key.timestamp, now);
    Stats(
      Inc(s.keyDepths, depth),
      Tally(s.valueTypes, items, false),
      Tally(s.operations, items, true),
      Inc(s.keyFrequencies, key.path))
  }

  /** The entry of a key, with the operation counts `ops` at that moment. */
  function KeyEntry(key: Key, depth: nat, file: string, now: int, ops: Counter<string>): Entry {
    var items := Items(key.values, key.timestamp, now);
    Entry(file, key.path, depth, FormatInstant(key.timestamp), items, |items|, |key.subkeys|, Summary(ops))
  }

  /** `traverse_registry(key, depth)` on the state `w`: the counters are
      updated first; when listing the subkeys raises, the exception is
      caught and neither the entry nor the subkeys follow. */
  function TraverseSpec(key: Key, depth: nat, file: string, now: int, w: Walk): Walk
    decreases key, 1
  {
    var s := VisitStats(key, depth, now, w.stats);
    if key.subkeysFail then Walk(w.entries, s)
    else SubkeysFrom(key, 0, depth, file, now, Walk(w.entries + [KeyEntry(key, depth, file, now, s.operations)], s))
  }

  /** The subkeys of `key` from the `i`-th on, one level deeper. */
  function SubkeysFrom(key: Key, i: nat, depth: nat, file: string, now: int, w: Walk): Walk
    requires i <= |key.subkeys|
    decreases key, 0, |key.subkeys| - i
  {
    if i == |key.subkeys| then w
    else SubkeysFrom(key, i + 1, depth, file, now, TraverseSpec(key.subkeys[i], depth + 1, file, now, w))
  }

  // ---------------------------------------------------------------------
  // What one visit records

  /** Visiting a key counts its depth and its path once, and the types and
      operations of exactly the values that could be read; "ERROR" is
      counted in neither (`VisitSkipsErrors`). */
  lemma VisitCounts(key: Key, depth: nat, now: int, s: Stats)
    ensures var v := VisitStats(key, depth, now, s);
      var items := Items(key.values, key.timestamp, now);
      && (forall d :: Get(v.keyDepths, d) == Get(s.keyDepths, d) + (if d == depth then 1 else 0))
      && (forall p :: Get(v.keyFrequencies, p) == Get(s.keyFrequencies, p) + (if p == key.path then 1 else 0))
      && (forall l :: Get(v.valueTypes, l) == Get(s.valueTypes, l) + multiset(ReadLabels(items, false))[l])
      && (forall l :: Get(v.operations, l) == Get(s.operations, l) + multiset(ReadLabels(items, true))[l])
  {
    var items := Items(key.values, key.timestamp, now);
    TallyCounts(s.valueTypes, items, false);
    TallyCounts(s.operations, items, true);
  }

  /** "ERROR" is counted neither as a value type nor as an operation. */
  lemma VisitSkipsErrors(key: Key, depth: nat, now: int, s: Stats)
    ensures var v := VisitStats(key, depth, now, s);
      && Get(v.valueTypes, ErrorLabel) == Get(s.valueTypes, ErrorLabel)
      && Get(v.operations, ErrorLabel) == Get(s.operations, ErrorLabel)
  {
    var items := Items(key.values, key.timestamp, now);
    TallyCounts(s.valueTypes, items, false);
    TallyCounts(s.operations, items, true);
    ErrorNeverCounted(key.values, key.timestamp, now, false);
    ErrorNeverCounted(key.values, key.timestamp, now, true);
  }

  /** The four operation labels an entry summarises. */
  const SummaryKeys: set<string> := {"MODIFY", "BINARY_UPDATE", "ACCESS", "UNKNOWN"}

  /** A key's entry: its path, depth and file; one item per value, in
      order, "ERROR" exactly for the values that could not be read; and
      the number of subkeys. */
  lemma EntryShape(key: Key, depth: nat, file: string, now: int, ops: Counter<string>)
    ensures var e := KeyEntry(key, depth, file, now, ops);
      && e.registryFile == file && e.keyPath == key.path && e.keyDepth == depth
      && e.numberOfValues == |e.values| == |key.values|
      && e.numberOfSubkeys == |key.subkeys|
      && (forall j :: 0 <= j < |e.values| ==>
            e.values[j].name == key.values[j].name
            && (e.values[j].kind == ErrorLabel <==> key.values[j].data.Error?)
            && (e.values[j].operation == ErrorLabel <==> key.values[j].data.Error?))
  {
    var e := KeyEntry(key, depth, file, now, ops);
    forall j | 0 <= j < |e.values|
      ensures e.values[j] == Item(key.values[j], key.timestamp, now)
    {
    }
  }

  /** The write time of an entry parses back to the key's timestamp, or is
      "N/A"; its operation summary has exactly the four operation labels,
      each with its count in `ops`. */
  lemma EntrySummary(key: Key, depth: nat, file: string, now: int, ops: Counter<string>)
    ensures var e := KeyEntry(key, depth, file, now, ops);
      && (key.timestamp.None? ==> e.lastWriteTime == NotAvailable)
      && (key.timestamp.Some? ==>
            ParseDateTime(e.lastWriteTime).Some? && ToEpoch(ParseDateTime(e.lastWriteTime).value) == key.timestamp.value)
      && e.operationSummary.Keys == SummaryKeys
      && (forall op :: op in e.operationSummary ==> e.operationSummary[op] == Get(ops, op))
  {
    var e := KeyEntry(key, depth, file, now, ops);
    assert e.lastWriteTime == FormatInstant(key.timestamp);
    assert e.operationSummary == Summary(ops);
  }

  // ---------------------------------------------------------------------
  // The order of the entries

  /** `r` holds the entries of `w` and possibly more after them. */
  predicate Extends(w: Walk, r: Walk) {
    |w.entries| <= |r.entries| && r.entries[..|w.entries|] == w.entries
  }

  lemma ExtendsTrans(a: Walk, b: Walk, c: Walk)
    requires Extends(a, b) && Extends(b, c)
    ensures Extends(a, c)
  {
    assert c.entries[..|a.entries|] == c.entries[..|b.entries|][..|a.entries|];
  }

  /** Every entry from position `from` on is deeper than `depth` and comes
      from `file`. */
  predicate DeeperFrom(w: Walk, from: nat, depth: nat, file: string) {
    forall k :: from <= k < |w.entries| ==> w.entries[k].keyDepth > depth && w.entries[k].registryFile == file
  }

  /** Pre-order: the walk only appends; it appends something exactly when
      the key's subkeys can be listed; the first entry appended is the
      key's own, carrying the operation counts as they stand after its
      values; every later one is deeper; all name the same file. */
  lemma {:induction false} TraversePreorder(key: Key, depth: nat, file: string, now: int, w: Walk)
    ensures var r := TraverseSpec(key, depth, file, now, w);
      && Extends(w, r)
      && (|r.entries| > |w.entries| <==> !key.subkeysFail)
      && (!key.subkeysFail ==>
            r.entries[|w.entries|] == KeyEntry(key, depth, file, now, VisitStats(key, depth, now, w.stats).operations))
      && DeeperFrom(r, |w.entries| + 1, depth, file)
    decreases key, 1
  {
    if !key.subkeysFail {
      var s := VisitStats(key, depth, now, w.stats);
      var e := KeyEntry(key, depth, file, now, s.operations);
      var w1 := Walk(w.entries + [e], s);
      SubkeysPreorder(key, 0, depth, file, now, w1);
      var r := SubkeysFrom(key, 0, depth, file, now, w1);
      assert Extends(w, w1);
      ExtendsTrans(w, w1, r);
      assert r.entries[|w.entries|] == w1.entries[|w.entries|] == e;
    }
  }

  /** The subkeys only append, and only entries deeper than their parent. */
  lemma {:induction false} SubkeysPreorder(key: Key, i: nat, depth: nat, file: string, now: int, w: Walk)
    requires i <= |key.subkeys|
    ensures var r := SubkeysFrom(key, i, depth, file, now, w);
      Extends(w, r) && DeeperFrom(r, |w.entries|, depth, file)
    decreases key, 0, |key.subkeys| - i
  {
    if i < |key.subkeys| {
      var sub := key.subkeys[i];
      var w1 := TraverseSpec(sub, depth + 1, file, now, w);
      TraversePreorder(sub, depth + 1, file, now, w);
      SubkeysPreorder(key, i + 1, depth, file, now, w1);
      var r := SubkeysFrom(key, i + 1, depth, file, now, w1);
      ExtendsTrans(w, w1, r);
      forall k | |w.entries| <= k < |r.entries|
        ensures r.entries[k].keyDepth > depth && r.entries[k].registryFile == file
      {
        if k < |w1.entries| {
          assert r.entries[k] == w1.entries[k];
          if k == |w.entries| {
            assert w1.entries[k].keyDepth == depth + 1 && w1.entries[k].registryFile == file;
          }
        }
      }
    }
  }

  // ---------------------------------------------------------------------
  // How many keys are visited and listed

  /** The number of keys in the hive below and including `key`. */
  function KeyCount(key: Key): nat
    decreases key, 1
  {
    1 + SubkeyCount(key, 0)
  }

  function SubkeyCount(key: Key, i: nat): nat
    requires i <= |key.subkeys|
    decreases key, 0, |key.subkeys| - i
  {
    if i == |key.subkeys| then 0 else KeyCount(key.subkeys[i]) + SubkeyCount(key, i + 1)
  }

  /** Every key below and including `key` can list its subkeys. */
  predicate Listable(key: Key)
    decreases key
  {
    !key.subkeysFail && forall i :: 0 <= i < |key.subkeys| ==> Listable(key.subkeys[i])
  }

  /** The keys at depth `d` that the walk reaches: a key whose subkeys
      cannot be listed is reached (and counted) but its subkeys are not. */
  function Reached(key: Key, depth: nat, d: nat): nat
    decreases key, 1
  {
    (if depth == d then 1 else 0) + (if key.subkeysFail then 0 else ReachedFrom(key, 0, depth, d))
  }

  function ReachedFrom(key: Key, i: nat, depth: nat, d: nat): nat
    requires i <= |key.subkeys|
    decreases key, 0, |key.subkeys| - i
  {
    if i == |key.subkeys| then 0 else Reached(key.subkeys[i], depth + 1, d) + ReachedFrom(key, i + 1, depth, d)
  }

  /** `key_depths` counts, for every depth, the keys the walk reaches there. */
  lemma {:induction false} DepthCounts(key: Key, depth: nat, file: string, now: int, w: Walk, d: nat)
    ensures Get(TraverseSpec(key, depth, file, now, w).stats.keyDepths, d) == Get(w.stats.keyDepths, d) + Reached(key, depth, d)
    decreases key, 1
  {
    var s := VisitStats(key, depth, now, w.stats);
    if !key.subkeysFail {
      SubkeysDepthCounts(key, 0, depth, file, now, Walk(w.entries + [KeyEntry(key, depth, file, now, s.operations)], s), d);
    }
  }

  lemma {:induction false} SubkeysDepthCounts(key: Key, i: nat, depth: nat, file: string, now: int, w: Walk, d: nat)
    requires i <= |key.subkeys|
    ensures Get(SubkeysFrom(key, i, depth, file, now, w).stats.keyDepths, d) == Get(w.stats.keyDepths, d) + ReachedFrom(key, i, depth, d)
    decreases key, 0, |key.subkeys| - i
  {
    if i < |key.subkeys| {
      DepthCounts(key.subkeys[i], depth + 1, file, now, w, d);
      SubkeysDepthCounts(key, i + 1, depth, file, now, TraverseSpec(key.subkeys[i], depth + 1, file, now, w), d);
    }
  }

  /** When every key can list its subkeys, the walk makes one entry per
      key of the hive. */
  lemma {:induction false} EntryCount(key: Key, depth: nat, file: string, now: int, w: Walk)
    requires Listable(key)
    ensures |TraverseSpec(key, depth, file, now, w).entries| == |w.entries| + KeyCount(key)
    decreases key, 1
  {
    var s := VisitStats(key, depth, now, w.stats);
    SubkeysEntryCount(key, 0, depth, file, now, Walk(w.entries + [KeyEntry(key, depth, file, now, s.operations)], s));
  }

  lemma {:induction false} SubkeysEntryCount(key: Key, i: nat, depth: nat, file: string, now: int, w: Walk)
    requires i <= |key.subkeys| && Listable(key)
    ensures |SubkeysFrom(key, i, depth, file, now, w).entries| == |w.entries| + SubkeyCount(key, i)
    decreases key, 0, |key.subkeys| - i
  {
    if i < |key.subkeys| {
      EntryCount(key.subkeys[i], depth + 1, file, now, w);
      SubkeysEntryCount(key, i + 1, depth, file, now, TraverseSpec(key.subkeys[i], depth + 1, file, now, w));
    }
  }

  // ---------------------------------------------------------------------
  // Operation summaries are running totals

  /** Every count of `a` is at most the same count of `b`. */
  ghost predicate Le(a: Counter<string>, b: Counter<string>) {
    forall l :: Get(a, l) <= Get(b, l)
  }

  /** Within one file, an entry's operation summary never exceeds a later
      one's, nor the current `operations` counter. */
  ghost predicate Chronological(w: Walk) {
    && (forall i, j :: 0 <= i < j < |w.entries| ==>
          Le(w.entries[i].operationSummary, w.entries[j].operationSummary))
    && (forall i :: 0 <= i < |w.entries| ==>
          Le(w.entries[i].operationSummary, Summary(w.stats.operations)))
  }

  lemma TallyGrows(c: Counter<string>, items: seq<ValueItem>, operation: bool)
    ensures Le(c, Tally(c, items, operation))
  {
    TallyCounts(c, items, operation);
  }

  lemma SummaryGrows(a: Counter<string>, b: Counter<string>)
    requires Le(a, b)
    ensures Le(Summary(a), Summary(b))
  {
  }

  /** Appending an entry that summarises counts at least as large as
      before keeps the summaries in order. */
  lemma AppendChronological(w: Walk, e: Entry, s: Stats)
    requires Chronological(w) && Le(w.stats.operations, s.operations)
    requires e.operationSummary == Summary(s.operations)
    ensures Chronological(Walk(w.entries + [e], s))
  {
    SummaryGrows(w.stats.operations, s.operations);
    var top := Summary(s.operations);
    assert forall i :: 0 <= i < |w.entries| ==> Le(w.entries[i].operationSummary, top);
  }

  /** Visiting a key only raises the operation counts. */
  lemma VisitGrows(key: Key, depth: nat, now: int, s: Stats)
    ensures Le(s.operations, VisitStats(key, depth, now, s).operations)
  {
    TallyGrows(s.operations, Items(key.values, key.timestamp, now), true);
  }

  /** The walk keeps the summaries in order. */
  lemma {:induction false} TraverseChronological(key: Key, depth: nat, file: string, now: int, w: Walk)
    requires Chronological(w)
    ensures Chronological(TraverseSpec(key, depth, file, now, w))
    decreases key, 1
  {
    var s := VisitStats(key, depth, now, w.stats);
    VisitGrows(key, depth, now, w.stats);
    if key.subkeysFail {
      SummaryGrows(w.stats.operations, s.operations);
    } else {
      var e := KeyEntry(key, depth, file, now, s.operations);
      AppendChronological(w, e, s);
      SubkeysChronological(key, 0, depth, file, now, Walk(w.entries + [e], s));
    }
  }

  lemma {:induction false} SubkeysChronological(key: Key, i: nat, depth: nat, file: string, now: int, w: Walk)
    requires i <= |key.subkeys| && Chronological(w)
    ensures Chronological(SubkeysFrom(key, i, depth, file, now, w))
    decreases key, 0, |key.subkeys| - i
  {
    if i < |key.subkeys| {
      TraverseChronological(key.subkeys[i], depth + 1, file, now, w);
      SubkeysChronological(key, i + 1, depth, file, now, TraverseSpec(key.subkeys[i], depth + 1, file, now, w));
    }
  }

  /** The state `parse_registry_file` keeps while it walks one hive. */
  class RegistryParser {
    /** `os.path.basename(file_path)` */
    const registryFile: string
    /** The clock reading used for every operation label. */
    const now: int
    var registryData: seq<Entry>
    var keyDepths: Counter<nat>
    var valueTypes: Counter<string>
    var operations: Counter<string>
    var keyFrequencies: Counter<string>

    function State(): Walk
      reads this
    {
      Walk(registryData, Stats(keyDepths, valueTypes, operations, keyFrequencies))
    }

    constructor (registryFile: string, now: int)
      ensures this.registryFile == registryFile && this.now == now
      ensures State() == Walk([], NoStats)
    {
      this.registryFile := registryFile;
      this.now := now;
      registryData := [];
      keyDepths, valueTypes, operations, keyFrequencies := map[], map[], map[], map[];
    }

    /** `traverse_registry(key, current_depth)` */
    method Traverse(key: Key, depth: nat)
      modifies this
      ensures State() == TraverseSpec(key, depth, registryFile, now, old(State()))
      decreases key, 1
    {
      keyDepths := Inc(keyDepths, depth);
      keyFrequencies := Inc(keyFrequencies, key.path);
      var values := ReadValues(key);
      if key.subkeysFail {
        return;
      }
      var entry := Entry(registryFile, key.path, depth, FormatInstant(key.timestamp),
                         values, |values|, |key.subkeys|, Summary(operations));
      registryData := registryData + [entry];
      TraverseSubkeys(key, depth);
    }

    /** `for subkey in key.subkeys(): traverse_registry(subkey, current_depth + 1)` */
    method TraverseSubkeys(key: Key, depth: nat)
      modifies this
      ensures State() == SubkeysFrom(key, 0, depth, registryFile, now, old(State()))
      decreases key, 0
    {
      ghost var goal := SubkeysFrom(key, 0, depth, registryFile, now, State());
      for i := 0 to |key.subkeys|
        invariant SubkeysFrom(key, i, depth, registryFile, now, State()) == goal
      {
        Traverse(key.subkeys[i], depth + 1);
      }
    }

    /** The loop over `key.values()`: a value that reads is labelled and
        counted, one that raises is listed as "ERROR" and not counted. */
    method ReadValues(key: Key) returns (values: seq<ValueItem>)
      modifies this
      ensures values == Items(key.values, key.timestamp, now)
      ensures valueTypes == Tally(old(valueTypes), values, false)
      ensures operations == Tally(old(operations), values, true)
      ensures registryData == old(registryData) && keyDepths == old(keyDepths)
      ensures keyFrequencies == old(keyFrequencies)
    {
      values := [];
      for j := 0 to |key.values|
        invariant values == Items(key.values[..j], key.timestamp, now)
        invariant valueTypes == Tally(old(valueTypes), values, false)
        invariant operations == Tally(old(operations), values, true)
        invariant registryData == old(registryData) && keyDepths == old(keyDepths)
        invariant keyFrequencies == old(keyFrequencies)
      {
        var v := key.values[j];
        var item;
        match v.data {
          case Ok(d) =>
            var kind := ValueType(d);
            var op := OperationType(key.timestamp, now, d);
            valueTypes := Inc(valueTypes, kind);
            operations := Inc(operations, op);
            item := ValueItem(v.name, Some(d), kind, op);
          case Error =>
            item := ValueItem(v.name, None, ErrorLabel, ErrorLabel);
        }
        assert (values + [item])[..|values|] == values;
        values := values + [item];
        assert Items(key.values[..j + 1], key.timestamp, now) == values;
      }
      assert key.values[..|key.values|] == key.values;
    }
  }
}
