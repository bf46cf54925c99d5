/** Shared value types: optional values, failing computations, and the
    counting dictionaries (Python's `collections.Counter`) every analyser
    keeps its statistics in. */
module Base {

  datatype Option<+T> = None | Some(value: T)

  /** The outcome of a step that may raise: `Error` stands for any
      exception the caller catches. */
  datatype Result<+T> = Ok(value: T) | Error

  /** A `Counter`: a missing key reads as zero. */
  type Counter<K> = map<K, nat>

  function Get<K(!new)>(c: Counter<K>, k: K): nat {
    if k in c then c[k] else 0
  }

  /** `counter[k] += 1` */
  function Inc<K(!new)>(c: Counter<K>, k: K): (r: Counter<K>)
    ensures r.Keys == c.Keys + {k}
    ensures forall j :: Get(r, j) == Get(c, j) + (if j == k then 1 else 0)
  {
    c[k := Get(c, k) + 1]
  }

  /** `a.update(b)` for two counters: counts are added key by key. */
  function Add<K(!new)>(a: Counter<K>, b: Counter<K>): (r: Counter<K>)
    ensures r.Keys == a.Keys + b.Keys
    ensures forall k :: Get(r, k) == Get(a, k) + Get(b, k)
  {
    map k | k in a.Keys + b.Keys :: Get(a, k) + Get(b, k)
  }

  /** Two counters are equal when they have the same keys and agree on every
      key. */
  lemma CounterExt<K(!new)>(a: Counter<K>, b: Counter<K>)
    requires a.Keys == b.Keys
    requires forall k :: Get(a, k) == Get(b, k)
    ensures a == b
  {
    forall k | k in a.Keys ensures a[k] == b[k] {
      assert Get(a, k) == Get(b, k);
    }
  }

  /** Merging counters is commutative, associative and has the empty counter
      as identity: per-hive statistics can be combined in any grouping. */
  lemma AddLaws<K(!new)>(a: Counter<K>, b: Counter<K>, c: Counter<K>)
    ensures Add(a, b) == Add(b, a)
    ensures Add(Add(a, b), c) == Add(a, Add(b, c))
    ensures Add(a, map[]) == a
  {
    CounterExt(Add(a, b), Add(b, a));
    CounterExt(Add(Add(a, b), c), Add(a, Add(b, c)));
    CounterExt(Add(a, map[]), a);
  }

  /** Appending to a list in two steps is appending once. */
  lemma AppendAssoc<T>(a: seq<T>, b: seq<T>, c: seq<T>)
    ensures a + (b + c) == (a + b) + c
  {
  }
}
