/** The pure helpers of the registry analyser: the depth of a key path
    (`calculate_key_depth`), the kind of a value (`determine_value_type`)
    and the operation a value's key suggests (`analyze_operation_type`). */
module RegistryRules {
  import opened Base
  import opened Text
  import opened Timestamps

  // ---------------------------------------------------------------------
  // calculate_key_depth

  const Backslash: char := '\\'

  /** No character of `s` is `sep`. */
  predicate Free(s: string, sep: char) {
    forall i :: 0 <= i < |s| ==> s[i] != sep
  }

  /** `s.split(sep)`: the pieces between the separators, empty ones
      included; there is one piece more than there are separators. */
  function Split(s: string, sep: char): (parts: seq<string>)
    ensures |parts| == CountChar(s, sep) + 1
    ensures forall k :: 0 <= k < |parts| ==> Free(parts[k], sep)
  {
    if s == [] then [[]]
    else
      var rest := Split(s[1..], sep);
      if s[0] == sep then [[]] + rest
      else [[s[0]] + rest[0]] + rest[1..]
  }

  /** `sep.join(parts)` */
  function JoinWith(parts: seq<string>, sep: char): string
    requires parts != []
  {
    if |parts| == 1 then parts[0] else parts[0] + [sep] + JoinWith(parts[1..], sep)
  }

  /** Splitting and joining again gives the path back. */
  lemma {:induction false} JoinSplit(s: string, sep: char)
    ensures JoinWith(Split(s, sep), sep) == s
  {
    if s != [] {
      var rest := Split(s[1..], sep);
      JoinSplit(s[1..], sep);
      if s[0] == sep {
        assert ([[]] + rest)[1..] == rest;
        assert s == [] + [sep] + s[1..];
      } else {
        var parts := [[s[0]] + rest[0]] + rest[1..];
        if |rest| == 1 {
          assert s == [s[0]] + s[1..];
        } else {
          assert parts[1..] == rest[1..];
          assert JoinWith(rest, sep) == rest[0] + [sep] + JoinWith(rest[1..], sep);
          assert s == [s[0]] + s[1..];
        }
      }
    }
  }

  /** A separator splits the path into the pieces of either side. */
  lemma {:induction false} SplitAppend(a: string, b: string, sep: char)
    ensures Split(a + [sep] + b, sep) == Split(a, sep) + Split(b, sep)
  {
    if a == [] {
      assert a + [sep] + b == [sep] + b;
      assert ([sep] + b)[1..] == b;
    } else {
      assert (a + [sep] + b)[1..] == a[1..] + [sep] + b;
      SplitAppend(a[1..], b, sep);
    }
  }

  /** `[part for part in parts if part]` */
  function NonEmpty(parts: seq<string>): (r: seq<string>)
    ensures |r| <= |parts|
  {
    if parts == [] then []
    else (if parts[0] == [] then [] else [parts[0]]) + NonEmpty(parts[1..])
  }

  lemma {:induction false} NonEmptyAppend(a: seq<string>, b: seq<string>)
    ensures NonEmpty(a + b) == NonEmpty(a) + NonEmpty(b)
  {
    if a != [] {
      assert (a + b)[1..] == a[1..] + b;
      NonEmptyAppend(a[1..], b);
    } else {
      assert a + b == b;
    }
  }

  /** `calculate_key_depth(key_path)`: the number of non-empty pieces
      between backslashes. */
  function KeyDepth(path: string): nat {
    |NonEmpty(Split(path, Backslash))|
  }

  /** Depth adds up across a backslash. */
  lemma KeyDepthJoin(a: string, b: string)
    ensures KeyDepth(a + [Backslash] + b) == KeyDepth(a) + KeyDepth(b)
  {
    SplitAppend(a, b, Backslash);
    NonEmptyAppend(Split(a, Backslash), Split(b, Backslash));
  }

  /** A name without backslashes has depth one; the empty path has depth
      zero. */
  lemma KeyDepthOfName(name: string)
    requires name != [] && Free(name, Backslash)
    ensures KeyDepth(name) == 1
    ensures KeyDepth([]) == 0
  {
    CountCharAbsent(name, Backslash);
    JoinSplit(name, Backslash);
    assert Split(name, Backslash) == [name];
  }

  /** Leading, trailing and doubled backslashes do not change the depth. */
  lemma KeyDepthIgnoresExtraBackslashes(a: string, b: string)
    ensures KeyDepth([Backslash] + a) == KeyDepth(a)
    ensures KeyDepth(a + [Backslash]) == KeyDepth(a)
    ensures KeyDepth(a + [Backslash, Backslash] + b) == KeyDepth(a + [Backslash] + b)
  {
    KeyDepthOfName("x");
    KeyDepthJoin([], a);
    assert [] + [Backslash] + a == [Backslash] + a;
    KeyDepthJoin(a, []);
    assert a + [Backslash] + [] == a + [Backslash];
    KeyDepthJoin(a, [Backslash] + b);
    assert a + [Backslash] + ([Backslash] + b) == a + [Backslash, Backslash] + b;
    KeyDepthJoin([], b);
    assert [] + [Backslash] + b == [Backslash] + b;
    KeyDepthJoin(a, b);
  }

  /** A subkey's path is its parent's path, a backslash and its name: one
      level deeper. */
  lemma SubkeyDepth(parent: string, name: string)
    requires name != [] && Free(name, Backslash)
    ensures KeyDepth(parent + [Backslash] + name) == KeyDepth(parent) + 1
  {
    KeyDepthJoin(parent, name);
    KeyDepthOfName(name);
  }

  // ---------------------------------------------------------------------
  // determine_value_type and analyze_operation_type

  newtype Byte = b: int | 0 <= b < 256

  /** The Python value `value.value()` returns for a registry value. */
  datatype Data =
    | Bytes(bytes: seq<Byte>)
    | ByteArray(bytes: seq<Byte>)
    | Integer(i: int)
    | MultiString(items: seq<string>)
    | Str(s: string)
    | Other(typeName: string)

  /** The label of a value that could not be read. */
  const ErrorLabel: string := "ERROR"

  /** `determine_value_type(value)`: `bytes` is tested first; a `bytearray`
      is not `bytes` and falls through to "OTHER_bytearray". */
  function ValueType(d: Data): string {
    match d
    case Bytes(_) => "BINARY"
    case Integer(_) => "INTEGER"
    case MultiString(_) => "MULTI_STRING"
    case Str(_) => "STRING"
    case ByteArray(_) => "OTHER_bytearray"
    case Other(name) => "OTHER_" + name
  }

  /** Each kind of value has its own label, and none is the error label. */
  lemma ValueTypeSpec(d: Data)
    ensures ValueType(d) != ErrorLabel
    ensures ValueType(d) == "BINARY" <==> d.Bytes?
    ensures ValueType(d) == "INTEGER" <==> d.Integer?
    ensures ValueType(d) == "MULTI_STRING" <==> d.MultiString?
    ensures ValueType(d) == "STRING" <==> d.Str?
    ensures d.ByteArray? || d.Other? <==> IsPrefix("OTHER_", ValueType(d))
  {
    var t := ValueType(d);
    if d.ByteArray? || d.Other? {
      assert t[..6] == "OTHER_";
      assert t[0] == 'O';
      assert "BINARY"[0] == 'B' && "INTEGER"[0] == 'I' && "MULTI_STRING"[0] == 'M';
      assert "STRING"[0] == 'S' && ErrorLabel[0] == 'E';
    } else {
      assert t[0] != 'O';
    }
  }

  /** The four operation labels. */
  const Operations: seq<string> := ["MODIFY", "BINARY_UPDATE", "ACCESS", "UNKNOWN"]

  /** `analyze_operation_type(key_timestamp, value_data)` with the clock
      reading `now` (seconds on the timestamp's scale): `timedelta.days` is
      the floor of the difference in days, so a difference under one day,
      negative ones included, is "MODIFY". */
  function OperationType(timestamp: Option<int>, now: int, d: Data): string {
    match timestamp
    case None => "UNKNOWN"
    case Some(t) =>
      if (now - t) / SecondsPerDay < 1 then "MODIFY"
      else if d.Bytes? || d.ByteArray? then "BINARY_UPDATE"
      else "ACCESS"
  }

  /** The operation label, case by case: missing time gives "UNKNOWN";
      a key written less than a day before `now` (or after it) gives
      "MODIFY" whatever the value; otherwise binary data gives
      "BINARY_UPDATE" and any other data "ACCESS". */
  lemma OperationTypeSpec(timestamp: Option<int>, now: int, d: Data)
    ensures var op := OperationType(timestamp, now, d);
      && (exists k :: 0 <= k < |Operations| && Operations[k] == op)
      && (op == "UNKNOWN" <==> timestamp.None?)
      && (op == "MODIFY" <==> timestamp.Some? && now - timestamp.value < SecondsPerDay)
      && (op == "BINARY_UPDATE" <==>
           timestamp.Some? && now - timestamp.value >= SecondsPerDay && (d.Bytes? || d.ByteArray?))
      && (op == "ACCESS" <==>
           timestamp.Some? && now - timestamp.value >= SecondsPerDay && !(d.Bytes? || d.ByteArray?))
  {
    var op := OperationType(timestamp, now, d);
    if timestamp.Some? {
      var diff := now - timestamp.value;
      assert diff == SecondsPerDay * (diff / SecondsPerDay) + diff % SecondsPerDay;
      assert diff / SecondsPerDay < 1 <==> diff < SecondsPerDay;
    }
    if op == "MODIFY" { assert Operations[0] == op; }
    else if op == "BINARY_UPDATE" { assert Operations[1] == op; }
    else if op == "ACCESS" { assert Operations[2] == op; }
    else { assert Operations[3] == op; }
  }

  /** A `bytearray` counts as a binary update but is not typed "BINARY". */
  lemma ByteArrayLabels(b: seq<Byte>, t: int, now: int)
    requires now - t >= SecondsPerDay
    ensures OperationType(Some(t), now, ByteArray(b)) == "BINARY_UPDATE"
    ensures ValueType(ByteArray(b)) != "BINARY"
  {
    assert (now - t) / SecondsPerDay >= 1;
  }
}
