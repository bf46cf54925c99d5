/** The filesystem tree the three filesystem analysers walk, as the
    filesystem reader (pytsk3) presents it: an entry has an optional name,
    optional metadata, and, for a directory, the entries its listing yields
    in order. A listing may raise after yielding some entries. */
module FsTree {
  import opened Base
  import opened Text
  import opened Timestamps

  /** `TSK_FS_META_TYPE_DIR` or any other metadata type. */
  datatype Kind = Dir | NonDir

  /** `info.meta`: type, size and the three optional epoch timestamps. */
  datatype Meta = Meta(kind: Kind, size: int, crtime: Option<int>, mtime: Option<int>, atime: Option<int>)

  /** One entry. `children` are the entries `as_directory()` yields (the
      reader may include "." and ".."); when `listingFails` the listing
      raises after them. `content` is what `read_random` returns, and from
      offset `readFault` on (if any) `read_random` raises. */
  datatype Node = Node(
    name: Option<string>,
    meta: Option<Meta>,
    children: seq<Node>,
    listingFails: bool,
    content: string,
    readFault: Option<nat>)

  predicate IsDotName(s: string) {
    s == "." || s == ".."
  }

  /** The dot test on a yielded entry; it is only evaluated on named entries
      (on a nameless one the analysers raise instead). */
  predicate IsDot(n: Node) {
    n.name.Some? && IsDotName(n.name.value)
  }

  /** `os.path.join(parent, name)` (POSIX). */
  function Join(parent: string, name: string): string {
    if IsPrefix("/", name) then name
    else if parent == "" || IsSuffix("/", parent) then parent + name
    else parent + "/" + name
  }

  /** The part of a path after its last "/". */
  function LastSegment(path: string): string {
    path[RFind(path, '/') + 1..]
  }

  /** A name a directory entry can carry: not empty and without "/". */
  predicate GoodName(s: string) {
    s != [] && forall i :: 0 <= i < |s| ==> s[i] != '/'
  }

  /** Every name in the tree is a good name. */
  predicate WellNamed(n: Node)
    decreases n
  {
    && (n.name.Some? ==> GoodName(n.name.value))
    && forall i :: 0 <= i < |n.children| ==> WellNamed(n.children[i])
  }

  /** A tree the walks of the log and network analysers go through whole:
      every entry has a name and metadata of non-zero size whose three
      timestamps can be formatted, no listing yields "." or "..", and only
      directories have children. */
  predicate Unobstructed(n: Node)
    decreases n
  {
    && n.name.Some? && n.meta.Some? && n.meta.value.size != 0
    && FormatTimestamp(n.meta.value.crtime).Ok?
    && FormatTimestamp(n.meta.value.mtime).Ok?
    && FormatTimestamp(n.meta.value.atime).Ok?
    && (n.meta.value.kind == NonDir ==> n.children == [])
    && forall i :: 0 <= i < |n.children| ==> !IsDot(n.children[i]) && Unobstructed(n.children[i])
  }

  /** Number of entries in the tree. */
  function Size(n: Node): nat
    decreases n, 1
  {
    1 + SizeFrom(n, 0)
  }

  function SizeFrom(n: Node, i: nat): nat
    requires i <= |n.children|
    decreases n, 0, |n.children| - i
  {
    if i == |n.children| then 0 else Size(n.children[i]) + SizeFrom(n, i + 1)
  }

  lemma LastSegmentAfterSlash(q: string, name: string)
    requires GoodName(name)
    ensures LastSegment(q + "/" + name) == name
  {
    var s := q + "/" + name;
    var r := RFind(s, '/');
    assert s[|q|] == '/';
    assert forall i :: |q| < i < |s| ==> s[i] == name[i - |q| - 1];
    assert r == |q|;
    assert s[|q| + 1..] == name;
  }

  /** Joining a good name to a parent: the result ends with the name, does
      not end with "/", has the name as its last segment, and holds one "/"
      more than the parent unless the parent is empty or already ends with
      "/" (the root "/"), where the name is appended directly. */
  lemma JoinShape(parent: string, name: string)
    requires GoodName(name)
    ensures IsSuffix(name, Join(parent, name))
    ensures !IsSuffix("/", Join(parent, name))
    ensures LastSegment(Join(parent, name)) == name
    ensures parent != "" && !IsSuffix("/", parent) ==> Join(parent, name) == parent + "/" + name
    ensures CountChar(Join(parent, name), '/')
      == CountChar(parent, '/') + (if parent == "" || IsSuffix("/", parent) then 0 else 1)
  {
    var j := Join(parent, name);
    assert name[0] != '/';
    assert !IsPrefix("/", name);
    CountCharAbsent(name, '/');
    if parent == "" || IsSuffix("/", parent) {
      assert j == parent + name;
      CountCharAppend(parent, name, '/');
      if parent == "" {
        assert j == name;
        assert RFind(name, '/') == -1;
      } else {
        var q := parent[..|parent| - 1];
        assert parent == q + "/";
        assert j == q + "/" + name;
        LastSegmentAfterSlash(q, name);
      }
    } else {
      assert j == parent + "/" + name;
      assert j == parent + ("/" + name);
      CountCharAppend(parent, "/" + name, '/');
      CountCharAppend("/", name, '/');
      LastSegmentAfterSlash(parent, name);
    }
    assert j[|j| - |name|..] == name;
    assert j[|j| - 1] == name[|name| - 1];
  }

  /** The joined name is the path's last segment: the path is what comes
      before it, which is empty or ends with "/", followed by the name. */
  lemma JoinSegment(parent: string, name: string)
    requires GoodName(name)
    ensures var j := Join(parent, name);
      var q := j[..|j| - |name|];
      |name| <= |j| && j == q + name && (q == [] || q[|q| - 1] == '/')
  {
    assert name[0] != '/';
    var j := Join(parent, name);
    if parent != "" && !IsSuffix("/", parent) {
      assert j == (parent + "/") + name;
    } else {
      assert j == parent + name;
    }
  }
}
