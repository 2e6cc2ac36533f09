/**
 * What discovery should find in a directory tree: a recursive reading of the
 * classification rules, with no worklist, no budget and no listing order.
 */
module CatalogTree {
  import opened Text
  import opened Artifacts

  const MAX_DOCUMENT_BYTES: nat := 16 * 1024 * 1024

  /** A file name as the platform holds it, and its text when it is valid Unicode. */
  datatype OsName = OsName(bytes: seq<Byte>, text: Option<string>)

  /** A regular file has a reported length and bytes that may turn out unreadable. */
  datatype Node =
    | Directory(children: seq<Child>)
    | Regular(length: nat, content: Option<Bytes>)
    | Symlink
    | Special
    | Unreadable

  datatype Child = Child(name: OsName, node: Node)

  datatype SkippedReason =
    IsDirectory | DepthLimit | MalformedName | Hidden | Ignored | NoMetadata | IsSymlink | NonRegular

  datatype SkippedEntry = SkippedEntry(path: Option<string>, reason: SkippedReason)

  datatype CatalogEntry = CatalogEntry(path: string, content: Bytes)

  datatype Policy = Policy(recursive: bool, depth: nat)

  // ---------------------------------------------------------------- names and paths

  predicate Portable(name: string) {
    name != "" && name != "." && name != ".." && '/' !in name && '\\' !in name && '\0' !in name
  }

  function Lower(c: char): char {
    if 'A' <= c <= 'Z' then c - 'A' + 'a' else c
  }

  predicate SameIgnoringCase(a: string, b: string) {
    |a| == |b| && forall i :: 0 <= i < |a| ==> Lower(a[i]) == Lower(b[i])
  }

  predicate IsIgnored(name: string) {
    SameIgnoringCase(name, "target") || SameIgnoringCase(name, "node_modules")
  }

  /** A component that discovery will open or descend into. */
  predicate Visible(name: string) {
    Portable(name) && name[0] != '.' && !IsIgnored(name)
  }

  /** The text accepted as a relative document path. */
  predicate AcceptedPath(s: string) {
    && '\\' !in s
    && '\0' !in s
    && forall i :: 0 <= i < |Split(s, '/')| ==>
        Split(s, '/')[i] != "" && Split(s, '/')[i] != "." && Split(s, '/')[i] != ".."
  }

  function JoinRelative(prefix: string, name: string): string {
    if prefix == "" then name else prefix + "/" + name
  }

  function Relative(path: seq<string>): string {
    if path == [] then "" else Join(path, '/')
  }

  lemma {:induction false} JoinHas(parts: seq<string>, c: char)
    requires |parts| > 0 && c != '/'
    ensures c in Join(parts, '/') <==> exists i :: 0 <= i < |parts| && c in parts[i]
  {
    if |parts| == 1 {
      assert c in Join(parts, '/') <==> c in parts[0];
    } else {
      JoinHas(parts[1..], c);
      var rest := Join(parts[1..], '/');
      assert c in parts[0] + ['/'] + rest <==> c in parts[0] || c in rest;
      if c in rest {
        var i :| 0 <= i < |parts[1..]| && c in parts[1..][i];
        assert c in parts[i + 1];
      }
      if exists i :: 0 <= i < |parts| && c in parts[i] {
        var i :| 0 <= i < |parts| && c in parts[i];
        assert i > 0 ==> c in parts[1..][i - 1];
      }
    }
  }

  /** A text is an accepted path exactly when its components are all portable names. */
  lemma AcceptedIsPortable(s: string)
    ensures AcceptedPath(s) <==> forall i :: 0 <= i < |Split(s, '/')| ==> Portable(Split(s, '/')[i])
  {
    var parts := Split(s, '/');
    JoinSplit(s, '/');
    JoinHas(parts, '\\');
    JoinHas(parts, '\0');
  }

  lemma {:induction false} JoinSnoc(path: seq<string>, name: string)
    requires |path| > 0
    ensures Join(path + [name], '/') == Join(path, '/') + "/" + name
  {
    if |path| == 1 {
      assert (path + [name])[1..] == [name];
    } else {
      JoinSnoc(path[1..], name);
      assert (path + [name])[1..] == path[1..] + [name];
    }
  }

  ghost predicate VisiblePath(path: seq<string>) {
    forall i :: 0 <= i < |path| ==> Visible(path[i])
  }

  /** Appending a portable name to a visible path: the text, its components, and its acceptance. */
  lemma RelativeExtends(path: seq<string>, name: string)
    requires VisiblePath(path) && Portable(name)
    ensures JoinRelative(Relative(path), name) == Relative(path + [name])
    ensures Split(Relative(path + [name]), '/') == path + [name]
    ensures AcceptedPath(Relative(path + [name]))
  {
    if path != [] {
      JoinSnoc(path, name);
      assert path[0] != "";
    }
    SplitJoin(path + [name], '/');
    AcceptedIsPortable(Relative(path + [name]));
  }

  // ---------------------------------------------------------------- classification

  datatype Class =
    | AsDocument(path: string)
    | AsDirectory(path: string)
    | AsSkipped(entry: SkippedEntry)

  function Classify(child: Child, prefix: string): Class {
    if child.name.text.None? || !Portable(child.name.text.value) then
      AsSkipped(SkippedEntry(None, MalformedName))
    else
      var name := child.name.text.value;
      var path := JoinRelative(prefix, name);
      if name[0] == '.' then AsSkipped(SkippedEntry(Some(path), Hidden))
      else if IsIgnored(name) then AsSkipped(SkippedEntry(Some(path), Ignored))
      else match child.node
        case Unreadable => AsSkipped(SkippedEntry(Some(path), NoMetadata))
        case Symlink => AsSkipped(SkippedEntry(Some(path), IsSymlink))
        case Special => AsSkipped(SkippedEntry(Some(path), NonRegular))
        case Directory(_) => AsDirectory(path)
        case Regular(_, _) => AsDocument(path)
  }

  predicate SkippedAs(child: Child, prefix: string, reason: SkippedReason)
    requires child.name.text.Some?
  {
    Classify(child, prefix) == AsSkipped(SkippedEntry(Some(JoinRelative(prefix, child.name.text.value)), reason))
  }

  /** Which entries end where: each line is an independent reading of one class. A link is never
   *  followed, whatever it points to, and a hidden or ignored directory is never entered. */
  lemma ClassificationTable(child: Child, prefix: string)
    ensures Classify(child, prefix) == AsSkipped(SkippedEntry(None, MalformedName))
      <==> child.name.text.None? || !Portable(child.name.text.value)
    ensures child.name.text.Some? && Portable(child.name.text.value) ==>
      var name, node := child.name.text.value, child.node;
      && (Classify(child, prefix).AsDocument? <==> Visible(name) && node.Regular?)
      && (Classify(child, prefix).AsDirectory? <==> Visible(name) && node.Directory?)
      && (SkippedAs(child, prefix, Hidden) <==> name[0] == '.')
      && (SkippedAs(child, prefix, Ignored) <==> IsIgnored(name))
      && (SkippedAs(child, prefix, IsSymlink) <==> Visible(name) && node.Symlink?)
      && (SkippedAs(child, prefix, NonRegular) <==> Visible(name) && node.Special?)
      && (SkippedAs(child, prefix, NoMetadata) <==> Visible(name) && node.Unreadable?)
  {
    if child.name.text.Some? && Portable(child.name.text.value) && IsIgnored(child.name.text.value) {
      assert Lower(child.name.text.value[0]) != '.';
    }
  }

  // ---------------------------------------------------------------- the recursive account

  /** What a part of a tree contributes; `blocked` counts documents that cannot be read whole. */
  datatype Summary = Summary(
    documents: multiset<CatalogEntry>,
    skipped: multiset<SkippedEntry>,
    entries: nat,
    bytes: nat,
    blocked: nat)

  const NOTHING := Summary(multiset{}, multiset{}, 0, 0, 0)

  function Plus(a: Summary, b: Summary): Summary {
    Summary(a.documents + b.documents, a.skipped + b.skipped,
            a.entries + b.entries, a.bytes + b.bytes, a.blocked + b.blocked)
  }

  function OneSkipped(entry: SkippedEntry): Summary {
    Summary(multiset{}, multiset{entry}, 1, 0, 0)
  }

  predicate Loadable(node: Node)
    requires node.Regular?
  {
    node.content.Some? && |node.content.value| <= MAX_DOCUMENT_BYTES
  }

  function OneDocument(path: string, node: Node): Summary
    requires node.Regular?
  {
    var content := if node.content.Some? then node.content.value else [];
    Summary(multiset{CatalogEntry(path, content)}, multiset{}, 1, node.length, if Loadable(node) then 0 else 1)
  }

  const ONE_ENTRY := Summary(multiset{}, multiset{}, 1, 0, 0)

  function Visit(child: Child, prefix: string, depth: nat, policy: Policy): Summary
    decreases child
  {
    match Classify(child, prefix)
    case AsSkipped(entry) => OneSkipped(entry)
    case AsDocument(path) => OneDocument(path, child.node)
    case AsDirectory(path) =>
      if !policy.recursive then OneSkipped(SkippedEntry(Some(path), IsDirectory))
      else if depth + 1 > policy.depth then OneSkipped(SkippedEntry(Some(path), DepthLimit))
      else Plus(ONE_ENTRY, VisitAll(child.node.children, path, depth + 1, policy))
  }

  function VisitAll(children: seq<Child>, prefix: string, depth: nat, policy: Policy): Summary
    decreases children
  {
    if children == [] then NOTHING
    else Plus(Visit(children[0], prefix, depth, policy), VisitAll(children[1..], prefix, depth, policy))
  }

  lemma PlusCommutes(a: Summary, b: Summary)
    ensures Plus(a, b) == Plus(b, a)
  {
    assert a.documents + b.documents == b.documents + a.documents;
    assert a.skipped + b.skipped == b.skipped + a.skipped;
  }

  lemma PlusAssociates(a: Summary, b: Summary, c: Summary)
    ensures Plus(Plus(a, b), c) == Plus(a, Plus(b, c))
  {
    assert (a.documents + b.documents) + c.documents == a.documents + (b.documents + c.documents);
    assert (a.skipped + b.skipped) + c.skipped == a.skipped + (b.skipped + c.skipped);
  }

  lemma PlusNothing(a: Summary)
    ensures Plus(a, NOTHING) == a == Plus(NOTHING, a)
  {
    assert a.documents + multiset{} == a.documents == multiset{} + a.documents;
    assert a.skipped + multiset{} == a.skipped == multiset{} + a.skipped;
  }

  lemma {:induction false} VisitExtract(children: seq<Child>, k: nat, prefix: string, depth: nat, policy: Policy)
    requires k < |children|
    ensures VisitAll(children, prefix, depth, policy)
         == Plus(Visit(children[k], prefix, depth, policy),
                 VisitAll(children[..k] + children[k + 1..], prefix, depth, policy))
  {
    var others := children[..k] + children[k + 1..];
    if k == 0 {
      assert others == children[1..];
    } else {
      var tail := children[1..];
      VisitExtract(tail, k - 1, prefix, depth, policy);
      assert others[1..] == tail[..k - 1] + tail[k..];
      var first, picked := Visit(children[0], prefix, depth, policy), Visit(children[k], prefix, depth, policy);
      var rest := VisitAll(others[1..], prefix, depth, policy);
      PlusAssociates(first, picked, rest);
      PlusCommutes(first, picked);
      PlusAssociates(picked, first, rest);
    }
  }

  lemma Extracted<T>(s: seq<T>, k: nat)
    requires k < |s|
    ensures multiset(s[..k] + s[k + 1..]) == multiset(s) - multiset{s[k]}
  {
    assert s == s[..k] + [s[k]] + s[k + 1..];
  }

  /** What a directory contributes does not depend on the order in which it is listed. */
  lemma {:induction false} VisitIgnoresOrder(a: seq<Child>, b: seq<Child>, prefix: string, depth: nat, policy: Policy)
    requires multiset(a) == multiset(b)
    ensures VisitAll(a, prefix, depth, policy) == VisitAll(b, prefix, depth, policy)
    decreases |a|
  {
    if a == [] {
      assert |b| == |multiset(b)|;
    } else {
      assert a[0] in multiset(b);
      var k :| 0 <= k < |b| && b[k] == a[0];
      var others := b[..k] + b[k + 1..];
      assert a == [a[0]] + a[1..];
      Extracted(b, k);
      assert multiset(a[1..]) == multiset(a) - multiset{a[0]};
      VisitIgnoresOrder(a[1..], others, prefix, depth, policy);
      VisitExtract(b, k, prefix, depth, policy);
    }
  }

  // ---------------------------------------------------------------- well-formed trees

  ghost predicate DistinctNames(children: seq<Child>) {
    forall i, j :: 0 <= i < j < |children| && children[i].name.text.Some? ==>
      children[i].name.text != children[j].name.text
  }

  /** A file is stable when the length it reports is the length of the bytes it yields. */
  predicate Stable(node: Node) {
    node.Regular? && node.content.Some? ==> node.length == |node.content.value|
  }

  /** Names are distinct in every directory and no file changes under the reader. */
  ghost predicate WellFormed(children: seq<Child>)
    decreases children
  {
    DistinctNames(children) && forall i :: 0 <= i < |children| ==> WellFormedChild(children[i])
  }

  ghost predicate WellFormedChild(child: Child)
    decreases child
  {
    Stable(child.node) && (child.node.Directory? ==> WellFormed(child.node.children))
  }

  // ---------------------------------------------------------------- what the account promises

  /** An accepted path below `base` whose parents are all visible and within the depth limit. */
  ghost predicate GoodPath(s: string, base: seq<string>, depth: nat) {
    var parts := Split(s, '/');
    AcceptedPath(s) && base <= parts && VisiblePath(parts[..|parts| - 1]) && |parts| <= depth + 1
  }

  /** Every reported path is good, and documents are themselves visible. */
  ghost predicate GoodPaths(sum: Summary, base: seq<string>, depth: nat) {
    && (forall d :: d in sum.documents ==> GoodPath(d.path, base, depth) && VisiblePath(Split(d.path, '/')))
    && (forall k :: k in sum.skipped && k.path.Some? ==> GoodPath(k.path.value, base, depth))
  }

  lemma LeafPath(path: seq<string>, name: string, depth: nat)
    requires VisiblePath(path) && |path| <= depth && Portable(name)
    ensures GoodPath(Relative(path + [name]), path + [name], depth)
    ensures JoinRelative(Relative(path), name) == Relative(path + [name])
    ensures Visible(name) ==> VisiblePath(Split(Relative(path + [name]), '/'))
  {
    RelativeExtends(path, name);
    assert (path + [name])[..|path|] == path;
  }

  lemma PlusPaths(a: Summary, b: Summary, base: seq<string>, depth: nat)
    requires GoodPaths(a, base, depth) && GoodPaths(b, base, depth)
    ensures GoodPaths(Plus(a, b), base, depth)
  {
  }

  lemma WidenPaths(sum: Summary, base: seq<string>, wider: seq<string>, depth: nat)
    requires GoodPaths(sum, base, depth) && wider <= base
    ensures GoodPaths(sum, wider, depth)
  {
  }

  /** Every reported path is an accepted relative path below its directory, with no hidden,
   *  ignored or over-deep parent, and no hidden or ignored entry is a document. */
  lemma {:induction false} PathsAreGood(children: seq<Child>, path: seq<string>, policy: Policy)
    requires VisiblePath(path) && |path| <= policy.depth
    ensures GoodPaths(VisitAll(children, Relative(path), |path|, policy), path, policy.depth)
    decreases children
  {
    if children != [] {
      PathsOfOne(children[0], path, policy);
      var first := Visit(children[0], Relative(path), |path|, policy);
      WidenPaths(first, Base(children[0], path), path, policy.depth);
      PathsAreGood(children[1..], path, policy);
      PlusPaths(first, VisitAll(children[1..], Relative(path), |path|, policy), path, policy.depth);
    }
  }

  /** The path components a child contributes below: its own, when it has a usable name. */
  function Base(child: Child, path: seq<string>): seq<string> {
    if child.name.text.Some? && Portable(child.name.text.value) then path + [child.name.text.value] else path
  }

  predicate Descends(child: Child, prefix: string, depth: nat, policy: Policy) {
    Classify(child, prefix).AsDirectory? && policy.recursive && depth + 1 <= policy.depth
  }

  lemma {:induction false} PathsOfOne(child: Child, path: seq<string>, policy: Policy)
    requires VisiblePath(path) && |path| <= policy.depth
    ensures GoodPaths(Visit(child, Relative(path), |path|, policy), Base(child, path), policy.depth)
    decreases child
  {
    if Descends(child, Relative(path), |path|, policy) {
      EntersBelow(child, path, policy);
      hide GoodPath, VisiblePath, Classify, Relative, Visible, Portable;
      var below := path + [child.name.text.value];
      PathsAreGood(child.node.children, below, policy);
      PlusPaths(ONE_ENTRY, VisitAll(child.node.children, Relative(below), |below|, policy), below, policy.depth);
    } else {
      PathsOfLeaf(child, path, policy);
    }
  }

  /** Entering a directory extends the visible path by its name. */
  lemma EntersBelow(child: Child, path: seq<string>, policy: Policy)
    requires VisiblePath(path) && |path| <= policy.depth
    requires Descends(child, Relative(path), |path|, policy)
    ensures child.name.text.Some? && child.node.Directory?
    ensures var below := path + [child.name.text.value];
      && VisiblePath(below) && |below| <= policy.depth && Base(child, path) == below
      && Visit(child, Relative(path), |path|, policy)
         == Plus(ONE_ENTRY, VisitAll(child.node.children, Relative(below), |below|, policy))
  {
    hide GoodPath;
    LeafPath(path, child.name.text.value, policy.depth);
  }

  lemma PathsOfLeaf(child: Child, path: seq<string>, policy: Policy)
    requires VisiblePath(path) && |path| <= policy.depth
    requires !Descends(child, Relative(path), |path|, policy)
    ensures GoodPaths(Visit(child, Relative(path), |path|, policy), Base(child, path), policy.depth)
  {
    if child.name.text.Some? && Portable(child.name.text.value) {
      LeafPath(path, child.name.text.value, policy.depth);
      LeafPaths(child, Classify(child, Relative(path)), Base(child, path), policy.depth);
    }
  }

  lemma LeafPaths(child: Child, kind: Class, base: seq<string>, depth: nat)
    requires kind.AsSkipped? ==> kind.entry.path.Some? && GoodPath(kind.entry.path.value, base, depth)
    requires kind.AsDirectory? ==> GoodPath(kind.path, base, depth)
    requires kind.AsDocument? ==>
      child.node.Regular? && GoodPath(kind.path, base, depth) && VisiblePath(Split(kind.path, '/'))
    ensures kind.AsSkipped? ==> GoodPaths(OneSkipped(kind.entry), base, depth)
    ensures kind.AsDirectory? ==> forall reason ::
      GoodPaths(OneSkipped(SkippedEntry(Some(kind.path), reason)), base, depth)
    ensures kind.AsDocument? ==> GoodPaths(OneDocument(kind.path, child.node), base, depth)
  {
  }
}
