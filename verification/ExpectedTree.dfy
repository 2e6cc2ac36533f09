/** Checking that a build produced exactly the expected tree of files and their parent directories. */
module ExpectedTree {
  import opened Text

  datatype Kind = RegularFile | Directory

  datatype Entry = Entry(path: string, kind: Kind, singleLink: bool)

  /** Member paths are relative and have no empty component. */
  predicate ValidPath(path: string) {
    forall i :: 0 <= i < |Split(path, '/')| ==> Split(path, '/')[i] != ""
  }

  predicate Ancestor(a: string, path: string) {
    Split(a, '/') < Split(path, '/')
  }

  // ---------------------------------------------------------------- prefixes of a path

  /** The path made of the first `k` components. */
  function Prefix(path: string, k: nat): string
    requires 1 <= k <= |Split(path, '/')|
  {
    Join(Split(path, '/')[..k], '/')
  }

  lemma PrefixSplits(path: string, k: nat)
    requires 1 <= k <= |Split(path, '/')|
    ensures Split(Prefix(path, k), '/') == Split(path, '/')[..k]
  {
    SplitJoin(Split(path, '/')[..k], '/');
  }

  /** The ancestors of a path are its shorter prefixes. */
  lemma AncestorIsPrefix(a: string, path: string)
    requires Ancestor(a, path)
    ensures 1 <= |Split(a, '/')| < |Split(path, '/')| && a == Prefix(path, |Split(a, '/')|)
  {
    JoinSplit(a, '/');
    assert Split(path, '/')[..|Split(a, '/')|] == Split(a, '/');
  }

  lemma PrefixIsAncestor(path: string, k: nat)
    requires 1 <= k < |Split(path, '/')|
    ensures Ancestor(Prefix(path, k), path)
  {
    PrefixSplits(path, k);
  }

  lemma {:induction false} JoinLast(parts: seq<string>, k: nat)
    requires 1 <= k < |parts|
    ensures Join(parts[..k + 1], '/') == Join(parts[..k], '/') + "/" + parts[k]
  {
    if k == 1 {
      assert parts[..2][1..] == [parts[1]];
      assert Join(parts[..1], '/') == parts[0];
    } else {
      JoinLast(parts[1..], k - 1);
      assert parts[..k + 1][1..] == parts[1..][..k];
      assert parts[..k][1..] == parts[1..][..k - 1];
    }
  }

  /** Writing one more component after a non-empty prefix gives the next prefix. */
  lemma NextPrefix(path: string, k: nat)
    requires ValidPath(path) && 1 <= k < |Split(path, '/')|
    ensures Prefix(path, k) != ""
    ensures Prefix(path, k + 1) == Prefix(path, k) + "/" + Split(path, '/')[k]
  {
    JoinLast(Split(path, '/'), k);
    assert Split(path, '/')[0] != "";
  }

  lemma FirstPrefix(path: string)
    ensures Prefix(path, 1) == Split(path, '/')[0]
  {
    assert Split(path, '/')[..1] == [Split(path, '/')[0]];
  }

  // ---------------------------------------------------------------- inserting one file

  /** The first `k` proper prefixes recorded as directories. */
  function WithPrefixes(expected: map<string, Kind>, path: string, k: nat): map<string, Kind>
    requires k < |Split(path, '/')|
  {
    if k == 0 then expected else WithPrefixes(expected, path, k - 1)[Prefix(path, k) := Directory]
  }

  lemma {:induction false} PrefixesAdded(expected: map<string, Kind>, path: string, k: nat, a: string)
    requires k < |Split(path, '/')|
    ensures var m := WithPrefixes(expected, path, k);
      if Ancestor(a, path) && |Split(a, '/')| <= k then a in m && m[a] == Directory
      else (a in m <==> a in expected) && (a in m ==> m[a] == expected[a])
  {
    if k > 0 {
      PrefixesAdded(expected, path, k - 1, a);
      PrefixIsAncestor(path, k);
      PrefixSplits(path, k);
      if Ancestor(a, path) && |Split(a, '/')| == k {
        AncestorIsPrefix(a, path);
      }
    }
  }

  /** The file can be added: its path is free and no ancestor is a file. */
  ghost predicate Free(expected: map<string, Kind>, path: string) {
    path !in expected && forall a :: Ancestor(a, path) ==> !(a in expected && expected[a] == RegularFile)
  }

  /** None of the first `k` prefixes is a file. */
  ghost predicate ClearUpTo(expected: map<string, Kind>, path: string, k: nat) {
    forall a :: Ancestor(a, path) && |Split(a, '/')| <= k ==> !(a in expected && expected[a] == RegularFile)
  }

  lemma ClearNext(expected: map<string, Kind>, path: string, k: nat)
    requires k + 1 < |Split(path, '/')|
    ensures ClearUpTo(expected, path, k + 1) <==>
      ClearUpTo(expected, path, k) && !(Prefix(path, k + 1) in expected && expected[Prefix(path, k + 1)] == RegularFile)
    ensures var m := WithPrefixes(expected, path, k);
      var p := Prefix(path, k + 1);
      (p in m <==> p in expected) && (p in m ==> m[p] == expected[p])
  {
    PrefixSplits(path, k + 1);
    PrefixIsAncestor(path, k + 1);
    PrefixesAdded(expected, path, k, Prefix(path, k + 1));
    forall a | Ancestor(a, path) && |Split(a, '/')| == k + 1 ensures a == Prefix(path, k + 1) {
      AncestorIsPrefix(a, path);
    }
  }

  lemma ClearIsFree(expected: map<string, Kind>, path: string)
    ensures Free(expected, path) <==>
      && ClearUpTo(expected, path, |Split(path, '/')| - 1)
      && path !in WithPrefixes(expected, path, |Split(path, '/')| - 1)
    ensures Free(expected, path) ==> forall k :: 0 <= k < |Split(path, '/')| ==> ClearUpTo(expected, path, k)
  {
    PrefixesAdded(expected, path, |Split(path, '/')| - 1, path);
  }

  method InsertExpectedFile(expected: map<string, Kind>, path: string) returns (ok: bool, result: map<string, Kind>)
    requires ValidPath(path)
    ensures ok <==> Free(expected, path)
    ensures ok ==> result == WithPrefixes(expected, path, |Split(path, '/')| - 1)[path := RegularFile]
  {
    hide Prefix, ValidPath, ClearUpTo, Free;
    var parts := Split(path, '/');
    var prefix := "";
    result := expected;
    ClearIsFree(expected, path);
    assert ClearUpTo(expected, path, 0) by {
      NothingToClear(expected, path);
    }
    for k := 0 to |parts| - 1
      invariant prefix == if k == 0 then "" else Prefix(path, k)
      invariant result == WithPrefixes(expected, path, k)
      invariant ClearUpTo(expected, path, k)
    {
      if k > 0 {
        NextPrefix(path, k);
      } else {
        FirstPrefix(path);
      }
      if prefix != "" {
        prefix := prefix + "/";
      }
      prefix := prefix + parts[k];
      assert prefix == Prefix(path, k + 1);
      ClearNext(expected, path, k);
      if prefix in result && result[prefix] == RegularFile {
        return false, result;
      }
      result := result[prefix := Directory];
    }
    ok := path !in result;
    result := result[path := RegularFile];
  }

  lemma NothingToClear(expected: map<string, Kind>, path: string)
    ensures ClearUpTo(expected, path, 0)
  {
  }

  // ---------------------------------------------------------------- the ancestor closure

  /** Exactly the files and their ancestors, each with its kind. */
  ghost predicate Describes(expected: map<string, Kind>, files: set<string>) {
    && (forall p :: p in expected && expected[p] == RegularFile ==> p in files)
    && (forall p :: p in expected && expected[p] == Directory ==> exists f :: f in files && Ancestor(p, f))
    && (forall f :: f in files ==> f in expected && expected[f] == RegularFile)
    && (forall a, f :: f in files && Ancestor(a, f) ==> a in expected && expected[a] == Directory)
  }

  /** The path clashes with a file: the same path, or one is an ancestor of the other. */
  ghost predicate Clashes(path: string, files: set<string>) {
    path in files || exists f :: f in files && (Ancestor(path, f) || Ancestor(f, path))
  }

  lemma FreeIffNoClash(expected: map<string, Kind>, files: set<string>, path: string)
    requires Describes(expected, files)
    ensures Free(expected, path) <==> !Clashes(path, files)
  {
  }

  /** The result is the old map with the file and its ancestors. */
  ghost predicate Extended(expected: map<string, Kind>, path: string, result: map<string, Kind>) {
    && (forall p :: p in result <==> p in expected || p == path || Ancestor(p, path))
    && result[path] == RegularFile
    && (forall p :: Ancestor(p, path) ==> p in result && result[p] == Directory)
    && (forall p :: p in expected && p != path && !Ancestor(p, path) ==> p in result && result[p] == expected[p])
  }

  lemma InsertionExtends(expected: map<string, Kind>, path: string)
    ensures Extended(expected, path, WithPrefixes(expected, path, |Split(path, '/')| - 1)[path := RegularFile])
  {
    hide WithPrefixes;
    forall p {
      PrefixesAdded(expected, path, |Split(path, '/')| - 1, p);
    }
  }

  lemma DescribesOneMore(expected: map<string, Kind>, files: set<string>, path: string, result: map<string, Kind>)
    requires Describes(expected, files) && !Clashes(path, files) && Extended(expected, path, result)
    ensures Describes(result, files + {path})
  {
    hide Ancestor;
    assert path in files + {path};
    forall p | p in result && result[p] == Directory ensures exists f :: f in files + {path} && Ancestor(p, f) {
      if !Ancestor(p, path) {
        assert p in expected && expected[p] == Directory;
        var f :| f in files && Ancestor(p, f);
        assert f in files + {path};
      }
    }
  }

  // ---------------------------------------------------------------- all expected files

  ghost predicate Compatible(paths: seq<string>) {
    && (forall i, j :: 0 <= i < j < |paths| ==> paths[i] != paths[j])
    && (forall i, j :: 0 <= i < |paths| && 0 <= j < |paths| ==> !Ancestor(paths[i], paths[j]))
  }

  ghost function Files(paths: seq<string>): set<string> {
    set p | p in paths
  }

  lemma CompatibleSnoc(paths: seq<string>, path: string)
    requires Compatible(paths)
    ensures Compatible(paths + [path]) <==> !Clashes(path, Files(paths))
  {
    var all := paths + [path];
    if Clashes(path, Files(paths)) {
      if path in paths {
        var i :| 0 <= i < |paths| && paths[i] == path;
        assert all[i] == all[|paths|];
      } else {
        var f :| f in Files(paths) && (Ancestor(path, f) || Ancestor(f, path));
        var i :| 0 <= i < |paths| && paths[i] == f;
        assert all[i] == f && all[|paths|] == path;
      }
    } else {
      assert forall i :: 0 <= i < |paths| ==> paths[i] in Files(paths);
    }
  }

  lemma CompatiblePrefix(paths: seq<string>, n: nat)
    requires n <= |paths| && Compatible(paths)
    ensures Compatible(paths[..n])
  {
  }

  /** Compatibility does not depend on the order of the paths. */
  lemma CompatibleIgnoresOrder(a: seq<string>, b: seq<string>)
    requires multiset(a) == multiset(b) && Compatible(a)
    ensures Compatible(b)
  {
    forall i, j | 0 <= i < j < |b| ensures b[i] != b[j] {
      if b[i] == b[j] {
        assert b == b[..i] + [b[i]] + b[i + 1..j] + [b[j]] + b[j + 1..];
        assert multiset(b)[b[i]] >= 2;
        OnceEach(a, b[i]);
      }
    }
    forall i, j | 0 <= i < |b| && 0 <= j < |b| ensures !Ancestor(b[i], b[j]) {
      assert b[i] in multiset(a) && b[j] in multiset(a);
      var k :| 0 <= k < |a| && a[k] == b[i];
      var l :| 0 <= l < |a| && a[l] == b[j];
    }
  }

  lemma {:induction false} OnceEach(a: seq<string>, p: string)
    requires forall i, j :: 0 <= i < j < |a| ==> a[i] != a[j]
    ensures multiset(a)[p] <= 1
  {
    if a != [] {
      OnceEach(a[1..], p);
      assert a == [a[0]] + a[1..];
      assert a[0] !in a[1..];
    }
  }

  method BuildExpected(paths: seq<string>) returns (ok: bool, expected: map<string, Kind>)
    requires forall i :: 0 <= i < |paths| ==> ValidPath(paths[i])
    ensures ok <==> Compatible(paths)
    ensures ok ==> Describes(expected, Files(paths))
  {
    expected := map[];
    ok := true;
    for i := 0 to |paths|
      invariant Compatible(paths[..i]) && Describes(expected, Files(paths[..i]))
    {
      ghost var before := expected;
      assert paths[..i] + [paths[i]] == paths[..i + 1];
      CompatibleSnoc(paths[..i], paths[i]);
      FreeIffNoClash(before, Files(paths[..i]), paths[i]);
      ok, expected := InsertExpectedFile(expected, paths[i]);
      if !ok {
        if Compatible(paths) {
          CompatiblePrefix(paths, i + 1);
        }
        return;
      }
      InsertionExtends(before, paths[i]);
      DescribesOneMore(before, Files(paths[..i]), paths[i], expected);
      assert Files(paths[..i]) + {paths[i]} == Files(paths[..i + 1]);
    }
    assert paths[..|paths|] == paths;
    ok := true;
  }

  // ---------------------------------------------------------------- validation

  ghost predicate DistinctPaths(entries: seq<Entry>) {
    forall i, j :: 0 <= i < j < |entries| ==> entries[i].path != entries[j].path
  }

  ghost predicate Holds(entries: seq<Entry>, path: string, kind: Kind) {
    exists i :: 0 <= i < |entries| && entries[i].path == path && entries[i].kind == kind
  }

  /** The tree holds each file once and singly linked, each ancestor as a directory, and no more. */
  ghost predicate Exactly(entries: seq<Entry>, files: set<string>) {
    && (forall i :: 0 <= i < |entries| && entries[i].kind == RegularFile ==>
          entries[i].path in files && entries[i].singleLink)
    && (forall i :: 0 <= i < |entries| && entries[i].kind == Directory ==>
          exists f :: f in files && Ancestor(entries[i].path, f))
    && (forall f :: f in files ==> Holds(entries, f, RegularFile))
    && (forall a, f :: f in files && Ancestor(a, f) ==> Holds(entries, a, Directory))
  }

  ghost function Paths(entries: seq<Entry>): set<string> {
    set i | 0 <= i < |entries| :: entries[i].path
  }

  lemma {:induction false} PathCount(entries: seq<Entry>)
    requires DistinctPaths(entries)
    ensures |Paths(entries)| == |entries|
  {
    if entries != [] {
      var n := |entries| - 1;
      PathCount(entries[..n]);
      assert Paths(entries) == Paths(entries[..n]) + {entries[n].path};
      assert entries[n].path !in Paths(entries[..n]);
    }
  }

  lemma SubsetOfSameSize(a: set<string>, b: set<string>)
    requires a <= b && |a| == |b|
    ensures a == b
  {
    assert b == a + (b - a);
    assert |b| == |a| + |b - a|;
  }

  ghost predicate Agrees(expected: map<string, Kind>, entry: Entry) {
    && entry.path in expected && expected[entry.path] == entry.kind
    && (entry.kind == RegularFile ==> entry.singleLink)
  }

  /** Equal size and agreement entry by entry leave no room for a missing path. */
  lemma AgreementIsExact(expected: map<string, Kind>, files: set<string>, entries: seq<Entry>)
    requires Describes(expected, files) && DistinctPaths(entries) && |entries| == |expected|
    requires forall i :: 0 <= i < |entries| ==> Agrees(expected, entries[i])
    ensures Exactly(entries, files)
  {
    PathCount(entries);
    assert Paths(entries) <= expected.Keys;
    assert |expected.Keys| == |expected|;
    SubsetOfSameSize(Paths(entries), expected.Keys);
    forall p | p in expected ensures Holds(entries, p, expected[p]) {
      assert p in Paths(entries);
      var i :| 0 <= i < |entries| && entries[i].path == p;
      assert Agrees(expected, entries[i]);
    }
  }

  lemma ExactAgrees(expected: map<string, Kind>, files: set<string>, entries: seq<Entry>)
    requires Describes(expected, files) && DistinctPaths(entries) && Exactly(entries, files)
    ensures |entries| == |expected|
    ensures forall i :: 0 <= i < |entries| ==> Agrees(expected, entries[i])
  {
    forall i | 0 <= i < |entries| ensures Agrees(expected, entries[i]) {
      assert entries[i].kind == RegularFile || entries[i].kind == Directory;
    }
    forall p | p in expected.Keys ensures p in Paths(entries) {
      assert Holds(entries, p, expected[p]);
    }
    assert Paths(entries) == expected.Keys;
    PathCount(entries);
  }

  const FIXED_FILES: seq<string> := ["runtime-layout.json", "sbom.json", "provenance.json", "transformation.json"]

  function AllFiles(members: seq<string>): seq<string> {
    FIXED_FILES + members
  }

  lemma AllFilesAreValid(members: seq<string>)
    requires forall i :: 0 <= i < |members| ==> ValidPath(members[i])
    ensures forall i :: 0 <= i < |AllFiles(members)| ==> ValidPath(AllFiles(members)[i])
  {
    forall i | 0 <= i < |FIXED_FILES| ensures ValidPath(FIXED_FILES[i]) {
      SplitOne(FIXED_FILES[i], '/');
    }
  }

  method ValidateOutputShape(entries: seq<Entry>, members: seq<string>) returns (ok: bool)
    requires DistinctPaths(entries)
    requires forall i :: 0 <= i < |members| ==> ValidPath(members[i])
    ensures ok <==> Compatible(AllFiles(members)) && Exactly(entries, Files(AllFiles(members)))
  {
    hide AllFiles, Exactly, Describes, Compatible, Files;
    var expected;
    ghost var files := Files(AllFiles(members));
    AllFilesAreValid(members);
    ok, expected := BuildExpected(AllFiles(members));
    if !ok {
      return;
    }
    if Exactly(entries, files) {
      ExactAgrees(expected, files, entries);
    }
    if |entries| != |expected| {
      return false;
    }
    for i := 0 to |entries|
      invariant forall k :: 0 <= k < i ==> Agrees(expected, entries[k])
    {
      var entry := entries[i];
      if entry.path !in expected || expected[entry.path] != entry.kind
         || (entry.kind == RegularFile && !entry.singleLink) {
        assert !Agrees(expected, entries[i]);
        return false;
      }
    }
    AgreementIsExact(expected, files, entries);
  }
}
