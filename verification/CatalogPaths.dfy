/** No path is reported twice, and how directories are found again by path. */
module CatalogPaths {
  import opened Text
  import opened CatalogTree

  ghost predicate Reports(sum: Summary, s: string) {
    || (exists d :: d in sum.documents && d.path == s)
    || (exists k :: k in sum.skipped && k.path == Some(s))
  }

  ghost predicate OneDocumentPerPath(m: multiset<CatalogEntry>) {
    && (forall d :: d in m ==> m[d] == 1)
    && (forall d, e :: d in m && e in m && d.path == e.path ==> d == e)
  }

  ghost predicate OneSkipPerPath(m: multiset<SkippedEntry>) {
    && (forall k :: k in m && k.path.Some? ==> m[k] == 1)
    && (forall k, l :: k in m && l in m && k.path.Some? && k.path == l.path ==> k == l)
  }

  /** Each path is reported at most once, by one document or by one skipped entry. */
  ghost predicate Exclusive(sum: Summary) {
    && OneDocumentPerPath(sum.documents)
    && OneSkipPerPath(sum.skipped)
    && (forall d, k :: d in sum.documents && k in sum.skipped ==> k.path != Some(d.path))
  }

  ghost predicate Apart(a: Summary, b: Summary) {
    forall s :: !(Reports(a, s) && Reports(b, s))
  }

  lemma PlusReports(a: Summary, b: Summary, s: string)
    ensures Reports(Plus(a, b), s) <==> Reports(a, s) || Reports(b, s)
  {
    var both := Plus(a, b);
    assert forall d :: d in both.documents <==> d in a.documents || d in b.documents;
    assert forall k :: k in both.skipped <==> k in a.skipped || k in b.skipped;
  }

  lemma ReportsEntries(sum: Summary)
    ensures forall d :: d in sum.documents ==> Reports(sum, d.path)
    ensures forall k :: k in sum.skipped && k.path.Some? ==> Reports(sum, k.path.value)
  {
  }

  lemma PlusExclusive(a: Summary, b: Summary)
    requires Exclusive(a) && Exclusive(b) && Apart(a, b)
    ensures Exclusive(Plus(a, b))
  {
    ReportsEntries(a);
    ReportsEntries(b);
    assert OneDocumentPerPath(Plus(a, b).documents);
    assert OneSkipPerPath(Plus(a, b).skipped);
  }

  /** Whatever is reported lies below the base. */
  lemma ReportsBelow(sum: Summary, base: seq<string>, depth: nat, s: string)
    requires GoodPaths(sum, base, depth) && Reports(sum, s)
    ensures base <= Split(s, '/')
  {
  }

  lemma NamelessReportsNothing(child: Child, prefix: string, depth: nat, policy: Policy, s: string)
    requires child.name.text.None? || !Portable(child.name.text.value)
    ensures !Reports(Visit(child, prefix, depth, policy), s)
  {
  }

  /** A reported path names the child it was reported for. */
  lemma ReportNamesChild(child: Child, path: seq<string>, policy: Policy, s: string)
    requires VisiblePath(path) && |path| <= policy.depth
    requires Reports(Visit(child, Relative(path), |path|, policy), s)
    ensures |path| < |Split(s, '/')| && child.name.text == Some(Split(s, '/')[|path|])
  {
    var sum := Visit(child, Relative(path), |path|, policy);
    assert child.name.text.Some? && Portable(child.name.text.value) by {
      if child.name.text.None? || !Portable(child.name.text.value) {
        NamelessReportsNothing(child, Relative(path), |path|, policy, s);
      }
    }
    PathsOfOne(child, path, policy);
    ReportsBelow(sum, Base(child, path), policy.depth, s);
    assert Base(child, path)[|path|] == child.name.text.value;
  }

  /** Children with different names never report the same path. */
  lemma ChildrenApart(a: Child, b: Child, path: seq<string>, policy: Policy)
    requires VisiblePath(path) && |path| <= policy.depth
    requires a.name.text.Some? ==> a.name.text != b.name.text
    ensures Apart(Visit(a, Relative(path), |path|, policy), Visit(b, Relative(path), |path|, policy))
  {
    var left, right := Visit(a, Relative(path), |path|, policy), Visit(b, Relative(path), |path|, policy);
    forall s ensures !(Reports(left, s) && Reports(right, s)) {
      if Reports(left, s) && Reports(right, s) {
        ReportNamesChild(a, path, policy, s);
        ReportNamesChild(b, path, policy, s);
      }
    }
  }

  lemma {:induction false} ApartFromRest(child: Child, rest: seq<Child>, path: seq<string>, policy: Policy)
    requires VisiblePath(path) && |path| <= policy.depth
    requires child.name.text.Some? ==> forall i :: 0 <= i < |rest| ==> rest[i].name.text != child.name.text
    ensures Apart(Visit(child, Relative(path), |path|, policy), VisitAll(rest, Relative(path), |path|, policy))
    decreases |rest|
  {
    if rest != [] {
      ChildrenApart(child, rest[0], path, policy);
      ApartFromRest(child, rest[1..], path, policy);
      var first := Visit(rest[0], Relative(path), |path|, policy);
      var others := VisitAll(rest[1..], Relative(path), |path|, policy);
      forall s ensures !(Reports(Visit(child, Relative(path), |path|, policy), s) && Reports(Plus(first, others), s)) {
        PlusReports(first, others, s);
      }
    }
  }

  /** In a well-formed tree no relative path is reported twice: each names one document or one
   *  skipped entry, never both. */
  lemma {:induction false} ReportsAreExclusive(children: seq<Child>, path: seq<string>, policy: Policy)
    requires WellFormed(children) && VisiblePath(path) && |path| <= policy.depth
    ensures Exclusive(VisitAll(children, Relative(path), |path|, policy))
    decreases children
  {
    if children != [] {
      ExclusiveOfOne(children[0], path, policy);
      assert WellFormed(children[1..]);
      ReportsAreExclusive(children[1..], path, policy);
      ApartFromRest(children[0], children[1..], path, policy);
      PlusExclusive(Visit(children[0], Relative(path), |path|, policy),
                    VisitAll(children[1..], Relative(path), |path|, policy));
    }
  }

  lemma {:induction false} ExclusiveOfOne(child: Child, path: seq<string>, policy: Policy)
    requires WellFormedChild(child) && VisiblePath(path) && |path| <= policy.depth
    ensures Exclusive(Visit(child, Relative(path), |path|, policy))
    decreases child
  {
    if Descends(child, Relative(path), |path|, policy) {
      var below := path + [child.name.text.value];
      LeafPath(path, child.name.text.value, policy.depth);
      ReportsAreExclusive(child.node.children, below, policy);
      PlusExclusive(ONE_ENTRY, VisitAll(child.node.children, Relative(below), |below|, policy));
    } else {
      ExclusiveOfLeaf(child, Relative(path), |path|, policy);
    }
  }

  lemma ExclusiveOfLeaf(child: Child, prefix: string, depth: nat, policy: Policy)
    requires !Descends(child, prefix, depth, policy)
    ensures Exclusive(Visit(child, prefix, depth, policy))
  {
  }

  // ---------------------------------------------------------------- directories by path

  /** The children of the directory with this name, if there is one. */
  function Find(children: seq<Child>, name: string): Option<seq<Child>> {
    if children == [] then None
    else if children[0].name.text == Some(name) then
      if children[0].node.Directory? then Some(children[0].node.children) else None
    else Find(children[1..], name)
  }

  function ChildrenAt(root: seq<Child>, path: seq<string>): Option<seq<Child>>
    decreases |path|
  {
    if path == [] then Some(root)
    else
      var parent := ChildrenAt(root, path[..|path| - 1]);
      if parent.None? then None else Find(parent.value, path[|path| - 1])
  }

  lemma {:induction false} FindChild(children: seq<Child>, k: nat)
    requires DistinctNames(children) && k < |children|
    requires children[k].name.text.Some? && children[k].node.Directory?
    ensures Find(children, children[k].name.text.value) == Some(children[k].node.children)
  {
    if k > 0 {
      FindChild(children[1..], k - 1);
    }
  }

  /** The directory reached through a listed child is the one found again by its path. */
  lemma ChildIsAtItsPath(root: seq<Child>, path: seq<string>, child: Child)
    requires ChildrenAt(root, path).Some? && WellFormed(ChildrenAt(root, path).value)
    requires child in ChildrenAt(root, path).value
    ensures Stable(child.node)
    ensures child.name.text.Some? && child.node.Directory? ==>
      && ChildrenAt(root, path + [child.name.text.value]) == Some(child.node.children)
      && WellFormed(child.node.children)
  {
    var siblings := ChildrenAt(root, path).value;
    var k :| 0 <= k < |siblings| && siblings[k] == child;
    assert WellFormedChild(siblings[k]);
    if child.name.text.Some? && child.node.Directory? {
      FindChild(siblings, k);
      assert (path + [child.name.text.value])[..|path|] == path;
    }
  }
}
