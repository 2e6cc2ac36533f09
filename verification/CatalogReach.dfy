/**
 * What a catalog of an unchanging tree holds, said by reachability alone: which entries lie
 * in directories discovery reaches, and what each of them is reported as.
 */
module CatalogReach {
  import opened Text
  import opened CatalogTree

  /** The child lies in the directory reached from these children by the named directories. */
  ghost predicate Holds(children: seq<Child>, path: seq<string>, child: Child)
    decreases |path|
  {
    if path == [] then child in children
    else exists d :: d in children && Opens(d, path[0]) && Holds(d.node.children, path[1..], child)
  }

  predicate Opens(child: Child, name: string) {
    child.name.text == Some(name) && child.node.Directory?
  }

  /** How many directories deep discovery goes. */
  function Reach(policy: Policy): nat {
    if policy.recursive then policy.depth else 0
  }

  /** A document or a skipped entry of the report, or a document that cannot be read whole. */
  datatype Item = Document(document: CatalogEntry) | Skipped(entry: SkippedEntry) | Unloadable

  predicate Usable(child: Child) {
    child.name.text.Some? && Portable(child.name.text.value)
  }

  /** The text of a path that ends at this child. */
  function TextOf(path: seq<string>, child: Child): string
    requires Usable(child)
  {
    Join(path + [child.name.text.value], '/')
  }

  predicate VisibleChild(child: Child) {
    Usable(child) && Visible(child.name.text.value)
  }

  /** A child of the directory at `path` is itself the document or skipped entry `item`. */
  predicate Yields(path: seq<string>, child: Child, policy: Policy, item: Item) {
    match item
    case Document(d) =>
      && VisibleChild(child) && child.node.Regular? && d.path == TextOf(path, child)
      && d.content == (if child.node.content.Some? then child.node.content.value else [])
    case Unloadable => VisibleChild(child) && child.node.Regular? && !Loadable(child.node)
    case Skipped(SkippedEntry(None, reason)) => !Usable(child) && reason == MalformedName
    case Skipped(SkippedEntry(Some(text), reason)) =>
      && Usable(child) && text == TextOf(path, child)
      && match reason
         case MalformedName => false
         case Hidden => child.name.text.value[0] == '.'
         case Ignored => IsIgnored(child.name.text.value)
         case NoMetadata => VisibleChild(child) && child.node.Unreadable?
         case IsSymlink => VisibleChild(child) && child.node.Symlink?
         case NonRegular => VisibleChild(child) && child.node.Special?
         case IsDirectory => VisibleChild(child) && child.node.Directory? && !policy.recursive
         case DepthLimit =>
           VisibleChild(child) && child.node.Directory? && policy.recursive && |path| == policy.depth
  }

  /** Some child reached below `base` yields the item. */
  ghost predicate Below(children: seq<Child>, base: seq<string>, policy: Policy, item: Item) {
    exists path, child :: BelowAt(children, base, policy, item, path, child)
  }

  ghost predicate BelowAt(children: seq<Child>, base: seq<string>, policy: Policy, item: Item, path: seq<string>,
                          child: Child)
  {
    && Holds(children, path, child) && VisiblePath(path) && |base| + |path| <= Reach(policy)
    && Yields(base + path, child, policy, item)
  }

  /** The directory is entered: its name is visible and its depth allowed. */
  predicate Entered(child: Child, base: seq<string>, policy: Policy) {
    VisibleChild(child) && child.node.Directory? && |base| + 1 <= Reach(policy)
  }

  ghost predicate BelowOne(child: Child, base: seq<string>, policy: Policy, item: Item) {
    || Yields(base, child, policy, item)
    || (Entered(child, base, policy) && Below(child.node.children, base + [child.name.text.value], policy, item))
  }

  lemma BelowFromOne(children: seq<Child>, base: seq<string>, policy: Policy, item: Item, child: Child)
    requires |base| <= Reach(policy) && child in children && BelowOne(child, base, policy, item)
    ensures Below(children, base, policy, item)
  {
    if Yields(base, child, policy, item) {
      assert base + [] == base;
      assert BelowAt(children, base, policy, item, [], child);
    } else {
      var name := child.name.text.value;
      var path, leaf :| BelowAt(child.node.children, base + [name], policy, item, path, leaf);
      var whole := [name] + path;
      assert whole[1..] == path && base + [name] + path == base + whole;
      assert Opens(child, whole[0]) && Holds(children, whole, leaf);
      assert BelowAt(children, base, policy, item, whole, leaf);
    }
  }

  lemma BelowToOne(children: seq<Child>, base: seq<string>, policy: Policy, item: Item) returns (child: Child)
    requires Below(children, base, policy, item)
    ensures child in children && BelowOne(child, base, policy, item)
  {
    var path, leaf :| BelowAt(children, base, policy, item, path, leaf);
    if path == [] {
      assert base + [] == base;
      return leaf;
    }
    child :| child in children && Opens(child, path[0]) && Holds(child.node.children, path[1..], leaf);
    assert Visible(path[0]) && VisiblePath(path[1..]);
    assert base + [path[0]] + path[1..] == base + path;
    assert BelowAt(child.node.children, base + [path[0]], policy, item, path[1..], leaf);
  }

  predicate In(sum: Summary, item: Item) {
    match item
    case Document(d) => d in sum.documents
    case Skipped(k) => k in sum.skipped
    case Unloadable => sum.blocked > 0
  }

  lemma InPlus(a: Summary, b: Summary, item: Item)
    ensures In(Plus(a, b), item) <==> In(a, item) || In(b, item)
  {
  }

  /** An entry that is not entered is reported as exactly what it yields. */
  lemma LeafYields(child: Child, base: seq<string>, policy: Policy, item: Item)
    requires VisiblePath(base) && |base| <= Reach(policy) && !Descends(child, Relative(base), |base|, policy)
    ensures In(Visit(child, Relative(base), |base|, policy), item) <==> Yields(base, child, policy, item)
    ensures !Entered(child, base, policy)
  {
    hide VisiblePath, IsIgnored, Relative, JoinRelative, TextOf, Visit, Yields;
    NamedPath(child, base, policy);
    ClassificationTable(child, Relative(base));
    if VisibleChild(child) {
      VisibleYields(child, base, policy, item);
    } else {
      RefusedYields(child, base, policy, item);
    }
  }

  lemma VisibleYields(child: Child, base: seq<string>, policy: Policy, item: Item)
    requires VisibleChild(child) && |base| <= Reach(policy) && !Descends(child, Relative(base), |base|, policy)
    requires JoinRelative(Relative(base), child.name.text.value) == TextOf(base, child)
    ensures In(Visit(child, Relative(base), |base|, policy), item) <==> Yields(base, child, policy, item)
  {
    hide IsIgnored, Relative, JoinRelative, TextOf;
  }

  lemma RefusedYields(child: Child, base: seq<string>, policy: Policy, item: Item)
    requires !VisibleChild(child)
    requires Usable(child) ==> JoinRelative(Relative(base), child.name.text.value) == TextOf(base, child)
    requires Usable(child) && IsIgnored(child.name.text.value) ==> child.name.text.value[0] != '.'
    ensures In(Visit(child, Relative(base), |base|, policy), item) <==> Yields(base, child, policy, item)
  {
    hide IsIgnored, Relative, JoinRelative, TextOf;
  }

  lemma NamedPath(child: Child, base: seq<string>, policy: Policy)
    requires VisiblePath(base) && |base| <= Reach(policy)
    ensures Usable(child) ==>
              JoinRelative(Relative(base), child.name.text.value) == TextOf(base, child)
  {
    if Usable(child) { RelativeExtends(base, child.name.text.value); }
  }

  lemma EnteredYieldsNothing(child: Child, base: seq<string>, policy: Policy, item: Item)
    requires VisiblePath(base) && |base| <= Reach(policy) && Descends(child, Relative(base), |base|, policy)
    ensures Entered(child, base, policy) && !Yields(base, child, policy, item)
  {
    ClassificationTable(child, Relative(base));
  }

  lemma {:induction false} VisitReports(child: Child, base: seq<string>, policy: Policy, item: Item)
    requires VisiblePath(base) && |base| <= Reach(policy)
    ensures In(Visit(child, Relative(base), |base|, policy), item) <==> BelowOne(child, base, policy, item)
    decreases child
  {
    hide Yields, VisiblePath, Relative, Classify, Below;
    if Descends(child, Relative(base), |base|, policy) {
      EnteredYieldsNothing(child, base, policy, item);
      EntersBelow(child, base, policy);
      var below := base + [child.name.text.value];
      VisitAllReports(child.node.children, below, policy, item);
      InPlus(ONE_ENTRY, VisitAll(child.node.children, Relative(below), |below|, policy), item);
    } else {
      LeafYields(child, base, policy, item);
    }
  }

  lemma {:induction false} VisitAllReports(children: seq<Child>, base: seq<string>, policy: Policy, item: Item)
    requires VisiblePath(base) && |base| <= Reach(policy)
    ensures In(VisitAll(children, Relative(base), |base|, policy), item) <==> Below(children, base, policy, item)
    decreases children
  {
    hide Yields, VisiblePath, Relative, Below, BelowOne;
    if children != [] {
      var first, rest := Visit(children[0], Relative(base), |base|, policy), children[1..];
      VisitReports(children[0], base, policy, item);
      VisitAllReports(rest, base, policy, item);
      InPlus(first, VisitAll(rest, Relative(base), |base|, policy), item);
      BelowSplits(children, base, policy, item);
    } else {
      NothingBelow(base, policy, item);
    }
  }

  lemma BelowSplits(children: seq<Child>, base: seq<string>, policy: Policy, item: Item)
    requires children != [] && |base| <= Reach(policy)
    ensures Below(children, base, policy, item) <==>
              BelowOne(children[0], base, policy, item) || Below(children[1..], base, policy, item)
  {
    hide Below, BelowOne;
    if Below(children, base, policy, item) {
      var child := BelowToOne(children, base, policy, item);
      if child != children[0] { BelowFromOne(children[1..], base, policy, item, child); }
    }
    if BelowOne(children[0], base, policy, item) {
      BelowFromOne(children, base, policy, item, children[0]);
    }
    if Below(children[1..], base, policy, item) {
      var child := BelowToOne(children[1..], base, policy, item);
      BelowFromOne(children, base, policy, item, child);
    }
  }

  lemma NothingBelow(base: seq<string>, policy: Policy, item: Item)
    ensures !Below([], base, policy, item) && !In(VisitAll([], Relative(base), |base|, policy), item)
  {
    if Below([], base, policy, item) {
      var child := BelowToOne([], base, policy, item);
      assert false;
    }
  }

  /** Some child of a directory reached from the root is this document or skipped entry. */
  ghost predicate Reported(root: seq<Child>, policy: Policy, item: Item) {
    exists path, child :: Reachable(root, path, child, policy) && Yields(path, child, policy, item)
  }

  ghost predicate Reachable(root: seq<Child>, path: seq<string>, child: Child, policy: Policy) {
    Holds(root, path, child) && VisiblePath(path) && |path| <= Reach(policy)
  }

  /** A document is reported exactly when it is a visible regular child of a directory reached from the
   *  root by at most `depth` visible names, or of the root itself when not recursive; a skipped entry
   *  exactly when it is a child of such a directory that is refused for that reason. A directory is
   *  skipped as a directory only without recursion, and for its depth only in a directory at the limit. */
  lemma ReportsExactly(root: seq<Child>, policy: Policy, item: Item)
    ensures In(VisitAll(root, "", 0, policy), item) <==> Reported(root, policy, item)
  {
    hide Yields, VisitAll, In, Reachable, BelowAt;
    VisitAllReports(root, [], policy, item);
    if Below(root, [], policy, item) {
      var path, child :| BelowAt(root, [], policy, item, path, child);
      BelowRoot(root, policy, item, path, child);
    }
    if Reported(root, policy, item) {
      var path, child :| Reachable(root, path, child, policy) && Yields(path, child, policy, item);
      BelowRoot(root, policy, item, path, child);
    }
  }

  lemma BelowRoot(root: seq<Child>, policy: Policy, item: Item, path: seq<string>, child: Child)
    ensures BelowAt(root, [], policy, item, path, child) <==>
              Reachable(root, path, child, policy) && Yields(path, child, policy, item)
  {
    hide Yields, Holds, VisiblePath;
    assert [] + path == path;
  }
}
