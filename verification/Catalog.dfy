/**
 * Bounded document discovery: a worklist of directories read under an entry,
 * depth and byte budget, while the file system may change between two calls.
 */
module DocumentCatalog {
  import opened Text
  import opened Artifacts
  import opened Sorting
  import opened CatalogTree
  import opened CatalogPaths
  import CatalogReach

  const MAX_ENTRIES: nat := 4096
  const MAX_DEPTH: nat := 8
  const MAX_BYTES: nat := 64 * 1024 * 1024

  datatype CatalogError = Cancelled | ResourceLimitExceeded | InvalidPath | InputFailed | IntakeFailed

  datatype IntakeError = IntakeCancelled | InputTooLarge

  datatype Limits = Limits(entries: nat, depth: nat, bytes: nat)

  /** One reading of a directory: refused, or entries followed by an end or by an error. */
  datatype Listing = Denied | Listed(entries: seq<Child>, complete: bool)

  /** What the n-th directory read shows at a path below the root. */
  type FileSystem = (nat, seq<string>) -> Listing

  datatype RootKind = RootMissing | RootNotDirectory | RootDirectory

  datatype Frame = Frame(path: seq<string>, relative: string, depth: nat)

  /** What the walk holds between two entries. */
  datatype Found = Found(
    documents: seq<CatalogEntry>,
    skipped: seq<SkippedEntry>,
    pending: seq<Frame>,
    bytes: nat)

  datatype Catalog = Catalog(documents: seq<CatalogEntry>, skipped: seq<SkippedEntry>)

  // ---------------------------------------------------------------- orders

  function NameCodes(name: OsName): (r: seq<int>)
    ensures |r| == |name.bytes| && forall i :: 0 <= i < |r| ==> r[i] == name.bytes[i] as int
  {
    seq(|name.bytes|, i requires 0 <= i < |name.bytes| => name.bytes[i] as int)
  }

  predicate NameLeq(a: Child, b: Child) {
    LexLeq(NameCodes(a.name), NameCodes(b.name))
  }

  predicate DocumentLeq(a: CatalogEntry, b: CatalogEntry) {
    LexLeq(Codes(a.path), Codes(b.path))
  }

  function Rank(reason: SkippedReason): nat {
    match reason
    case IsDirectory => 0
    case DepthLimit => 1
    case MalformedName => 2
    case Hidden => 3
    case Ignored => 4
    case NoMetadata => 5
    case IsSymlink => 6
    case NonRegular => 7
  }

  /** Entries without a path come first; equal paths are ordered by reason. */
  predicate SkippedLeq(a: SkippedEntry, b: SkippedEntry) {
    if a.path == b.path then Rank(a.reason) <= Rank(b.reason)
    else a.path.None? || (b.path.Some? && LexLeq(Codes(a.path.value), Codes(b.path.value)))
  }

  /** A prefix of the other text, or the smaller character where the two first differ. */
  ghost predicate TextBefore(p: string, q: string) {
    p <= q || exists k :: 0 <= k < |p| && k < |q| && p[..k] == q[..k] && p[k] < q[k]
  }

  /** The same for the bytes of file names. */
  ghost predicate NameBefore(a: seq<Byte>, b: seq<Byte>) {
    a <= b || exists k :: 0 <= k < |a| && k < |b| && a[..k] == b[..k] && a[k] < b[k]
  }

  const REASONS := [IsDirectory, DepthLimit, MalformedName, Hidden, Ignored, NoMetadata, IsSymlink, NonRegular]

  ghost predicate ReasonBefore(a: SkippedReason, b: SkippedReason) {
    exists i, j :: 0 <= i <= j < |REASONS| && REASONS[i] == a && REASONS[j] == b
  }

  /** Missing paths first, then by path, and equal paths by reason. */
  ghost predicate SkippedBefore(a: SkippedEntry, b: SkippedEntry) {
    && (b.path.None? ==> a.path.None?)
    && (a.path.Some? && b.path.Some? ==> TextBefore(a.path.value, b.path.value))
    && (a.path == b.path ==> ReasonBefore(a.reason, b.reason))
  }

  ghost predicate InOrder(catalog: Catalog) {
    && (forall i, j :: 0 <= i < j < |catalog.documents| ==>
          TextBefore(catalog.documents[i].path, catalog.documents[j].path))
    && (forall i, j :: 0 <= i < j < |catalog.skipped| ==> SkippedBefore(catalog.skipped[i], catalog.skipped[j]))
  }

  lemma LexIsTextBefore(p: string, q: string)
    ensures LexLeq(Codes(p), Codes(q)) <==> TextBefore(p, q)
  {
    var a, b := Codes(p), Codes(q);
    LexIsPrecedes(a, b);
    assert p <= q <==> a <= b by {
      if a <= b { forall i | 0 <= i < |p| ensures p[i] == q[i] { assert a[i] == b[i]; } }
    }
    forall k | 0 <= k < |p| && k < |q| ensures SmallerFirst(a, b, k) <==> p[..k] == q[..k] && p[k] < q[k] {
      if a[..k] == b[..k] {
        forall i | 0 <= i < k ensures p[i] == q[i] { assert a[..k][i] == b[..k][i]; }
      }
      if p[..k] == q[..k] {
        forall i | 0 <= i < k ensures a[i] == b[i] { assert p[..k][i] == q[..k][i]; }
      }
    }
  }

  lemma LexIsNameBefore(x: OsName, y: OsName)
    ensures LexLeq(NameCodes(x), NameCodes(y)) <==> NameBefore(x.bytes, y.bytes)
  {
    var p, q, a, b := x.bytes, y.bytes, NameCodes(x), NameCodes(y);
    LexIsPrecedes(a, b);
    assert p <= q <==> a <= b by {
      if a <= b { forall i | 0 <= i < |p| ensures p[i] == q[i] { assert a[i] == b[i]; } }
    }
    forall k | 0 <= k < |p| && k < |q| ensures SmallerFirst(a, b, k) <==> p[..k] == q[..k] && p[k] < q[k] {
      if a[..k] == b[..k] {
        forall i | 0 <= i < k ensures p[i] == q[i] { assert a[..k][i] == b[..k][i]; }
      }
      if p[..k] == q[..k] {
        forall i | 0 <= i < k ensures a[i] == b[i] { assert p[..k][i] == q[..k][i]; }
      }
    }
  }

  lemma RankIsPlace(reason: SkippedReason)
    ensures Rank(reason) < |REASONS| && REASONS[Rank(reason)] == reason
  {
    match reason {
      case IsDirectory =>
      case DepthLimit =>
      case MalformedName =>
      case Hidden =>
      case Ignored =>
      case NoMetadata =>
      case IsSymlink =>
      case NonRegular =>
    }
  }

  lemma SkippedLeqBefore(a: SkippedEntry, b: SkippedEntry)
    requires SkippedLeq(a, b)
    ensures SkippedBefore(a, b)
  {
    if a.path.Some? && b.path.Some? { LexIsTextBefore(a.path.value, b.path.value); }
    RankIsPlace(a.reason);
    RankIsPlace(b.reason);
  }

  lemma OrderedIsInOrder(catalog: Catalog)
    requires Ordered(catalog)
    ensures InOrder(catalog)
  {
    hide TextBefore, SkippedBefore, SkippedLeq;
    forall i, j | 0 <= i < j < |catalog.documents|
      ensures TextBefore(catalog.documents[i].path, catalog.documents[j].path)
    {
      assert DocumentLeq(catalog.documents[i], catalog.documents[j]);
      LexIsTextBefore(catalog.documents[i].path, catalog.documents[j].path);
    }
    forall i, j | 0 <= i < j < |catalog.skipped| ensures SkippedBefore(catalog.skipped[i], catalog.skipped[j]) {
      SkippedLeqBefore(catalog.skipped[i], catalog.skipped[j]);
    }
  }

  lemma SortedNames(entries: seq<Child>)
    requires Sorted(entries, NameLeq)
    ensures forall i, j :: 0 <= i < j < |entries| ==> NameBefore(entries[i].name.bytes, entries[j].name.bytes)
  {
    hide NameBefore;
    forall i, j | 0 <= i < j < |entries| ensures NameBefore(entries[i].name.bytes, entries[j].name.bytes) {
      assert NameLeq(entries[i], entries[j]);
      LexIsNameBefore(entries[i].name, entries[j].name);
    }
  }

  lemma NamesAreOrdered()
    ensures TotalPreorder(NameLeq)
  {
    forall a: Child, b: Child ensures NameLeq(a, b) || NameLeq(b, a) {
      LexTotal(NameCodes(a.name), NameCodes(b.name));
    }
    forall a: Child, b: Child, c: Child | NameLeq(a, b) && NameLeq(b, c) ensures NameLeq(a, c) {
      LexTransitive(NameCodes(a.name), NameCodes(b.name), NameCodes(c.name));
    }
  }

  lemma DocumentsAreOrdered()
    ensures TotalPreorder(DocumentLeq)
  {
    forall a: CatalogEntry, b: CatalogEntry ensures DocumentLeq(a, b) || DocumentLeq(b, a) {
      LexTotal(Codes(a.path), Codes(b.path));
    }
    forall a: CatalogEntry, b: CatalogEntry, c: CatalogEntry | DocumentLeq(a, b) && DocumentLeq(b, c)
      ensures DocumentLeq(a, c)
    {
      LexTransitive(Codes(a.path), Codes(b.path), Codes(c.path));
    }
  }

  lemma PathsSeparate(a: string, b: string)
    requires LexLeq(Codes(a), Codes(b)) && LexLeq(Codes(b), Codes(a))
    ensures a == b
  {
    LexTotal(Codes(a), Codes(b));
    CodesInjective(a, b);
  }

  lemma SkippedTransitive(a: SkippedEntry, b: SkippedEntry, c: SkippedEntry)
    requires SkippedLeq(a, b) && SkippedLeq(b, c)
    ensures SkippedLeq(a, c)
  {
    if a.path.Some? && b.path.Some? && c.path.Some? {
      if a.path != b.path && b.path != c.path {
        LexTransitive(Codes(a.path.value), Codes(b.path.value), Codes(c.path.value));
        if a.path == c.path {
          PathsSeparate(a.path.value, b.path.value);
        }
      }
    }
  }

  lemma SkippedAreOrdered()
    ensures TotalPreorder(SkippedLeq)
    ensures forall a, b :: SkippedLeq(a, b) && SkippedLeq(b, a) ==> a == b
  {
    forall a: SkippedEntry, b: SkippedEntry
      ensures SkippedLeq(a, b) || SkippedLeq(b, a)
      ensures SkippedLeq(a, b) && SkippedLeq(b, a) ==> a == b
    {
      if a.path.Some? && b.path.Some? {
        LexTotal(Codes(a.path.value), Codes(b.path.value));
        if a.path != b.path && SkippedLeq(a, b) && SkippedLeq(b, a) {
          PathsSeparate(a.path.value, b.path.value);
        }
      }
    }
    forall a: SkippedEntry, b: SkippedEntry, c: SkippedEntry | SkippedLeq(a, b) && SkippedLeq(b, c)
      ensures SkippedLeq(a, c)
    {
      SkippedTransitive(a, b, c);
    }
  }

  // ---------------------------------------------------------------- the account of a walk

  function TotalBytes(documents: seq<CatalogEntry>): nat {
    if documents == [] then 0
    else TotalBytes(documents[..|documents| - 1]) + |documents[|documents| - 1].content|
  }

  lemma {:induction false} TotalExtract(documents: seq<CatalogEntry>, k: nat)
    requires k < |documents|
    ensures TotalBytes(documents)
         == TotalBytes(documents[..k] + documents[k + 1..]) + |documents[k].content|
  {
    var n, others := |documents| - 1, documents[..k] + documents[k + 1..];
    if k == n {
      assert others == documents[..n];
    } else {
      TotalExtract(documents[..n], k);
      assert others[..n - 1] == documents[..n][..k] + documents[..n][k + 1..];
    }
  }

  /** The byte total does not depend on the order. */
  lemma {:induction false} TotalIgnoresOrder(a: seq<CatalogEntry>, b: seq<CatalogEntry>)
    requires multiset(a) == multiset(b)
    ensures TotalBytes(a) == TotalBytes(b)
    decreases |a|
  {
    if a == [] {
      assert |b| == |multiset(b)|;
    } else {
      var n := |a| - 1;
      assert a[n] in multiset(b);
      var k :| 0 <= k < |b| && b[k] == a[n];
      Extracted(a, n);
      Extracted(b, k);
      assert a[..n] + a[n + 1..] == a[..n];
      TotalIgnoresOrder(a[..n], b[..k] + b[k + 1..]);
      TotalExtract(b, k);
    }
  }

  ghost predicate FrameOk(frame: Frame, depth: nat) {
    && VisiblePath(frame.path)
    && frame.relative == Relative(frame.path)
    && frame.depth == |frame.path| <= depth
  }

  /** Good paths, exact byte total and usable frames, whatever the file system did. */
  ghost predicate FoundOk(found: Found, limits: Limits) {
    && (forall i :: 0 <= i < |found.documents| ==>
          && GoodPath(found.documents[i].path, [], limits.depth)
          && VisiblePath(Split(found.documents[i].path, '/')))
    && (forall i :: 0 <= i < |found.skipped| && found.skipped[i].path.Some? ==>
          GoodPath(found.skipped[i].path.value, [], limits.depth))
    && (forall i :: 0 <= i < |found.pending| ==> FrameOk(found.pending[i], limits.depth))
    && found.bytes == TotalBytes(found.documents) <= limits.bytes
  }

  /** The frame stands for a directory of the tree. */
  ghost predicate Located(root: seq<Child>, path: seq<string>) {
    ChildrenAt(root, path).Some? && WellFormed(ChildrenAt(root, path).value)
  }

  ghost predicate AllLocated(root: seq<Child>, frames: seq<Frame>) {
    forall i :: 0 <= i < |frames| ==> Located(root, frames[i].path)
  }

  ghost function FrameSum(root: seq<Child>, frame: Frame, policy: Policy): Summary
    requires Located(root, frame.path)
  {
    VisitAll(ChildrenAt(root, frame.path).value, frame.relative, frame.depth, policy)
  }

  ghost function PendingSum(root: seq<Child>, frames: seq<Frame>, policy: Policy): Summary
    requires AllLocated(root, frames)
  {
    if frames == [] then NOTHING
    else Plus(PendingSum(root, frames[..|frames| - 1], policy), FrameSum(root, frames[|frames| - 1], policy))
  }

  ghost function Collected(found: Found, processed: nat): Summary {
    Summary(multiset(found.documents), multiset(found.skipped), processed, found.bytes, 0)
  }

  /** Everything found so far together with everything still reachable from the worklist. */
  ghost function Account(root: seq<Child>, found: Found, processed: nat, policy: Policy): Summary
    requires AllLocated(root, found.pending)
  {
    Plus(Collected(found, processed), PendingSum(root, found.pending, policy))
  }

  /** Every read of a directory of the tree lists exactly its children, in some order. */
  ghost predicate Shows(fs: FileSystem, root: seq<Child>) {
    && WellFormed(root)
    && forall n, path :: ChildrenAt(root, path).Some? ==> Complete(fs(n, path), ChildrenAt(root, path).value)
  }

  ghost predicate Complete(listing: Listing, children: seq<Child>) {
    listing.Listed? && listing.complete && multiset(listing.entries) == multiset(children)
  }

  /** The tree fits the budgets and every document in it can be read. */
  predicate Fits(sum: Summary, limits: Limits) {
    sum.entries <= limits.entries && sum.bytes <= limits.bytes && sum.blocked == 0
  }

  lemma Interchange(a: Summary, b: Summary, c: Summary, d: Summary)
    ensures Plus(Plus(a, b), Plus(c, d)) == Plus(Plus(a, c), Plus(b, d))
  {
    assert (a.documents + b.documents) + (c.documents + d.documents)
        == (a.documents + c.documents) + (b.documents + d.documents);
    assert (a.skipped + b.skipped) + (c.skipped + d.skipped)
        == (a.skipped + c.skipped) + (b.skipped + d.skipped);
  }

  /** Collecting one more piece adds that piece to the account. */
  lemma AddCollected(root: seq<Child>, found: Found, after: Found, n: nat, policy: Policy, piece: Summary)
    requires AllLocated(root, found.pending) && after.pending == found.pending
    requires Collected(after, n + 1) == Plus(Collected(found, n), piece)
    ensures Account(root, after, n + 1, policy) == Plus(Account(root, found, n, policy), piece)
  {
    var pending := PendingSum(root, found.pending, policy);
    Interchange(Collected(found, n), piece, pending, NOTHING);
    PlusNothing(pending);
    PlusNothing(piece);
  }

  lemma CollectSkipped(found: Found, n: nat, entry: SkippedEntry)
    ensures Collected(found.(skipped := found.skipped + [entry]), n + 1)
         == Plus(Collected(found, n), OneSkipped(entry))
  {
    assert multiset(found.documents) == multiset(found.documents) + multiset{};
  }

  function WithDocument(found: Found, path: string, content: Bytes): Found {
    found.(documents := found.documents + [CatalogEntry(path, content)], bytes := found.bytes + |content|)
  }

  lemma CollectDocument(found: Found, n: nat, path: string, node: Node)
    requires node.Regular? && Loadable(node) && node.length == |node.content.value|
    ensures Collected(WithDocument(found, path, node.content.value), n + 1)
         == Plus(Collected(found, n), OneDocument(path, node))
  {
    assert multiset(found.skipped) == multiset(found.skipped) + multiset{};
  }

  lemma CollectEntry(found: Found, after: Found, n: nat)
    requires after.documents == found.documents && after.skipped == found.skipped && after.bytes == found.bytes
    ensures Collected(after, n + 1) == Plus(Collected(found, n), ONE_ENTRY)
  {
    assert multiset(found.skipped) == multiset(found.skipped) + multiset{};
    assert multiset(found.documents) == multiset(found.documents) + multiset{};
  }

  lemma PendingPush(root: seq<Child>, frames: seq<Frame>, policy: Policy, frame: Frame)
    requires AllLocated(root, frames) && Located(root, frame.path)
    ensures AllLocated(root, frames + [frame])
    ensures PendingSum(root, frames + [frame], policy)
         == Plus(PendingSum(root, frames, policy), FrameSum(root, frame, policy))
  {
    assert (frames + [frame])[..|frames + [frame]| - 1] == frames;
  }

  /** Putting a directory on the worklist adds that entry and all that lies below it. */
  lemma AddFrame(root: seq<Child>, found: Found, n: nat, policy: Policy, frame: Frame)
    requires AllLocated(root, found.pending) && Located(root, frame.path)
    ensures AllLocated(root, found.pending + [frame])
    ensures Account(root, found.(pending := found.pending + [frame]), n + 1, policy)
         == Plus(Account(root, found, n, policy), Plus(ONE_ENTRY, FrameSum(root, frame, policy)))
  {
    PendingPush(root, found.pending, policy, frame);
    CollectEntry(found, found.(pending := found.pending + [frame]), n);
    Interchange(Collected(found, n), ONE_ENTRY, PendingSum(root, found.pending, policy), FrameSum(root, frame, policy));
  }

  // ---------------------------------------------------------------- reading a directory

  /** Reads at most `maximum` entries; `now` counts the polls of the cancellation token, which
   *  reports cancellation from its `cancelledFrom`-th poll on. */
  method ReadSortedEntries(listing: Listing, maximum: nat, cancelledFrom: nat, clock: nat)
    returns (r: Result<seq<Child>, CatalogError>, now: nat)
    requires clock <= cancelledFrom
    ensures clock <= now && (r == Err(Cancelled) <==> cancelledFrom < now)
    ensures r.Ok? ==>
      && listing.Listed? && listing.complete && |r.value| == |listing.entries| <= maximum
      && multiset(r.value) == multiset(listing.entries) && Sorted(r.value, NameLeq)
      && (forall i, j :: 0 <= i < j < |r.value| ==> NameBefore(r.value[i].name.bytes, r.value[j].name.bytes))
    ensures r != Err(InvalidPath) && r != Err(IntakeFailed)
    ensures now <= cancelledFrom && listing.Listed? && listing.complete ==>
      (if |listing.entries| <= maximum then r.Ok? else r == Err(ResourceLimitExceeded))
  {
    now := clock;
    if listing.Denied? {
      return Err(InputFailed), now;
    }
    var entries: seq<Child> := [];
    while |entries| < |listing.entries|
      invariant entries <= listing.entries
      invariant |entries| <= maximum
      invariant clock <= now <= cancelledFrom
      decreases |listing.entries| - |entries|
    {
      if now >= cancelledFrom {
        return Err(Cancelled), now + 1;
      }
      now := now + 1;
      if |entries| == maximum {
        return Err(ResourceLimitExceeded), now;
      }
      entries := entries + [listing.entries[|entries|]];
    }
    assert entries == listing.entries;
    if !listing.complete {
      if now >= cancelledFrom {
        return Err(Cancelled), now + 1;
      }
      now := now + 1;
      return Err(if |entries| == maximum then ResourceLimitExceeded else InputFailed), now;
    }
    NamesAreOrdered();
    SortBySorts(entries, NameLeq);
    var sorted := SortBy(entries, NameLeq);
    assert |sorted| == |multiset(sorted)| == |multiset(entries)| == |entries|;
    SortedNames(sorted);
    return Ok(sorted), now;
  }

  // ---------------------------------------------------------------- one entry

  const INSPECTION_POLLS: nat := 6

  /** Inventories the bytes and looks for sidecars. It refuses only bytes above the plain-text
      ceiling, which the caller never passes on, and cancellation. */
  method InspectBytes(bytes: Bytes, cancelledFrom: nat, clock: nat) returns (r: Result<(), IntakeError>, now: nat)
    requires clock <= cancelledFrom
    ensures clock <= now && (r == Err(IntakeCancelled) <==> cancelledFrom < now)
    ensures r == Err(InputTooLarge) <==> |bytes| > MAX_DOCUMENT_BYTES && now <= cancelledFrom
  {
    now := clock;
    for i := 0 to 2
      invariant now == clock + i <= cancelledFrom
    {
      if now >= cancelledFrom {
        return Err(IntakeCancelled), now + 1;
      }
      now := now + 1;
    }
    if |bytes| > MAX_DOCUMENT_BYTES {
      return Err(InputTooLarge), now;
    }
    for i := 0 to INSPECTION_POLLS
      invariant now == clock + 2 + i <= cancelledFrom
    {
      if now >= cancelledFrom {
        return Err(IntakeCancelled), now + 1;
      }
      now := now + 1;
    }
    return Ok(()), now;
  }

  /** The byte budget is checked on the reported length first and on the bytes read second. */
  method InspectDocument(node: Node, remaining: nat, cancelledFrom: nat, clock: nat)
    returns (r: Result<Bytes, CatalogError>, now: nat)
    requires node.Regular? && clock <= cancelledFrom
    ensures clock <= now && (r == Err(Cancelled) <==> cancelledFrom < now)
    ensures r.Ok? ==> Loadable(node) && r.value == node.content.value && |r.value| <= remaining
    ensures r == Err(ResourceLimitExceeded) <==> node.length > remaining
    ensures Stable(node) && r == Err(InputFailed) ==> !Loadable(node)
    ensures r != Err(InvalidPath) && r != Err(IntakeFailed)
  {
    now := clock;
    if node.length > remaining {
      return Err(ResourceLimitExceeded), now;
    }
    var limit := if remaining <= MAX_DOCUMENT_BYTES then remaining else MAX_DOCUMENT_BYTES;
    if node.content.None? || |node.content.value| > limit {
      return Err(InputFailed), now;
    }
    var intake;
    intake, now := InspectBytes(node.content.value, cancelledFrom, now);
    if intake.Err? {
      return Err(if intake.error == IntakeCancelled then Cancelled else IntakeFailed), now;
    }
    return Ok(node.content.value), now;
  }

  lemma KeepsDocument(found: Found, limits: Limits, path: string, content: Bytes)
    requires FoundOk(found, limits) && found.bytes + |content| <= limits.bytes
    requires GoodPath(path, [], limits.depth) && VisiblePath(Split(path, '/'))
    ensures FoundOk(WithDocument(found, path, content), limits)
  {
    var documents := found.documents + [CatalogEntry(path, content)];
    assert documents[..|documents| - 1] == found.documents;
  }

  lemma KeepsSkipped(found: Found, limits: Limits, entry: SkippedEntry)
    requires FoundOk(found, limits)
    requires entry.path.Some? ==> GoodPath(entry.path.value, [], limits.depth)
    ensures FoundOk(found.(skipped := found.skipped + [entry]), limits)
  {
  }

  lemma KeepsFrame(found: Found, limits: Limits, frame: Frame)
    requires FoundOk(found, limits) && FrameOk(frame, limits.depth)
    ensures FoundOk(found.(pending := found.pending + [frame]), limits)
  {
  }

  /** The paths a classification carries are good, and a document or directory is visible. */
  lemma ClassIsGood(child: Child, frame: Frame, depth: nat)
    requires FrameOk(frame, depth)
    ensures var kind := Classify(child, frame.relative);
      && (kind.AsSkipped? && kind.entry.path.Some? ==> GoodPath(kind.entry.path.value, [], depth))
      && (!kind.AsSkipped? ==>
            && child.name.text.Some? && Visible(child.name.text.value)
            && kind.path == Relative(frame.path + [child.name.text.value])
            && GoodPath(kind.path, [], depth) && VisiblePath(Split(kind.path, '/')))
  {
    if child.name.text.Some? && Portable(child.name.text.value) {
      LeafPath(frame.path, child.name.text.value, depth);
    }
  }

  function Size(found: Found): nat {
    |found.documents| + |found.skipped| + |found.pending|
  }

  ghost predicate Here(root: seq<Child>, found: Found, frame: Frame, child: Child) {
    Located(root, frame.path) && child in ChildrenAt(root, frame.path).value && AllLocated(root, found.pending)
  }

  function ToPolicy(recursive: bool, limits: Limits): Policy {
    Policy(recursive, limits.depth)
  }

  /** The account grew by exactly what the entry contributes. */
  ghost predicate Advanced(root: seq<Child>, before: Found, after: Found, n: nat, policy: Policy, piece: Summary)
    requires AllLocated(root, before.pending)
  {
    && AllLocated(root, after.pending)
    && Account(root, after, n + 1, policy) == Plus(Account(root, before, n, policy), piece)
  }

  method VisitDocument(path: string, node: Node, found: Found, limits: Limits, cancelledFrom: nat, clock: nat)
    returns (r: Result<Found, CatalogError>, now: nat)
    requires node.Regular? && FoundOk(found, limits) && clock <= cancelledFrom
    requires GoodPath(path, [], limits.depth) && VisiblePath(Split(path, '/'))
    ensures clock <= now && (r == Err(Cancelled) <==> cancelledFrom < now)
    ensures r.Ok? ==>
      && FoundOk(r.value, limits) && Loadable(node)
      && r.value == WithDocument(found, path, node.content.value)
    ensures r == Err(ResourceLimitExceeded) ==> found.bytes + node.length > limits.bytes
    ensures Stable(node) && r == Err(InputFailed) ==> !Loadable(node)
    ensures r != Err(InvalidPath) && r != Err(IntakeFailed)
  {
    var content;
    content, now := InspectDocument(node, limits.bytes - found.bytes, cancelledFrom, clock);
    if content.Err? {
      return Err(content.error), now;
    }
    if now >= cancelledFrom {
      return Err(Cancelled), now + 1;
    }
    now := now + 1;
    // The recheck of the total and of the path cannot fail here.
    assert found.bytes + |content.value| <= limits.bytes && AcceptedPath(path);
    KeepsDocument(found, limits, path, content.value);
    r := Ok(WithDocument(found, path, content.value));
  }

  /** What a directory entry turns into: a skipped entry, or a new frame. */
  function Descended(found: Found, path: string, frame: Frame, name: string, recursive: bool, depth: nat): Found {
    if !recursive then
      found.(skipped := found.skipped + [SkippedEntry(Some(path), IsDirectory)])
    else if frame.depth + 1 > depth then
      found.(skipped := found.skipped + [SkippedEntry(Some(path), DepthLimit)])
    else
      found.(pending := found.pending + [Frame(frame.path + [name], path, frame.depth + 1)])
  }

  lemma DescendedOk(child: Child, frame: Frame, found: Found, recursive: bool, limits: Limits)
    requires FoundOk(found, limits) && FrameOk(frame, limits.depth)
    requires Classify(child, frame.relative).AsDirectory?
    ensures FoundOk(Descended(found, Classify(child, frame.relative).path, frame, child.name.text.value,
                              recursive, limits.depth), limits)
  {
    ClassIsGood(child, frame, limits.depth);
    var path := Classify(child, frame.relative).path;
    KeepsSkipped(found, limits, SkippedEntry(Some(path), IsDirectory));
    KeepsSkipped(found, limits, SkippedEntry(Some(path), DepthLimit));
    if frame.depth + 1 <= limits.depth {
      KeepsFrame(found, limits, Frame(frame.path + [child.name.text.value], path, frame.depth + 1));
    }
  }

  lemma DescendedAdvances(root: seq<Child>, child: Child, frame: Frame, found: Found, n: nat, policy: Policy)
    requires FrameOk(frame, policy.depth) && Here(root, found, frame, child)
    requires Classify(child, frame.relative).AsDirectory?
    ensures Advanced(root, found,
      Descended(found, Classify(child, frame.relative).path, frame, child.name.text.value,
                policy.recursive, policy.depth),
      n, policy, Visit(child, frame.relative, frame.depth, policy))
  {
    var path := Classify(child, frame.relative).path;
    if !policy.recursive {
      CollectSkipped(found, n, SkippedEntry(Some(path), IsDirectory));
      AddCollected(root, found, found.(skipped := found.skipped + [SkippedEntry(Some(path), IsDirectory)]), n, policy,
                   OneSkipped(SkippedEntry(Some(path), IsDirectory)));
    } else if frame.depth + 1 > policy.depth {
      CollectSkipped(found, n, SkippedEntry(Some(path), DepthLimit));
      AddCollected(root, found, found.(skipped := found.skipped + [SkippedEntry(Some(path), DepthLimit)]), n, policy,
                   OneSkipped(SkippedEntry(Some(path), DepthLimit)));
    } else {
      ChildIsAtItsPath(root, frame.path, child);
      AddFrame(root, found, n, policy, Frame(frame.path + [child.name.text.value], path, frame.depth + 1));
    }
  }

  lemma DocumentAdvances(root: seq<Child>, child: Child, frame: Frame, found: Found, n: nat, policy: Policy)
    requires Here(root, found, frame, child)
    requires Classify(child, frame.relative).AsDocument? && Loadable(child.node)
    ensures Advanced(root, found, WithDocument(found, Classify(child, frame.relative).path, child.node.content.value),
                     n, policy, Visit(child, frame.relative, frame.depth, policy))
  {
    var path := Classify(child, frame.relative).path;
    ChildIsAtItsPath(root, frame.path, child);
    CollectDocument(found, n, path, child.node);
    AddCollected(root, found, WithDocument(found, path, child.node.content.value), n, policy,
                 OneDocument(path, child.node));
  }

  lemma SkippedAdvances(root: seq<Child>, child: Child, frame: Frame, found: Found, n: nat, policy: Policy)
    requires Here(root, found, frame, child)
    requires Classify(child, frame.relative).AsSkipped?
    ensures Advanced(root, found, found.(skipped := found.skipped + [Classify(child, frame.relative).entry]),
                     n, policy, Visit(child, frame.relative, frame.depth, policy))
  {
    var entry := Classify(child, frame.relative).entry;
    CollectSkipped(found, n, entry);
    AddCollected(root, found, found.(skipped := found.skipped + [entry]), n, policy, OneSkipped(entry));
  }

  method VisitEntry(child: Child, frame: Frame, found: Found, recursive: bool, limits: Limits,
                    cancelledFrom: nat, clock: nat, ghost root: seq<Child>, ghost n: nat)
    returns (r: Result<Found, CatalogError>, now: nat)
    requires FoundOk(found, limits) && FrameOk(frame, limits.depth) && clock <= cancelledFrom
    ensures clock <= now && (r == Err(Cancelled) <==> cancelledFrom < now)
    ensures r.Ok? ==> FoundOk(r.value, limits) && Size(r.value) == Size(found) + 1
    ensures r != Err(InvalidPath) && r != Err(IntakeFailed)
    ensures Here(root, found, frame, child) ==>
      var piece := Visit(child, frame.relative, frame.depth, ToPolicy(recursive, limits));
      && (r.Ok? ==> Advanced(root, found, r.value, n, ToPolicy(recursive, limits), piece))
      && (r == Err(ResourceLimitExceeded) ==> found.bytes + piece.bytes > limits.bytes)
      && (r == Err(InputFailed) ==> piece.blocked > 0)
  {
    hide FoundOk, Advanced, GoodPath;
    now := clock;
    if now >= cancelledFrom {
      return Err(Cancelled), now + 1;
    }
    now := now + 1;
    ghost var policy := ToPolicy(recursive, limits);
    ClassIsGood(child, frame, limits.depth);
    match Classify(child, frame.relative)
    case AsDocument(path) =>
      r, now := VisitDocument(path, child.node, found, limits, cancelledFrom, now);
      if Here(root, found, frame, child) {
        ChildIsAtItsPath(root, frame.path, child);
        if r.Ok? {
          DocumentAdvances(root, child, frame, found, n, policy);
        }
      }
    case AsDirectory(path) =>
      DescendedOk(child, frame, found, recursive, limits);
      if Here(root, found, frame, child) {
        DescendedAdvances(root, child, frame, found, n, policy);
      }
      r := Ok(Descended(found, path, frame, child.name.text.value, recursive, limits.depth));
    case AsSkipped(entry) =>
      KeepsSkipped(found, limits, entry);
      if Here(root, found, frame, child) {
        SkippedAdvances(root, child, frame, found, n, policy);
      }
      r := Ok(found.(skipped := found.skipped + [entry]));
  }

  // ---------------------------------------------------------------- one directory and the whole walk

  ghost predicate AllHere(root: seq<Child>, found: Found, frame: Frame, entries: seq<Child>) {
    && Located(root, frame.path)
    && AllLocated(root, found.pending)
    && forall i :: 0 <= i < |entries| ==> entries[i] in ChildrenAt(root, frame.path).value
  }

  /** The account together with what the remaining entries contribute is the goal. */
  ghost predicate Owes(root: seq<Child>, found: Found, n: nat, policy: Policy, frame: Frame, rest: seq<Child>,
                       goal: Summary)
  {
    && AllHere(root, found, frame, rest)
    && goal == Plus(Account(root, found, n, policy), VisitAll(rest, frame.relative, frame.depth, policy))
  }

  lemma OwesOneLess(root: seq<Child>, found: Found, after: Found, n: nat, policy: Policy, frame: Frame,
                    rest: seq<Child>, goal: Summary)
    requires Owes(root, found, n, policy, frame, rest, goal) && rest != []
    requires Advanced(root, found, after, n, policy, Visit(rest[0], frame.relative, frame.depth, policy))
    ensures Owes(root, after, n + 1, policy, frame, rest[1..], goal)
  {
    PlusAssociates(Account(root, found, n, policy),
                   Visit(rest[0], frame.relative, frame.depth, policy),
                   VisitAll(rest[1..], frame.relative, frame.depth, policy));
  }

  lemma OwesAtLeast(root: seq<Child>, found: Found, n: nat, policy: Policy, frame: Frame, rest: seq<Child>,
                    goal: Summary)
    requires Owes(root, found, n, policy, frame, rest, goal) && rest != []
    ensures Here(root, found, frame, rest[0])
    ensures goal.bytes >= found.bytes + Visit(rest[0], frame.relative, frame.depth, policy).bytes
    ensures goal.blocked >= Visit(rest[0], frame.relative, frame.depth, policy).blocked
  {
  }

  lemma OwesNothing(root: seq<Child>, found: Found, n: nat, policy: Policy, frame: Frame, goal: Summary)
    requires Owes(root, found, n, policy, frame, [], goal)
    ensures Account(root, found, n, policy) == goal
  {
    PlusNothing(Account(root, found, n, policy));
  }

  /** What the outcome of visiting entries says about a goal that was owed. */
  ghost predicate Settles(root: seq<Child>, r: Result<Found, CatalogError>, n: nat, policy: Policy, frame: Frame,
                          rest: seq<Child>, goal: Summary, maximumBytes: nat)
  {
    && (r.Ok? ==> Owes(root, r.value, n, policy, frame, rest, goal))
    && (r == Err(ResourceLimitExceeded) ==> goal.bytes > maximumBytes)
    && (r == Err(InputFailed) ==> goal.blocked > 0)
  }

  method VisitNext(rest: seq<Child>, frame: Frame, found: Found, recursive: bool, limits: Limits,
                   cancelledFrom: nat, clock: nat, ghost root: seq<Child>, ghost n: nat, ghost goal: Summary)
    returns (r: Result<Found, CatalogError>, now: nat)
    requires FoundOk(found, limits) && FrameOk(frame, limits.depth) && clock <= cancelledFrom && rest != []
    ensures clock <= now && (r == Err(Cancelled) <==> cancelledFrom < now)
    ensures r.Ok? ==> FoundOk(r.value, limits) && Size(r.value) == Size(found) + 1
    ensures r != Err(InvalidPath) && r != Err(IntakeFailed)
    ensures Owes(root, found, n, ToPolicy(recursive, limits), frame, rest, goal) ==>
      Settles(root, r, n + 1, ToPolicy(recursive, limits), frame, rest[1..], goal, limits.bytes)
  {
    r, now := VisitEntry(rest[0], frame, found, recursive, limits, cancelledFrom, clock, root, n);
    ghost var policy := ToPolicy(recursive, limits);
    if Owes(root, found, n, policy, frame, rest, goal) {
      OwesAtLeast(root, found, n, policy, frame, rest, goal);
      if r.Ok? {
        OwesOneLess(root, found, r.value, n, policy, frame, rest, goal);
      }
    }
  }

  /** Visits the entries of one directory in order. */
  method VisitEntries(entries: seq<Child>, frame: Frame, found: Found, recursive: bool, limits: Limits,
                      cancelledFrom: nat, clock: nat, ghost root: seq<Child>, ghost n: nat, ghost goal: Summary)
    returns (r: Result<Found, CatalogError>, now: nat)
    requires FoundOk(found, limits) && FrameOk(frame, limits.depth) && clock <= cancelledFrom
    ensures clock <= now && (r == Err(Cancelled) <==> cancelledFrom < now)
    ensures r.Ok? ==> FoundOk(r.value, limits) && Size(r.value) == Size(found) + |entries|
    ensures r != Err(InvalidPath) && r != Err(IntakeFailed)
    ensures Owes(root, found, n, ToPolicy(recursive, limits), frame, entries, goal) ==>
      Settles(root, r, n + |entries|, ToPolicy(recursive, limits), frame, [], goal, limits.bytes)
  {
    hide Owes, FoundOk, FrameOk;
    now := clock;
    var current, rest := found, entries;
    ghost var policy := ToPolicy(recursive, limits);
    ghost var owed := Owes(root, found, n, policy, frame, entries, goal);
    while rest != []
      invariant |rest| <= |entries|
      invariant clock <= now <= cancelledFrom
      invariant FoundOk(current, limits) && Size(current) == Size(found) + |entries| - |rest|
      invariant owed ==> Owes(root, current, n + |entries| - |rest|, policy, frame, rest, goal)
      decreases |rest|
    {
      var next;
      next, now := VisitNext(rest, frame, current, recursive, limits, cancelledFrom, now,
                             root, n + |entries| - |rest|, goal);
      if next.Err? {
        return Err(next.error), now;
      }
      current := next.value;
      rest := rest[1..];
    }
    return Ok(current), now;
  }

  lemma {:induction false} EveryEntryCounts(children: seq<Child>, prefix: string, depth: nat, policy: Policy)
    ensures VisitAll(children, prefix, depth, policy).entries >= |children|
    decreases |children|
  {
    if children != [] {
      EveryEntryCounts(children[1..], prefix, depth, policy);
    }
  }

  /** Taking a frame off the worklist leaves its directory owed, in whatever order it is listed. */
  lemma PopOwes(root: seq<Child>, found: Found, n: nat, policy: Policy, entries: seq<Child>)
    requires AllLocated(root, found.pending) && found.pending != []
    requires multiset(entries) == multiset(ChildrenAt(root, found.pending[|found.pending| - 1].path).value)
    ensures Owes(root, found.(pending := found.pending[..|found.pending| - 1]), n, policy,
                 found.pending[|found.pending| - 1], entries, Account(root, found, n, policy))
  {
    var frame, others := found.pending[|found.pending| - 1], found.pending[..|found.pending| - 1];
    var children := ChildrenAt(root, frame.path).value;
    VisitIgnoresOrder(entries, children, frame.relative, frame.depth, policy);
    PlusAssociates(Collected(found, n), PendingSum(root, others, policy), FrameSum(root, frame, policy));
    forall i | 0 <= i < |entries| ensures entries[i] in children {
      assert entries[i] in multiset(entries);
    }
  }

  lemma PopNeeds(root: seq<Child>, found: Found, n: nat, policy: Policy)
    requires AllLocated(root, found.pending) && found.pending != []
    ensures Account(root, found, n, policy).entries
         >= n + |ChildrenAt(root, found.pending[|found.pending| - 1].path).value|
  {
    var frame := found.pending[|found.pending| - 1];
    EveryEntryCounts(ChildrenAt(root, frame.path).value, frame.relative, frame.depth, policy);
  }

  /** What an outcome of the walk says about the tree it was shown. */
  ghost predicate Answers(r: Result<Found, CatalogError>, total: Summary, limits: Limits) {
    && (r.Ok? ==>
          && total == Collected(r.value, total.entries)
          && Fits(total, limits))
    && (r == Err(ResourceLimitExceeded) ==> total.entries > limits.entries || total.bytes > limits.bytes)
    && (r == Err(InputFailed) ==> total.blocked > 0)
  }

  /** The account of the walk so far is the whole tree's. */
  ghost predicate OnCourse(root: seq<Child>, found: Found, seen: nat, policy: Policy, total: Summary) {
    AllLocated(root, found.pending) && Account(root, found, seen, policy) == total
  }

  lemma SameSize(a: seq<Child>, b: seq<Child>)
    requires multiset(a) == multiset(b)
    ensures |a| == |b|
  {
    assert |a| == |multiset(a)|;
    assert |b| == |multiset(b)|;
  }

  function Top(found: Found): Frame
    requires found.pending != []
  {
    found.pending[|found.pending| - 1]
  }

  function Popped(found: Found): Found
    requires found.pending != []
  {
    found.(pending := found.pending[..|found.pending| - 1])
  }

  /** The tree is shown and the walk so far accounts for all of it. */
  ghost predicate Tracks(fs: FileSystem, root: seq<Child>, found: Found, seen: nat, policy: Policy, total: Summary) {
    Shows(fs, root) && OnCourse(root, found, seen, policy, total)
  }

  lemma ListingIsComplete(fs: FileSystem, root: seq<Child>, found: Found, seen: nat, policy: Policy, total: Summary,
                          calls: nat)
    requires Tracks(fs, root, found, seen, policy, total) && found.pending != []
    ensures fs(calls, Top(found).path).Listed? && fs(calls, Top(found).path).complete
    ensures total.entries >= seen + |fs(calls, Top(found).path).entries|
  {
    assert Located(root, Top(found).path);
    assert Complete(fs(calls, Top(found).path), ChildrenAt(root, Top(found).path).value);
    SameSize(fs(calls, Top(found).path).entries, ChildrenAt(root, Top(found).path).value);
    PopNeeds(root, found, seen, policy);
  }

  lemma ListingIsOwed(fs: FileSystem, root: seq<Child>, found: Found, seen: nat, policy: Policy, total: Summary,
                      calls: nat, entries: seq<Child>)
    requires Tracks(fs, root, found, seen, policy, total) && found.pending != []
    requires fs(calls, Top(found).path).Listed? && multiset(entries) == multiset(fs(calls, Top(found).path).entries)
    ensures Owes(root, Popped(found), seen, policy, Top(found), entries, total)
  {
    assert Located(root, Top(found).path);
    assert Complete(fs(calls, Top(found).path), ChildrenAt(root, Top(found).path).value);
    PopOwes(root, found, seen, policy, entries);
  }

  /** The outcome of one directory keeps the account, or fails for a reason in the tree. */
  ghost predicate Continues(root: seq<Child>, r: Result<Found, CatalogError>, seen: nat, policy: Policy,
                            total: Summary, limits: Limits)
  {
    && (r.Ok? ==> OnCourse(root, r.value, seen, policy, total))
    && (r.Err? ==> Answers(r, total, limits))
  }

  lemma SettledContinues(root: seq<Child>, r: Result<Found, CatalogError>, seen: nat, policy: Policy, frame: Frame,
                         total: Summary, limits: Limits)
    requires Settles(root, r, seen, policy, frame, [], total, limits.bytes)
    ensures Continues(root, r, seen, policy, total, limits)
  {
    if r.Ok? {
      OwesNothing(root, r.value, seen, policy, frame, total);
    }
  }

  lemma DirectoryIsDone(fs: FileSystem, root: seq<Child>, found: Found, seen: nat, policy: Policy, total: Summary,
                        calls: nat, entries: seq<Child>, r: Result<Found, CatalogError>, limits: Limits)
    requires found.pending != []
    requires fs(calls, Top(found).path).Listed? && multiset(entries) == multiset(fs(calls, Top(found).path).entries)
    requires Owes(root, Popped(found), seen, policy, Top(found), entries, total) ==>
      Settles(root, r, seen + |entries|, policy, Top(found), [], total, limits.bytes)
    ensures Tracks(fs, root, found, seen, policy, total) ==>
      Continues(root, r, seen + |entries|, policy, total, limits)
  {
    hide Owes, Settles, Continues;
    if Tracks(fs, root, found, seen, policy, total) {
      ListingIsOwed(fs, root, found, seen, policy, total, calls, entries);
      SettledContinues(root, r, seen + |entries|, policy, Top(found), total, limits);
    }
  }

  lemma PoppedOk(found: Found, limits: Limits)
    requires FoundOk(found, limits) && found.pending != []
    ensures FoundOk(Popped(found), limits) && FrameOk(Top(found), limits.depth)
    ensures Size(Popped(found)) + 1 == Size(found)
  {
  }

  method VisitListing(fs: FileSystem, recursive: bool, limits: Limits, found: Found, seen: nat, calls: nat,
                      entries: seq<Child>, cancelledFrom: nat, clock: nat, ghost root: seq<Child>, ghost total: Summary)
    returns (r: Result<Found, CatalogError>, now: nat)
    requires FoundOk(found, limits) && found.pending != [] && clock <= cancelledFrom
    requires fs(calls, Top(found).path).Listed? && multiset(entries) == multiset(fs(calls, Top(found).path).entries)
    ensures clock <= now && (r == Err(Cancelled) <==> cancelledFrom < now)
    ensures r.Ok? ==> FoundOk(r.value, limits) && Size(r.value) + 1 == Size(found) + |entries|
    ensures r != Err(InvalidPath) && r != Err(IntakeFailed)
    ensures Tracks(fs, root, found, seen, ToPolicy(recursive, limits), total) ==>
      Continues(root, r, seen + |entries|, ToPolicy(recursive, limits), total, limits)
  {
    PoppedOk(found, limits);
    ghost var policy := ToPolicy(recursive, limits);
    r, now := VisitEntries(entries, Top(found), Popped(found), recursive, limits, cancelledFrom, clock,
                           root, seen, total);
    DirectoryIsDone(fs, root, found, seen, policy, total, calls, entries, r, limits);
  }

  /** Reads the directory on top of the worklist and visits its entries. */
  method WalkOne(fs: FileSystem, recursive: bool, limits: Limits, found: Found, seen: nat, calls: nat,
                 cancelledFrom: nat, clock: nat, ghost root: seq<Child>, ghost total: Summary)
    returns (r: Result<Found, CatalogError>, count: nat, now: nat)
    requires FoundOk(found, limits) && found.pending != [] && clock <= cancelledFrom && seen <= limits.entries
    ensures clock <= now && (r == Err(Cancelled) <==> cancelledFrom < now)
    ensures r.Ok? ==>
      && FoundOk(r.value, limits) && seen + count <= limits.entries
      && Size(r.value) + 1 == Size(found) + count
    ensures r != Err(InvalidPath) && r != Err(IntakeFailed)
    ensures Tracks(fs, root, found, seen, ToPolicy(recursive, limits), total) ==>
      && (r.Ok? ==> Tracks(fs, root, r.value, seen + count, ToPolicy(recursive, limits), total))
      && (r.Err? ==> Answers(r, total, limits))
  {
    if clock >= cancelledFrom {
      return Err(Cancelled), 0, clock + 1;
    }
    var entries;
    entries, now := ReadSortedEntries(fs(calls, Top(found).path), limits.entries - seen, cancelledFrom, clock + 1);
    if entries.Err? {
      ghost var policy := ToPolicy(recursive, limits);
      if Tracks(fs, root, found, seen, policy, total) {
        ListingIsComplete(fs, root, found, seen, policy, total, calls);
      }
      return Err(entries.error), 0, now;
    }
    count := |entries.value|;
    // The recheck of the running entry count cannot fail here.
    assert seen + count <= limits.entries;
    r, now := VisitListing(fs, recursive, limits, found, seen, calls, entries.value, cancelledFrom, now, root, total);
  }

  /** What the whole tree holds, at any listing order. */
  ghost function TreeSum(root: seq<Child>, recursive: bool, limits: Limits): Summary {
    VisitAll(root, "", 0, ToPolicy(recursive, limits))
  }

  /** The worklist loop: at most one directory read per entry seen, plus the root. */
  method Walk(fs: FileSystem, recursive: bool, limits: Limits, cancelledFrom: nat, clock: nat,
              ghost root: seq<Child>, ghost total: Summary)
    returns (r: Result<Found, CatalogError>, calls: nat, seen: nat, now: nat)
    requires clock <= cancelledFrom
    ensures clock <= now && (r == Err(Cancelled) <==> cancelledFrom < now)
    ensures calls <= limits.entries + 1
    ensures r.Ok? ==>
      && FoundOk(r.value, limits) && r.value.pending == [] && seen <= limits.entries
      && |r.value.documents| + |r.value.skipped| + calls == seen + 1 && calls >= 1
    ensures r != Err(InvalidPath) && r != Err(IntakeFailed)
    ensures Shows(fs, root) && total == TreeSum(root, recursive, limits) ==> Answers(r, total, limits)
  {
    hide FoundOk, Tracks, Answers;
    var found := START;
    calls, seen, now := 0, 0, clock;
    ghost var policy := ToPolicy(recursive, limits);
    ghost var shown := Shows(fs, root) && total == TreeSum(root, recursive, limits);
    StartIsOk(limits);
    if shown {
      StartTracks(fs, root, policy);
    }
    while found.pending != []
      invariant FoundOk(found, limits) && clock <= now <= cancelledFrom
      invariant seen <= limits.entries && Size(found) + calls == seen + 1
      invariant calls == 0 ==> found == START
      invariant shown ==> Tracks(fs, root, found, seen, policy, total)
      decreases limits.entries + 1 - calls
    {
      var next, count;
      next, count, now := WalkOne(fs, recursive, limits, found, seen, calls, cancelledFrom, now, root, total);
      calls := calls + 1;
      if next.Err? {
        return Err(next.error), calls, seen, now;
      }
      found, seen := next.value, seen + count;
    }
    if shown {
      EndAnswers(fs, root, found, seen, policy, total, limits);
    }
    return Ok(found), calls, seen, now;
  }

  const START := Found([], [], [Frame([], "", 0)], 0)

  lemma StartIsOk(limits: Limits)
    ensures FoundOk(START, limits)
  {
  }

  lemma StartTracks(fs: FileSystem, root: seq<Child>, policy: Policy)
    requires Shows(fs, root)
    ensures Tracks(fs, root, START, 0, policy, VisitAll(root, "", 0, policy))
  {
    var frame := Frame([], "", 0);
    PendingPush(root, [], policy, frame);
    assert [] + [frame] == [frame];
    PlusNothing(FrameSum(root, frame, policy));
    PlusNothing(PendingSum(root, [frame], policy));
  }

  lemma EndAnswers(fs: FileSystem, root: seq<Child>, found: Found, seen: nat, policy: Policy, total: Summary,
                   limits: Limits)
    requires Tracks(fs, root, found, seen, policy, total) && found.pending == []
    requires seen <= limits.entries && FoundOk(found, limits)
    ensures Answers(Ok(found), total, limits)
  {
    PlusNothing(Collected(found, seen));
  }

  // ---------------------------------------------------------------- discovery

  predicate WithinCeilings(limits: Limits) {
    limits.entries <= MAX_ENTRIES && limits.depth <= MAX_DEPTH && limits.bytes <= MAX_BYTES
  }

  ghost predicate Ordered(catalog: Catalog) {
    Sorted(catalog.documents, DocumentLeq) && Sorted(catalog.skipped, SkippedLeq)
  }

  /** Holds of every catalog, however the file system changed while it was read. */
  ghost predicate CatalogOk(catalog: Catalog, limits: Limits) {
    && Ordered(catalog) && InOrder(catalog)
    && TotalBytes(catalog.documents) <= limits.bytes
    && |catalog.documents| + |catalog.skipped| <= limits.entries
    && (forall d :: d in catalog.documents ==>
          GoodPath(d.path, [], limits.depth) && VisiblePath(Split(d.path, '/')))
    && (forall k :: k in catalog.skipped && k.path.Some? ==> GoodPath(k.path.value, [], limits.depth))
  }

  /** The catalog lists exactly what the tree holds. */
  ghost predicate Lists(catalog: Catalog, total: Summary) {
    multiset(catalog.documents) == total.documents && multiset(catalog.skipped) == total.skipped
  }

  method Arrange(found: Found, limits: Limits) returns (catalog: Catalog)
    requires FoundOk(found, limits) && |found.documents| + |found.skipped| <= limits.entries
    ensures CatalogOk(catalog, limits)
    ensures multiset(catalog.documents) == multiset(found.documents)
    ensures multiset(catalog.skipped) == multiset(found.skipped)
    ensures |catalog.documents| + |catalog.skipped| == |found.documents| + |found.skipped|
  {
    DocumentsAreOrdered();
    SkippedAreOrdered();
    SortBySorts(found.documents, DocumentLeq);
    SortBySorts(found.skipped, SkippedLeq);
    catalog := Catalog(SortBy(found.documents, DocumentLeq), SortBy(found.skipped, SkippedLeq));
    ArrangedOk(found, catalog, limits);
  }

  lemma ArrangedOk(found: Found, catalog: Catalog, limits: Limits)
    requires FoundOk(found, limits) && |found.documents| + |found.skipped| <= limits.entries
    requires multiset(catalog.documents) == multiset(found.documents)
    requires multiset(catalog.skipped) == multiset(found.skipped)
    requires Ordered(catalog)
    ensures CatalogOk(catalog, limits)
    ensures |catalog.documents| + |catalog.skipped| == |found.documents| + |found.skipped|
  {
    hide Sorted, InOrder;
    OrderedIsInOrder(catalog);
    TotalIgnoresOrder(found.documents, catalog.documents);
    assert |catalog.documents| == |multiset(catalog.documents)| == |multiset(found.documents)| == |found.documents|;
    assert |catalog.skipped| == |multiset(catalog.skipped)| == |multiset(found.skipped)| == |found.skipped|;
    forall d | d in catalog.documents ensures d in found.documents {
      assert d in multiset(catalog.documents);
    }
    forall k | k in catalog.skipped ensures k in found.skipped {
      assert k in multiset(catalog.skipped);
    }
  }

  /** The outcome of a discovery that saw an unchanging tree. */
  ghost predicate Decides(r: Result<Catalog, CatalogError>, total: Summary, limits: Limits) {
    && (r.Ok? <==> Fits(total, limits))
    && (r.Ok? ==> Lists(r.value, total))
    && (r.Err? && total.blocked == 0 ==> r.error == ResourceLimitExceeded)
    && (r.Err? && total.entries <= limits.entries && total.bytes <= limits.bytes ==> r.error == InputFailed)
  }

  /** What a discovery of an unchanging tree reports, by reachability alone; and it fails for the input
   *  only over a reachable document that cannot be read whole. */
  ghost predicate Catalogues(r: Result<Catalog, CatalogError>, root: seq<Child>, policy: Policy) {
    && (r.Ok? ==>
          && (forall d :: d in r.value.documents <==> CatalogReach.Reported(root, policy, CatalogReach.Document(d)))
          && (forall k :: k in r.value.skipped <==> CatalogReach.Reported(root, policy, CatalogReach.Skipped(k)))
          && !CatalogReach.Reported(root, policy, CatalogReach.Unloadable))
    && (r == Err(InputFailed) ==> CatalogReach.Reported(root, policy, CatalogReach.Unloadable))
  }

  lemma DecidesCatalogues(r: Result<Catalog, CatalogError>, root: seq<Child>, recursive: bool, limits: Limits)
    requires Decides(r, TreeSum(root, recursive, limits), limits)
    ensures Catalogues(r, root, Policy(recursive, limits.depth))
  {
    hide CatalogReach.Reported;
    var policy, total := Policy(recursive, limits.depth), TreeSum(root, recursive, limits);
    CatalogReach.ReportsExactly(root, policy, CatalogReach.Unloadable);
    if r.Ok? {
      forall d ensures d in r.value.documents <==> CatalogReach.Reported(root, policy, CatalogReach.Document(d)) {
        assert d in r.value.documents <==> d in multiset(r.value.documents);
        CatalogReach.ReportsExactly(root, policy, CatalogReach.Document(d));
      }
      forall k ensures k in r.value.skipped <==> CatalogReach.Reported(root, policy, CatalogReach.Skipped(k)) {
        assert k in r.value.skipped <==> k in multiset(r.value.skipped);
        CatalogReach.ReportsExactly(root, policy, CatalogReach.Skipped(k));
      }
    }
  }

  method Discover(fs: FileSystem, rootKind: RootKind, recursive: bool, limits: Limits, cancelledFrom: nat,
                  ghost root: seq<Child>)
    returns (r: Result<Catalog, CatalogError>, calls: nat, now: nat)
    ensures r == Err(Cancelled) <==> cancelledFrom < now
    ensures r != Err(IntakeFailed)
    ensures calls <= limits.entries + 1
    ensures r.Ok? ==>
      && WithinCeilings(limits) && rootKind.RootDirectory? && CatalogOk(r.value, limits)
      && limits.entries <= 4096 && limits.depth <= 8 && limits.bytes <= 67_108_864
      && |r.value.documents| + |r.value.skipped| + calls <= limits.entries + 1
    ensures now <= cancelledFrom && WithinCeilings(limits) ==>
      && (r == Err(InvalidPath) <==> rootKind.RootNotDirectory?)
      && (rootKind.RootMissing? ==> r == Err(InputFailed))
      && (rootKind.RootDirectory? && Shows(fs, root) ==>
            && Decides(r, TreeSum(root, recursive, limits), limits)
            && Catalogues(r, root, Policy(recursive, limits.depth)))
    ensures now <= cancelledFrom && !WithinCeilings(limits) ==> r == Err(ResourceLimitExceeded)
  {
    hide FoundOk, CatalogOk, Shows, Lists, TreeSum, Answers, Decides, Catalogues;
    calls := 0;
    if 0 >= cancelledFrom {
      return Err(Cancelled), 0, 1;
    }
    now := 1;
    ghost var total := TreeSum(root, recursive, limits);
    var outcome: Result<Found, CatalogError>;
    var seen := 0;
    if !WithinCeilings(limits) {
      outcome := Err(ResourceLimitExceeded);
    } else if rootKind.RootMissing? {
      outcome := Err(InputFailed);
    } else if rootKind.RootNotDirectory? {
      outcome := Err(InvalidPath);
    } else {
      outcome, calls, seen, now := Walk(fs, recursive, limits, cancelledFrom, now, root, total);
    }
    if now >= cancelledFrom {
      return Err(Cancelled), calls, now + 1;
    }
    now := now + 1;
    if outcome.Err? {
      if rootKind.RootDirectory? && WithinCeilings(limits) && Shows(fs, root) {
        RefusedDecides(outcome.error, total, limits);
        DecidesCatalogues(Err(outcome.error), root, recursive, limits);
      }
      return Err(outcome.error), calls, now;
    }
    var catalog := Arrange(outcome.value, limits);
    if now >= cancelledFrom {
      return Err(Cancelled), calls, now + 1;
    }
    if Shows(fs, root) {
      ArrangedDecides(outcome.value, catalog, total, limits);
      DecidesCatalogues(Ok(catalog), root, recursive, limits);
    }
    return Ok(catalog), calls, now + 1;
  }

  lemma ArrangedDecides(found: Found, catalog: Catalog, total: Summary, limits: Limits)
    requires Answers(Ok(found), total, limits)
    requires multiset(catalog.documents) == multiset(found.documents)
    requires multiset(catalog.skipped) == multiset(found.skipped)
    ensures Decides(Ok(catalog), total, limits)
  {
  }

  lemma RefusedDecides(error: CatalogError, total: Summary, limits: Limits)
    requires error == ResourceLimitExceeded || error == InputFailed
    requires Answers(Err(error), total, limits)
    ensures Decides(Err(error), total, limits)
  {
  }

  lemma DocumentsAreSeparate(documents: multiset<CatalogEntry>)
    requires OneDocumentPerPath(documents)
    ensures TellsApart(documents, DocumentLeq)
  {
    forall x, y | x in documents && y in documents && DocumentLeq(x, y) && DocumentLeq(y, x) ensures x == y {
      PathsSeparate(x.path, y.path);
    }
  }

  /** The catalog of a tree is unique: it depends neither on the order in which directories list
   *  their entries nor on the order of the worklist. */
  lemma CatalogIsDetermined(root: seq<Child>, policy: Policy, a: Catalog, b: Catalog)
    requires WellFormed(root)
    requires Ordered(a) && Lists(a, VisitAll(root, "", 0, policy))
    requires Ordered(b) && Lists(b, VisitAll(root, "", 0, policy))
    ensures a == b
  {
    ReportsAreExclusive(root, [], policy);
    DocumentsAreSeparate(multiset(a.documents));
    SortedIsUnique(a.documents, b.documents, DocumentLeq);
    SkippedAreOrdered();
    SortedIsUnique(a.skipped, b.skipped, SkippedLeq);
  }

  /** In the catalog of a tree each path stands at one place: no two documents, no two skipped
   *  entries, and no document and skipped entry, share it. */
  lemma CatalogPathsAreUnique(root: seq<Child>, policy: Policy, catalog: Catalog)
    requires WellFormed(root) && Lists(catalog, VisitAll(root, "", 0, policy))
    ensures forall i, j :: 0 <= i < j < |catalog.documents| ==> catalog.documents[i].path != catalog.documents[j].path
    ensures forall i, j :: 0 <= i < j < |catalog.skipped| && catalog.skipped[i].path.Some? ==>
      catalog.skipped[i].path != catalog.skipped[j].path
    ensures forall d, k :: d in catalog.documents && k in catalog.skipped ==> k.path != Some(d.path)
  {
    ReportsAreExclusive(root, [], policy);
    forall i, j | 0 <= i < j < |catalog.documents| ensures catalog.documents[i].path != catalog.documents[j].path {
      Repeats(catalog.documents, i, j);
    }
    forall i, j | 0 <= i < j < |catalog.skipped| && catalog.skipped[i].path.Some?
      ensures catalog.skipped[i].path != catalog.skipped[j].path
    {
      Repeats(catalog.skipped, i, j);
    }
    forall d, k | d in catalog.documents && k in catalog.skipped ensures k.path != Some(d.path) {
      assert d in multiset(catalog.documents) && k in multiset(catalog.skipped);
    }
  }

  lemma Repeats<T>(s: seq<T>, i: nat, j: nat)
    requires i < j < |s|
    ensures s[i] in multiset(s) && s[j] in multiset(s)
    ensures s[i] == s[j] ==> multiset(s)[s[i]] >= 2
  {
    assert s == s[..i] + [s[i]] + s[i + 1..j] + [s[j]] + s[j + 1..];
  }
}
