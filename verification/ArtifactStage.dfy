/**
  Staging: the plan is written, read back and compared with what was captured
  (scripts/claude_host_artifacts.py).
 */
module ArtifactStage {
  import opened Texts
  import opened Wrappers
  import opened Sorting
  import opened PathParts
  import opened ArtifactInventory
  import opened ArtifactPlan
  import opened FileSystem
  import opened Materialize
  import opened ArtifactTree

  /** Entries written onto a base tree, copied from the host as it was when each was reached. */
  datatype Staging = Staging(base: Tree, entries: seq<Entry>, when: nat -> Host)

  function Place(s: Staging, v: View, i: nat): Path
    requires i < |s.entries|
  {
    Target(v.top, s.entries[i])
  }

  /** v shows the tree that a successful write of a well-formed plan leaves. */
  ghost predicate Written(s: Staging, v: View) {
    && WellFormed(s.entries) && Ready(s.base, v.user, v.top)
    && Holds(v.nodes, s.base, Steps(s.entries, s.when, v.top, v.user))
  }

  function FinalNode(e: Entry, h: Host, user: int): Node {
    match e.body
    case Directory => DirNode(e.mode, user)
    case _ => Made(e, h, user)
  }

  lemma NodeAt(s: Staging, v: View, i: nat)
    requires Written(s, v) && i < |s.entries|
    ensures Place(s, v, i) in v.nodes
    ensures v.nodes[Place(s, v, i)] == FinalNode(s.entries[i], s.when(i), v.user)
  {
    var steps := Steps(s.entries, s.when, v.top, v.user);
    assert steps[i] == StepOf(s.entries[i], s.when(i), v.top, v.user);
    assert steps[i].path in v.nodes && v.nodes[steps[i].path] == steps[i].Final();
  }

  /** Everything at or below the top was planned. */
  lemma Located(s: Staging, v: View, p: Path) returns (i: nat)
    requires Written(s, v) && p in v.nodes && v.top <= p
    ensures i < |s.entries| && Place(s, v, i) == p
  {
    var steps := Steps(s.entries, s.when, v.top, v.user);
    assert p !in s.base;
    i :| 0 <= i < |steps| && steps[i].path == p;
    assert steps[i] == StepOf(s.entries[i], s.when(i), v.top, v.user);
  }

  lemma NameAt(s: Staging, v: View, i: nat)
    requires i < |s.entries| && Canonical(s.entries[i].name)
    ensures v.top <= Place(s, v, i) && Place(s, v, i)[|v.top|..] == Parts(s.entries[i].name)
    ensures NameOf(v, Place(s, v, i)) == s.entries[i].name
    ensures PlainParts(Parts(s.entries[i].name))
  {
    PartsPlain(s.entries[i].name);
    assert Place(s, v, i)[|v.top|..] == Parts(s.entries[i].name);
  }

  lemma SameName(s: Staging, i: nat, j: nat)
    requires WellFormed(s.entries) && i < |s.entries| && j < |s.entries| && s.entries[i].name == s.entries[j].name
    ensures i == j
  {}

  /** The captured inventory as a dict: one item for each entry. */
  lemma WantedIsEntries(entries: seq<Entry>, h: Host)
    requires WellFormed(entries) && Readable(entries, h)
    ensures var w := Wanted(Inventory(entries, h).value);
      && (forall i | 0 <= i < |entries| :: entries[i].name in w && w[entries[i].name] == ItemFor(entries[i], h))
      && forall n | n in w :: exists i | 0 <= i < |entries| :: entries[i].name == n
  {
    var sorted := Sort(entries, EntryKey);
    SortElements(entries, EntryKey);
    WantedIsItems(entries, sorted, h);
  }

  lemma WantedIsItems(entries: seq<Entry>, sorted: seq<Entry>, h: Host)
    requires forall i, j | 0 <= i < j < |entries| :: entries[i].name != entries[j].name
    requires (forall e | e in sorted :: e in entries) && forall e | e in entries :: e in sorted
    ensures var w := Wanted(Items(sorted, h));
      && (forall i | 0 <= i < |entries| :: entries[i].name in w && w[entries[i].name] == ItemFor(entries[i], h))
      && forall n | n in w :: exists i | 0 <= i < |entries| :: entries[i].name == n
  {
    var items := Items(sorted, h);
    var w := Wanted(items);
    forall n | n in w ensures exists i | 0 <= i < |entries| :: entries[i].name == n && w[n] == ItemFor(entries[i], h) {
      var k :| 0 <= k < |items| && items[k] == w[n];
      assert sorted[k] in entries;
      var i :| 0 <= i < |entries| && entries[i] == sorted[k];
    }
    forall i | 0 <= i < |entries| ensures entries[i].name in w && w[entries[i].name] == ItemFor(entries[i], h) {
      assert entries[i] in sorted;
      var k :| 0 <= k < |sorted| && sorted[k] == entries[i];
      assert items[k] in items && items[k].name == entries[i].name;
    }
  }

  // ----- when the written tree reads back as captured -----

  predicate IsPlannedParent(entries: seq<Entry>, i: nat)
    requires i < |entries|
  {
    exists j | 0 <= j < |entries| :: IsChild(Parts(entries[j].name), Parts(entries[i].name))
  }

  predicate OwnerMayRead(mode: nat) { mode / 64 % 8 / 4 % 2 == 1 }
  predicate OwnerMaySearch(mode: nat) { mode / 64 % 8 % 2 == 1 }

  /**
    Entry i reads back as captured: its planned mode lets the owner read it, and what was copied
    has the captured digest.  A directory with nothing planned in it may have any mode.
   */
  predicate Faithful(s: Staging, v: View, h: Host, i: nat)
    requires i < |s.entries|
  {
    var e := s.entries[i];
    match e.body
    case Directory => IsPlannedParent(s.entries, i) ==> OwnerMayRead(e.mode) && OwnerMaySearch(e.mode)
    case Link(target) => e.mode == MODE_777 && Stays(v, Place(s, v, i), target)
    case File(_) =>
      var copied := Copy(e, s.when(i)).GetOr([]);
      && OwnerMayRead(e.mode) && |copied| <= Limit(e.name)
      && Digest(v.sha256(copied)) == ItemFor(e, h).content
  }

  ghost predicate AllFaithful(s: Staging, v: View, h: Host) {
    forall i | 0 <= i < |s.entries| :: Faithful(s, v, h, i)
  }

  /** Where its path can be reached, an entry's row is the captured item exactly when it is faithful. */
  lemma RowIffFaithful(s: Staging, v: View, h: Host, i: nat)
    requires Written(s, v) && i < |s.entries| && Readable(s.entries, h)
    requires Reachable(v.nodes, v.user, Place(s, v, i))
    ensures !s.entries[i].body.Directory? ==>
      (Faithful(s, v, h, i) <==> RowOf(v, Place(s, v, i)) == Some(Expected(ItemFor(s.entries[i], h), v.user)))
    ensures s.entries[i].body.Directory? ==>
      RowOf(v, Place(s, v, i)) == Some(Expected(ItemFor(s.entries[i], h), v.user))
  {
    NodeAt(s, v, i);
    assert Canonical(s.entries[i].name) && s.entries[i] in s.entries;
    NameAt(s, v, i);
    var e, copied := s.entries[i], Copy(s.entries[i], s.when(i)).GetOr([]);
    assert ItemOf(e, h).Some?;
    if e.body.File? {
      FileRow(v, Place(s, v, i), e, copied, ItemFor(e, h));
    } else {
      OtherRow(v, Place(s, v, i), e, h);
    }
  }

  lemma FileRow(v: View, p: Path, e: Entry, copied: Text, item: Item)
    requires p in v.nodes && v.nodes[p] == FileNode(e.mode, v.user, copied) && Reachable(v.nodes, v.user, p)
    requires NameOf(v, p) == e.name && item.name == e.name && item.mode == e.mode
    ensures RowOf(v, p) == Some(Expected(item, v.user)) <==>
      OwnerMayRead(e.mode) && |copied| <= Limit(e.name) && Digest(v.sha256(copied)) == item.content
  {
    assert MayRead(v.nodes[p], v.user) <==> OwnerMayRead(e.mode);
  }

  lemma OtherRow(v: View, p: Path, e: Entry, h: Host)
    requires p in v.nodes && Reachable(v.nodes, v.user, p) && NameOf(v, p) == e.name
    requires !e.body.File? && v.nodes[p] == if e.body.Directory? then DirNode(e.mode, v.user) else LinkNode(v.user, e.body.target)
    ensures RowOf(v, p) == Some(Expected(ItemFor(e, h), v.user)) <==>
      (e.body.Link? ==> e.mode == MODE_777 && Stays(v, p, e.body.target))
  {}

  /** The parent's path is the child's without its last part. */
  lemma ParentPath(s: Staging, v: View, child: nat, parent: nat)
    requires child < |s.entries| && parent < |s.entries|
    requires IsChild(Parts(s.entries[child].name), Parts(s.entries[parent].name))
    ensures var p := Place(s, v, child); |p| > |v.top| && Place(s, v, parent) == Above(p, |p| - 1) && v.top < p
  {
    ChildBelow(v.top, Parts(s.entries[child].name), Parts(s.entries[parent].name));
  }

  lemma OpenParent(nodes: Tree, user: int, top: Path, p: Path)
    requires |top| < |p| && top <= p && p in nodes && Reachable(nodes, user, Above(p, |p| - 1))
    requires var up := Above(p, |p| - 1); up in nodes && nodes[up].DirNode? && MayRead(nodes[up], user) && MaySearch(nodes[up], user)
    requires Above(p, |p| - 1) == top || Visible(nodes, user, top, Above(p, |p| - 1))
    ensures Reachable(nodes, user, p) && Visible(nodes, user, top, p)
  {
    var up := Above(p, |p| - 1);
    forall k | 0 <= k < |p| ensures Above(p, k) in nodes && MaySearch(nodes[Above(p, k)], user) {
      if k < |up| { assert Above(p, k) == Above(up, k); }
    }
    forall k | |top| <= k < |p| ensures Listable(nodes, user, Above(p, k)) {
      if k < |up| { assert Above(p, k) == Above(up, k); }
    }
  }

  lemma TopReachable(s: Staging, v: View)
    requires Written(s, v)
    ensures Place(s, v, 0) == v.top && Reachable(v.nodes, v.user, v.top) && RealTop(v)
  {
    HereHasNoParts();
    assert v.top + Parts(HERE) == v.top;
    NodeAt(s, v, 0);
    ReachableGrows(s.base, v.nodes, v.user, v.top);
  }

  /** The directory planned above an entry, and where it is. */
  lemma ParentOf(s: Staging, v: View, i: nat) returns (j: nat)
    requires Written(s, v) && 1 <= i < |s.entries|
    ensures j < i && s.entries[j].body.Directory? && IsPlannedParent(s.entries, j)
    ensures var p := Place(s, v, i); |p| > |v.top| && Place(s, v, j) == Above(p, |p| - 1) && v.top <= p
    ensures Place(s, v, j) in v.nodes && v.nodes[Place(s, v, j)] == DirNode(s.entries[j].mode, v.user)
  {
    assert HasPlannedParent(s.entries, i);
    j :| 0 <= j < i && s.entries[j].body.Directory? && IsChild(Parts(s.entries[i].name), Parts(s.entries[j].name));
    ParentPath(s, v, i, j);
    NodeAt(s, v, j);
  }

  lemma FaithfulOpens(s: Staging, v: View, h: Host, j: nat)
    requires AllFaithful(s, v, h) && j < |s.entries| && s.entries[j].body.Directory? && IsPlannedParent(s.entries, j)
    ensures var d := DirNode(s.entries[j].mode, v.user); MayRead(d, v.user) && MaySearch(d, v.user)
  {
    assert Faithful(s, v, h, j);
  }

  ghost predicate Seen(v: View, p: Path) {
    Reachable(v.nodes, v.user, p) && (p == v.top || Visible(v.nodes, v.user, v.top, p))
  }

  /** A path in a directory that is seen and open to its owner is seen too. */
  lemma ChildSeen(v: View, p: Path, parent: Path, mode: nat)
    requires |v.top| < |p| && v.top <= p && parent == Above(p, |p| - 1) && Seen(v, parent)
    requires p in v.nodes && parent in v.nodes && v.nodes[parent] == DirNode(mode, v.user)
    requires MayRead(DirNode(mode, v.user), v.user) && MaySearch(DirNode(mode, v.user), v.user)
    ensures Seen(v, p)
  {
    OpenParent(v.nodes, v.user, v.top, p);
  }

  /** Entry j is the directory holding entry i, as it stands in the tree. */
  ghost predicate LaidUnder(s: Staging, v: View, i: nat, j: nat)
    requires i < |s.entries|
  {
    && j < i && s.entries[j].body.Directory? && IsPlannedParent(s.entries, j)
    && Place(s, v, j) in v.nodes && v.nodes[Place(s, v, j)] == DirNode(s.entries[j].mode, v.user)
    && Place(s, v, i) in v.nodes && |Place(s, v, i)| > |v.top| && v.top <= Place(s, v, i)
    && Place(s, v, j) == Above(Place(s, v, i), |Place(s, v, i)| - 1)
  }

  lemma SomeParent(s: Staging, v: View, i: nat) returns (j: nat)
    requires Written(s, v) && 1 <= i < |s.entries|
    ensures LaidUnder(s, v, i, j)
  {
    j := ParentOf(s, v, i);
    NodeAt(s, v, i);
  }

  lemma StepSeen(s: Staging, v: View, h: Host, i: nat, j: nat)
    requires i < |s.entries| && LaidUnder(s, v, i, j) && AllFaithful(s, v, h) && Seen(v, Place(s, v, j))
    ensures Seen(v, Place(s, v, i))
  {
    FaithfulOpens(s, v, h, j);
    ChildSeen(v, Place(s, v, i), Place(s, v, j), s.entries[j].mode);
  }

  /** When all is faithful, every planned path can be reached and is seen by the scan. */
  lemma {:induction false} FaithfulIsSeen(s: Staging, v: View, h: Host, i: nat)
    requires Written(s, v) && i < |s.entries| && AllFaithful(s, v, h)
    ensures Seen(v, Place(s, v, i))
    decreases i
  {
    if i == 0 {
      TopReachable(s, v);
    } else {
      var j := SomeParent(s, v, i);
      FaithfulIsSeen(s, v, h, j);
      StepSeen(s, v, h, i, j);
    }
  }

  lemma ListedBelow(v: View, order: seq<Path>, i: nat)
    requires IsOrder(v, order) && i < |order| && v.top in v.nodes
    ensures order[i] in v.nodes && v.top <= order[i]
  {
    if i > 0 { assert order[1..][i - 1] in order[1..]; }
  }

  lemma WrittenIsPlain(s: Staging, v: View, order: seq<Path>)
    requires Written(s, v) && IsOrder(v, order)
    ensures PlainBelow(v, order)
  {
    TopReachable(s, v);
    forall k | 0 <= k < |order| ensures v.top <= order[k] && PlainParts(order[k][|v.top|..]) {
      ListedBelow(v, order, k);
      var i := Located(s, v, order[k]);
      NameAt(s, v, i);
    }
  }

  /** Faithful entries give a tree inventory without differences. */
  lemma FaithfulMatches(s: Staging, v: View, h: Host, order: seq<Path>, r: Option<seq<Observed>>)
    requires Written(s, v) && Readable(s.entries, h) && Reports(v, order, r)
    requires AllFaithful(s, v, h)
    ensures r.Some? && Differences(r.value, Inventory(s.entries, h).value, v.user) == []
  {
    var w := Wanted(Inventory(s.entries, h).value);
    WantedIsEntries(s.entries, h);
    WrittenIsPlain(s, v, order);
    TopReachable(s, v);
    forall k | 0 <= k < |order| ensures Shows(v, w, v.user, order[k]) {
      ListedBelow(v, order, k);
      var i := Located(s, v, order[k]);
      FaithfulShows(s, v, h, i, w);
    }
    forall n | n in w ensures exists k | 0 <= k < |order| :: NameOf(v, order[k]) == n {
      var i :| 0 <= i < |s.entries| && s.entries[i].name == n;
      FaithfulIsSeen(s, v, h, i);
      NameAt(s, v, i);
      OrderHas(v, order, Place(s, v, i));
    }
    assert r.Some?;
    TreeIsInventory(v, order, r.value, Inventory(s.entries, h).value, v.user);
  }

  lemma FaithfulShows(s: Staging, v: View, h: Host, i: nat, w: map<Text, Item>)
    requires Written(s, v) && i < |s.entries| && Readable(s.entries, h) && AllFaithful(s, v, h)
    requires s.entries[i].name in w && w[s.entries[i].name] == ItemFor(s.entries[i], h)
    ensures Shows(v, w, v.user, Place(s, v, i))
  {
    FaithfulIsSeen(s, v, h, i);
    assert Faithful(s, v, h, i) && Canonical(s.entries[i].name);
    RowIffFaithful(s, v, h, i);
    NameAt(s, v, i);
  }

  lemma OrderHas(v: View, order: seq<Path>, p: Path)
    requires IsOrder(v, order) && (p == v.top || Visible(v.nodes, v.user, v.top, p))
    ensures exists k | 0 <= k < |order| :: order[k] == p
  {
    if p != v.top {
      assert p in order[1..];
      var k :| 0 <= k < |order[1..]| && order[1..][k] == p;
      assert order[k + 1] == p;
    }
  }

  /** In a tree without differences every planned path was listed with its captured row. */
  lemma MatchLists(s: Staging, v: View, h: Host, order: seq<Path>, rows: seq<Observed>, i: nat)
    requires Written(s, v) && Readable(s.entries, h) && Reports(v, order, Some(rows)) && i < |s.entries|
    requires Differences(rows, Inventory(s.entries, h).value, v.user) == []
    ensures Place(s, v, i) == v.top || Visible(v.nodes, v.user, v.top, Place(s, v, i))
    ensures Reachable(v.nodes, v.user, Place(s, v, i))
    ensures RowOf(v, Place(s, v, i)) == Some(Expected(ItemFor(s.entries[i], h), v.user))
  {
    var w := Wanted(Inventory(s.entries, h).value);
    WantedIsEntries(s.entries, h);
    WrittenIsPlain(s, v, order);
    TreeIsInventory(v, order, rows, Inventory(s.entries, h).value, v.user);
    TopReachable(s, v);
    assert s.entries[i].name in w;
    var k :| 0 <= k < |order| && NameOf(v, order[k]) == s.entries[i].name;
    ListedBelow(v, order, k);
    var j := Located(s, v, order[k]);
    NameAt(s, v, j);
    SameName(s, i, j);
    assert Shows(v, w, v.user, order[k]);
    if k > 0 { assert order[1..][k - 1] in order[1..]; }
  }

  lemma MatchIsFaithful(s: Staging, v: View, h: Host, order: seq<Path>, rows: seq<Observed>, i: nat)
    requires Written(s, v) && Readable(s.entries, h) && Reports(v, order, Some(rows)) && i < |s.entries|
    requires Differences(rows, Inventory(s.entries, h).value, v.user) == []
    ensures Faithful(s, v, h, i)
  {
    MatchLists(s, v, h, order, rows, i);
    if !s.entries[i].body.Directory? {
      RowIffFaithful(s, v, h, i);
    } else if IsPlannedParent(s.entries, i) {
      var j :| 0 <= j < |s.entries| && IsChild(Parts(s.entries[j].name), Parts(s.entries[i].name));
      MatchLists(s, v, h, order, rows, j);
      ParentPath(s, v, j, i);
      NodeAt(s, v, i);
      var p := Place(s, v, j);
      assert Listable(v.nodes, v.user, Above(p, |p| - 1));
      assert MaySearch(v.nodes[Above(p, |p| - 1)], v.user);
    }
  }

  /** The written tree reads back without differences exactly when every entry is faithful. */
  lemma StagedMatchesIff(s: Staging, v: View, h: Host, order: seq<Path>, r: Option<seq<Observed>>)
    requires Written(s, v) && Readable(s.entries, h) && Reports(v, order, r)
    ensures (r.Some? && Differences(r.value, Inventory(s.entries, h).value, v.user) == [])
       <==> AllFaithful(s, v, h)
  {
    if AllFaithful(s, v, h) { FaithfulMatches(s, v, h, order, r); }
    if r.Some? && Differences(r.value, Inventory(s.entries, h).value, v.user) == [] {
      forall i | 0 <= i < |s.entries| ensures Faithful(s, v, h, i) { MatchIsFaithful(s, v, h, order, r.value, i); }
    }
  }
}
