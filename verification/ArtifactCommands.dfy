/** The stage and verify commands' trees (scripts/claude_host_artifacts.py). */
module ArtifactCommands {
  import opened Texts
  import opened Wrappers
  import opened PathParts
  import opened ArtifactInventory
  import opened ArtifactPlan
  import opened FileSystem
  import opened Materialize
  import opened ArtifactTree
  import opened ArtifactStage

  const ROOT_UID := 0

  /** Every path lies in directories of the tree, and file names have no slash in them. */
  ghost predicate FileTree(nodes: Tree) {
    && (forall p | p in nodes :: PlainParts(p))
    && (forall p, k | p in nodes && 0 <= k < |p| :: Above(p, k) in nodes && nodes[Above(p, k)].DirNode?)
  }

  /** The same of what is at or below the top. */
  ghost predicate TreeBelow(nodes: Tree, top: Path) {
    && (forall p | p in nodes && top <= p :: PlainParts(p[|top|..]))
    && (forall p, k | p in nodes && top <= p && |top| <= k < |p| :: Above(p, k) in nodes && nodes[Above(p, k)].DirNode?)
  }

  /** What a scan shows below the top is the inventory: every path seen is an item as it should be, and every item is seen. */
  ghost predicate TreeEquals(v: View, items: seq<Item>, owner: int) {
    && RealTop(v)
    && (forall p | p in v.nodes && (p == v.top || Visible(v.nodes, v.user, v.top, p)) :: Shows(v, Wanted(items), owner, p))
    && (forall n | n in Wanted(items) :: exists p | p in v.nodes ::
          (p == v.top || Visible(v.nodes, v.user, v.top, p)) && NameOf(v, p) == n)
  }

  /** An empty list of differences and equality of trees are the same thing. */
  lemma NoDifferenceIsEquality(v: View, order: seq<Path>, r: Option<seq<Observed>>, items: seq<Item>, owner: int)
    requires Reports(v, order, r) && PlainBelow(v, order)
    ensures (r.Some? && Differences(r.value, items, owner) == []) <==> TreeEquals(v, items, owner)
  {
    if r.Some? && Differences(r.value, items, owner) == [] { DifferenceFreeTree(v, order, r.value, items, owner); }
    if TreeEquals(v, items, owner) { EqualTree(v, order, r, items, owner); }
  }

  lemma DifferenceFreeTree(v: View, order: seq<Path>, rows: seq<Observed>, items: seq<Item>, owner: int)
    requires Reports(v, order, Some(rows)) && PlainBelow(v, order) && Differences(rows, items, owner) == []
    ensures TreeEquals(v, items, owner)
  {
    var w := Wanted(items);
    TreeIsInventory(v, order, rows, items, owner);
    forall p | p in v.nodes && (p == v.top || Visible(v.nodes, v.user, v.top, p)) ensures Shows(v, w, owner, p) {
      OrderHas(v, order, p);
    }
    forall n | n in w
      ensures exists p | p in v.nodes :: (p == v.top || Visible(v.nodes, v.user, v.top, p)) && NameOf(v, p) == n
    {
      var i :| 0 <= i < |order| && NameOf(v, order[i]) == n;
      OrderIsSeen(v, order, i);
    }
  }

  lemma OrderIsSeen(v: View, order: seq<Path>, i: nat)
    requires IsOrder(v, order) && i < |order| && v.top in v.nodes
    ensures order[i] in v.nodes && (order[i] == v.top || Visible(v.nodes, v.user, v.top, order[i]))
  {
    if i > 0 { assert order[1..][i - 1] in order[1..]; }
  }

  lemma EqualTree(v: View, order: seq<Path>, r: Option<seq<Observed>>, items: seq<Item>, owner: int)
    requires Reports(v, order, r) && PlainBelow(v, order) && TreeEquals(v, items, owner)
    ensures r.Some? && Differences(r.value, items, owner) == []
  {
    var w := Wanted(items);
    forall i | 0 <= i < |order| ensures Shows(v, w, owner, order[i]) { OrderIsSeen(v, order, i); }
    forall n | n in w ensures exists i | 0 <= i < |order| :: NameOf(v, order[i]) == n {
      var p :| p in v.nodes && (p == v.top || Visible(v.nodes, v.user, v.top, p)) && NameOf(v, p) == n;
      OrderHas(v, order, p);
    }
    assert r.Some?;
    TreeIsInventory(v, order, r.value, items, owner);
  }

  lemma ListedIsPlain(v: View, order: seq<Path>)
    requires IsOrder(v, order) && forall p | p in v.nodes && v.top <= p :: PlainParts(p[|v.top|..])
    requires v.top in v.nodes
    ensures PlainBelow(v, order)
  {
    forall i | 0 <= i < |order| ensures v.top <= order[i] && PlainParts(order[i][|v.top|..]) { ListedBelow(v, order, i); }
  }

  /** Read the tree and compare it with the inventory. */
  method TreeMatches(disk: Disk, v: View, items: seq<Item>, owner: int) returns (ok: bool)
    requires v.nodes == disk.nodes && v.user == disk.user
    requires forall p | p in v.nodes && v.top <= p :: PlainParts(p[|v.top|..])
    ensures ok <==> TreeEquals(v, items, owner)
  {
    if v.top !in disk.nodes {
      return false;
    }
    ghost var order;
    var rows;
    rows, order := TreeInventory(disk, v);
    ListedIsPlain(v, order);
    NoDifferenceIsEquality(v, order, rows, items, owner);
    ok := rows.Some? && Differences(rows.value, items, owner) == [];
  }

  // ----- the whole tree, hidden paths included -----

  /** The tree at and below the top is the inventory, and there is nothing else in it, seen or not. */
  ghost predicate TreeIs(v: View, items: seq<Item>, owner: int) {
    && RealTop(v)
    && (forall p | p in v.nodes && v.top <= p :: Shows(v, Wanted(items), owner, p))
    && (forall n | n in Wanted(items) :: exists p | p in v.nodes && v.top <= p :: NameOf(v, p) == n)
  }

  lemma ShownOpens(v: View, items: seq<Item>, owner: int, p: Path)
    requires OpenItems(items, owner, v.user) && Shows(v, Wanted(items), owner, p)
    requires p in v.nodes && v.nodes[p].DirNode?
    ensures Reachable(v.nodes, v.user, p) && MayRead(v.nodes[p], v.user) && MaySearch(v.nodes[p], v.user)
  {
    var item := Wanted(items)[NameOf(v, p)];
    assert item in items;
  }

  /** Where every directory shown is open to the reader, nothing in the tree is hidden. */
  lemma {:induction false} NothingHidden(v: View, items: seq<Item>, owner: int, p: Path)
    requires TreeBelow(v.nodes, v.top) && OpenItems(items, owner, v.user) && p in v.nodes && v.top <= p
    requires forall q | q in v.nodes && v.top <= q && (q == v.top || Visible(v.nodes, v.user, v.top, q)) ::
      Shows(v, Wanted(items), owner, q)
    ensures p == v.top || Visible(v.nodes, v.user, v.top, p)
    decreases |p|
  {
    if |p| > |v.top| {
      var up := Above(p, |p| - 1);
      assert v.top <= up;
      NothingHidden(v, items, owner, up);
      ShownOpens(v, items, owner, up);
      OpenParent(v.nodes, v.user, v.top, p);
    }
  }

  /** With directories open to the reader, what the scan shows is the whole tree. */
  lemma ShownIsWhole(v: View, items: seq<Item>, owner: int)
    requires TreeBelow(v.nodes, v.top) && OpenItems(items, owner, v.user)
    ensures TreeEquals(v, items, owner) <==> TreeIs(v, items, owner)
  {
    if TreeEquals(v, items, owner) || TreeIs(v, items, owner) {
      forall p | p in v.nodes && v.top <= p ensures p == v.top || Visible(v.nodes, v.user, v.top, p) {
        NothingHidden(v, items, owner, p);
      }
    }
  }

  // ----- stage -----

  /** The last parts of the steps' places are file names. */
  ghost predicate PlainLast(steps: seq<Step>) {
    forall i | 0 <= i < |steps| && steps[i].path != [] :: IsPart(Last(steps[i].path)) && SLASH !in Last(steps[i].path)
  }

  function Last(p: Path): Text
    requires p != []
  {
    p[|p| - 1]
  }

  lemma OneMoreKeepsTree(nodes: Tree, user: int, p: Path, n: Node)
    requires FileTree(nodes) && Creatable(nodes, user, p) && IsPart(Last(p)) && SLASH !in Last(p)
    ensures FileTree(nodes[p := n])
  {
    var up, r := Above(p, |p| - 1), nodes[p := n];
    assert p == up + [Last(p)];
    forall q, k | q in r && 0 <= k < |q| ensures Above(q, k) in r && r[Above(q, k)].DirNode? {
      if q == p { assert Above(p, k) in nodes && MaySearch(nodes[Above(p, k)], user); }
      else { assert Above(q, k) in nodes && Above(q, k) != p; }
    }
  }

  /** Whatever is created where lookups lead, the whole stays a tree of files. */
  lemma {:induction false} BuildKeepsTree(base: Tree, steps: seq<Step>, user: int, n: nat)
    requires n <= |steps| && FileTree(base) && Buildable(base, steps, user, n) && PlainLast(steps)
    ensures FileTree(Build(base, steps, n))
  {
    if n > 0 {
      BuildKeepsTree(base, steps, user, n - 1);
      assert Makeable(base, steps, user, n - 1);
      OneMoreKeepsTree(Build(base, steps, n - 1), user, steps[n - 1].path, steps[n - 1].made);
    }
  }

  /** Tightening changes no node's kind. */
  lemma SameKinds(nodes: Tree, base: Tree, steps: seq<Step>, user: int, p: Path)
    requires Holds(nodes, base, steps) && Buildable(base, steps, user, |steps|)
    ensures p in nodes <==> p in Build(base, steps, |steps|)
    ensures p in nodes ==> (nodes[p].DirNode? <==> Build(base, steps, |steps|)[p].DirNode?)
  {
    BuildGrows(base, steps, user, 0, |steps|);
    if p in Build(base, steps, |steps|) { BuildSources(base, steps, |steps|, p); }
    if i :| 0 <= i < |steps| && steps[i].path == p { BuildMade(base, steps, user, i, |steps|); }
  }

  lemma HoldsTree(nodes: Tree, base: Tree, steps: seq<Step>, user: int)
    requires Holds(nodes, base, steps) && Buildable(base, steps, user, |steps|) && FileTree(base) && PlainLast(steps)
    ensures FileTree(nodes)
  {
    var built := Build(base, steps, |steps|);
    BuildKeepsTree(base, steps, user, |steps|);
    forall p | p in nodes ensures PlainParts(p) { SameKinds(nodes, base, steps, user, p); }
    forall p, k | p in nodes && 0 <= k < |p| ensures Above(p, k) in nodes && nodes[Above(p, k)].DirNode? {
      SameKinds(nodes, base, steps, user, p);
      SameKinds(nodes, base, steps, user, Above(p, k));
    }
  }

  /** A step's place ends as its path does. */
  lemma LedLastPart(base: Tree, steps: seq<Step>, user: int, i: nat)
    requires i < |steps|
    ensures var r := Led(base, steps, user, |steps|); r[i].path != [] ==> steps[i].path != [] && Last(r[i].path) == Last(steps[i].path)
  {
    LedAt(base, steps, user, |steps|, i);
  }

  lemma PlacedIsPlain(base: Tree, entries: seq<Entry>, when: nat -> Host, dest: Path, user: int)
    requires AllAdmissible(entries, when, |entries|) && dest != [] && PlainParts(dest)
    ensures PlainLast(Placed(base, entries, when, dest, user))
  {
    var r, steps := Placed(base, entries, when, dest, user), Steps(entries, when, dest, user);
    forall i | 0 <= i < |r| && r[i].path != [] ensures IsPart(Last(r[i].path)) && SLASH !in Last(r[i].path) {
      LedLastPart(base, steps, user, i);
      StepPath(entries, when, dest, user, i);
      assert AdmissibleAt(entries, when, i);
      TargetIsPlain(dest, entries[i].name);
    }
  }

  lemma TargetIsPlain(dest: Path, name: Text)
    requires NameOk(name) && dest != [] && PlainParts(dest)
    ensures var p := dest + Parts(name); IsPart(Last(p)) && SLASH !in Last(p)
  {
    if name == HERE { HereHasNoParts(); } else { PartsPlain(name); }
    var p := dest + Parts(name);
    assert Last(p) in dest || Last(p) in Parts(name);
  }

  lemma NothingBelow(base: Tree, dest: Path, p: Path)
    requires FileTree(base) && dest !in base && dest <= p
    ensures p !in base
  {
    assert Above(p, |dest|) == dest;
    if |p| == |dest| { assert p == dest; }
  }

  predicate Copied(entries: seq<Entry>, when: nat -> Host) {
    forall i | 0 <= i < |entries| :: Copy(entries[i], when(i)).Some?
  }

  /** A directory of one of these owners that nobody else may write. */
  predicate Trusted(n: Node, owners: set<int>) {
    n.DirNode? && n.uid in owners && n.mode / 2 % 2 == 0 && n.mode / 16 % 2 == 0
  }

  /** require_ancestors(p, owners): whatever is above p is such a directory. */
  predicate TrustedAbove(nodes: Tree, p: Path, owners: set<int>) {
    forall k | 0 <= k < |p| :: Above(p, k) in nodes && Trusted(nodes[Above(p, k)], owners)
  }

  /** A directory of the user's own, closed to everyone else. */
  predicate Private(n: Node, user: int) { n.DirNode? && n.uid == user && n.mode % 64 == 0 }

  /** require_custody: the place is named by file names, in a private workspace below trusted directories. */
  predicate InCustody(nodes: Tree, user: int, dest: Path) {
    && dest != [] && PlainParts(dest) && DOTDOT !in dest
    && TrustedAbove(nodes, Parent(dest), {ROOT_UID, user})
    && Parent(dest) in nodes && Private(nodes[Parent(dest)], user)
  }

  /** A free place for a tree. */
  predicate Free(nodes: Tree, user: int, dest: Path) { InCustody(nodes, user, dest) && Creatable(nodes, user, dest) }

  /**
    stage(): `captured` is the host as it was when the plan was made, `when` the host while it is copied.
    Success means the new tree is the captured inventory, the whole of it where the inventory's directories
    are open to their owner; and a well-formed plan succeeds exactly when every source could still be read
    and every entry reads back as captured.
   */
  method Stage(disk: Disk, p: Plan, dest: Path, when: nat -> Host, sha256: Text -> Text, hops: nat, ghost captured: Host)
    returns (ok: bool)
    requires FileTree(disk.nodes)
    modifies disk
    ensures Extends(old(disk.nodes), disk.nodes)
    ensures ok ==> dest !in old(disk.nodes) && InCustody(old(disk.nodes), disk.user, dest)
    ensures ok ==> TreeEquals(View(disk.nodes, disk.user, dest, sha256, hops), StagingInventory(p), disk.user)
    ensures ok && OpenItems(StagingInventory(p), disk.user, disk.user) ==>
      TreeIs(View(disk.nodes, disk.user, dest, sha256, hops), StagingInventory(p), disk.user)
    ensures WellFormed(StagingEntries(p)) && Free(old(disk.nodes), disk.user, dest) && Captured(p, captured, sha256) ==>
      var v := View(disk.nodes, disk.user, dest, sha256, hops);
      ok <==> Copied(StagingEntries(p), when) && AllFaithful(Staging(old(disk.nodes), StagingEntries(p), when), v, captured)
    ensures WellFormed(StagingEntries(p)) && Free(old(disk.nodes), disk.user, dest) && Copied(StagingEntries(p), when) ==>
      Written(Staging(old(disk.nodes), StagingEntries(p), when), View(disk.nodes, disk.user, dest, sha256, hops))
  {
    if !InCustody(disk.nodes, disk.user, dest) || dest in disk.nodes {
      return false;
    }
    var entries := StagingEntries(p);
    ghost var base := disk.nodes;
    WhenReady(base, disk.user, dest, entries, when);
    ok := Materialize.Materialize(disk, entries, when, dest);
    if !ok {
      return;
    }
    var v := View(disk.nodes, disk.user, dest, sha256, hops);
    PlacedIsPlain(base, entries, when, dest, disk.user);
    HoldsTree(disk.nodes, base, Placed(base, entries, when, dest, disk.user), disk.user);
    TreeIsBelow(disk.nodes, dest);
    ok := TreeMatches(disk, v, StagingInventory(p), disk.user);
    if OpenItems(StagingInventory(p), disk.user, disk.user) { ShownIsWhole(v, StagingInventory(p), disk.user); }
    if Captured(p, captured, sha256) { WrittenEqualsIff(Staging(base, entries, when), v, captured, StagingInventory(p)); }
  }

  /** Every source could be read on this host, and the staging inventory is what was read. */
  ghost predicate Captured(p: Plan, h: Host, sha256: Text -> Text) {
    && h.sha256 == sha256 && Readable(StagingEntries(p), h)
    && Inventory(StagingEntries(p), h) == Some(StagingInventory(p))
  }

  lemma WhenReady(base: Tree, user: int, dest: Path, entries: seq<Entry>, when: nat -> Host)
    requires FileTree(base)
    ensures Creatable(base, user, dest) ==> Ready(base, user, dest)
    ensures WellFormed(entries) && Ready(base, user, dest) && Copied(entries, when) ==>
      AllAdmissible(entries, when, |entries|) && Placed(base, entries, when, dest, user) == Steps(entries, when, dest, user)
      && Buildable(base, Placed(base, entries, when, dest, user), user, |entries|)
    ensures AllAdmissible(entries, when, |entries|) ==> Copied(entries, when)
  {
    if Creatable(base, user, dest) {
      forall p | p in base ensures !(dest <= p) {
        if dest <= p { NothingBelow(base, dest, p); }
      }
    }
    if WellFormed(entries) && Ready(base, user, dest) && Copied(entries, when) {
      WellFormedCompletes(base, entries, when, dest, user);
    }
    if AllAdmissible(entries, when, |entries|) {
      forall i | 0 <= i < |entries| ensures Copy(entries[i], when(i)).Some? { assert AdmissibleAt(entries, when, i); }
    }
  }

  /** For a written plan, equality with the captured inventory is the faithfulness of its entries. */
  lemma WrittenEqualsIff(s: Staging, v: View, h: Host, items: seq<Item>)
    requires Readable(s.entries, h) && Inventory(s.entries, h) == Some(items)
    ensures Written(s, v) ==> (TreeEquals(v, items, v.user) <==> AllFaithful(s, v, h))
  {
    if Written(s, v) {
      var order := SomeOrder(v);
      WrittenIsPlain(s, v, order);
      var r := SomeReport(v, order);
      NoDifferenceIsEquality(v, order, r, items, v.user);
      StagedMatchesIff(s, v, h, order, r);
    }
  }

  lemma SomeOrder(v: View) returns (order: seq<Path>)
    ensures IsOrder(v, order)
  {
    var scan := Listing(set p | p in v.nodes && Visible(v.nodes, v.user, v.top, p));
    order := [v.top] + scan;
    assert order[1..] == scan;
  }

  lemma {:induction false} Listing(s: set<Path>) returns (scan: seq<Path>)
    ensures forall p :: p in scan <==> p in s
    ensures forall i, j | 0 <= i < j < |scan| :: scan[i] != scan[j]
    decreases |s|
  {
    if s == {} {
      scan := [];
    } else {
      var p :| p in s;
      var rest := Listing(s - {p});
      scan := [p] + rest;
    }
  }

  lemma SomeReport(v: View, order: seq<Path>) returns (r: Option<seq<Observed>>)
    requires IsOrder(v, order)
    ensures Reports(v, order, r)
  {
    if RealTop(v) && forall i | 0 <= i < |order| :: RowOf(v, order[i]).Some? {
      r := Some(seq(|order|, i requires 0 <= i < |order| => RowOf(v, order[i]).value));
    } else {
      r := None;
    }
  }

  // ----- verify -----

  /** The installed policy file is root's, read-only, and has the reviewed digest. */
  predicate PolicyInstalled(nodes: Tree, user: int, path: Path, sha256: Text -> Text, digest: Text) {
    && path in nodes && Reachable(nodes, user, path) && nodes[path].FileNode?
    && nodes[path].uid == ROOT_UID && nodes[path].mode == MODE_444
    && |nodes[path].data| <= FILE_BYTES && sha256(nodes[path].data) == digest
  }

  /** What verify() asks of the policy file and of the directories above it and above the tree. */
  predicate Surrounded(nodes: Tree, user: int, installed: Path, policy: Path, sha256: Text -> Text, digest: Text) {
    && TrustedAbove(nodes, installed, {ROOT_UID}) && TrustedAbove(nodes, policy, {ROOT_UID})
    && PolicyInstalled(nodes, user, policy, sha256, digest)
  }

  /**
    verify()'s trees: installed exactly when root's tree is the plan's inventory, the whole of it where the
    inventory's directories are open to the reader, and the policy is in place, both below root's own directories.
   */
  method Verify(disk: Disk, p: Plan, installed: Path, policy: Path, sha256: Text -> Text, hops: nat) returns (ok: bool)
    requires FileTree(disk.nodes)
    ensures ok <==>
      && TreeEquals(View(disk.nodes, disk.user, installed, sha256, hops), p.inventory, ROOT_UID)
      && Surrounded(disk.nodes, disk.user, installed, policy, sha256, p.policySha256)
    ensures OpenItems(p.inventory, ROOT_UID, disk.user) ==>
      (ok <==> TreeIs(View(disk.nodes, disk.user, installed, sha256, hops), p.inventory, ROOT_UID)
               && Surrounded(disk.nodes, disk.user, installed, policy, sha256, p.policySha256))
  {
    var v := View(disk.nodes, disk.user, installed, sha256, hops);
    TreeIsBelow(v.nodes, installed);
    if OpenItems(p.inventory, ROOT_UID, disk.user) { ShownIsWhole(v, p.inventory, ROOT_UID); }
    if !TrustedAbove(disk.nodes, installed, {ROOT_UID}) || !TrustedAbove(disk.nodes, policy, {ROOT_UID}) {
      return false;
    }
    ok := TreeMatches(disk, v, p.inventory, ROOT_UID);
    if ok {
      ok := PolicyMatches(disk, policy, sha256, p.policySha256);
    }
  }

  lemma TreeIsBelow(nodes: Tree, top: Path)
    requires FileTree(nodes)
    ensures TreeBelow(nodes, top)
  {
    forall p | p in nodes && top <= p ensures PlainParts(p[|top|..]) {
      forall x | x in p[|top|..] ensures x in p {}
    }
  }

  method PolicyMatches(disk: Disk, policy: Path, sha256: Text -> Text, digest: Text) returns (ok: bool)
    ensures ok <==> PolicyInstalled(disk.nodes, disk.user, policy, sha256, digest)
  {
    if policy !in disk.nodes || !Reachable(disk.nodes, disk.user, policy) {
      return false;
    }
    var info := disk.nodes[policy];
    if !info.FileNode? || info.uid != ROOT_UID || info.mode != MODE_444 {
      return false;
    }
    var raw := ReadBoundedRegular(disk, policy, FILE_BYTES);
    ok := raw.Some? && sha256(raw.value) == digest;
  }
}
