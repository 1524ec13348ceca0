/**
  Reading a tree back, and when what was written reads back as what was captured
  (scripts/claude_host_artifacts.py).
 */
module ArtifactTree {
  import opened Texts
  import opened Wrappers
  import opened Sorting
  import opened PathParts
  import opened ArtifactInventory
  import opened ArtifactPlan
  import opened FileSystem
  import opened Materialize

  const MEMBER_SIZE := 257068216
  const CHUNK_BYTES := 1048576  // 1 << 20

  const INSTALLED_MEMBER := Lit("vendor/claude")
  const STAGED_MEMBER := Lit("constructicon-m8-claude/vendor/claude")

  function Limit(name: Text): nat {
    if name == INSTALLED_MEMBER || name == STAGED_MEMBER then MEMBER_SIZE else FILE_BYTES
  }

  // ----- reading one file -----

  function BoundedRead(nodes: Tree, user: int, p: Path, limit: nat): Option<Text> {
    if p in nodes && Reachable(nodes, user, p) && nodes[p].FileNode? && MayRead(nodes[p], user)
       && |nodes[p].data| <= limit
    then Some(nodes[p].data)
    else None
  }

  /** read_bounded_regular on a tree that holds still: never more than limit + 1 bytes are asked for. */
  method ReadBoundedRegular(disk: Disk, p: Path, limit: nat) returns (r: Option<Text>)
    ensures r == BoundedRead(disk.nodes, disk.user, p, limit)
  {
    if p !in disk.nodes || !Reachable(disk.nodes, disk.user, p) {
      return None;
    }
    var node := disk.nodes[p];
    if !node.FileNode? || |node.data| > limit || !MayRead(node, disk.user) {
      return None;
    }
    var raw, remaining := [], limit + 1;
    while remaining > 0
      invariant |raw| + remaining == limit + 1
      invariant |raw| <= |node.data| && raw == node.data[..|raw|]
      decreases remaining
    {
      var most := if CHUNK_BYTES < remaining then CHUNK_BYTES else remaining;
      var chunk := disk.Read(p, |raw|, most);
      if chunk == [] {
        break;
      }
      assert node.data[..|raw|] + chunk == node.data[..|raw| + |chunk|];
      raw := raw + chunk;
      remaining := remaining - |chunk|;
    }
    if |raw| > limit || |raw| != |node.data| {
      return None;
    }
    assert node.data[..|raw|] == node.data;
    return Some(raw);
  }

  // ----- tree_inventory -----

  /** The tree below `top` as a user sees it; a path that leads through more than `hops` links counts as a loop. */
  datatype View = View(nodes: Tree, user: int, top: Path, sha256: Text -> Text, hops: nat)

  /**
    Path.resolve() from a resolved directory: ".." goes up, a link that can be reached is replaced by its target,
    and what is missing or cannot be reached stays as it is named; None for a loop.
   */
  function Resolve(nodes: Tree, user: int, at: Path, rest: seq<Text>, hops: nat): Option<Path>
    decreases hops, |rest|
  {
    if rest == [] then Some(at)
    else if rest[0] == DOTDOT then
      Resolve(nodes, user, if at == [] then [] else Above(at, |at| - 1), rest[1..], hops)
    else
      var p := at + [rest[0]];
      if p in nodes && Reachable(nodes, user, p) && nodes[p].LinkNode? then
        if hops == 0 then None
        else
          var target := nodes[p].target;
          Resolve(nodes, user, if Relative(target) then at else [], KeepParts(Split(target, SLASH)) + rest[1..], hops - 1)
      else Resolve(nodes, user, p, rest[1..], hops)
  }

  /** A link at p with this target resolves inside the tree. */
  predicate Stays(v: View, p: Path, target: Text) {
    var at := if p == [] || !Relative(target) then [] else Above(p, |p| - 1);
    var resolved := Resolve(v.nodes, v.user, at, KeepParts(Split(target, SLASH)), v.hops);
    resolved.Some? && v.top <= resolved.value
  }

  function NameOf(v: View, p: Path): Text {
    Render(if v.top <= p then p[|v.top|..] else p)
  }

  /** The row of one path, None where reading it raises; lstat gives every link mode 0o777. */
  function RowOf(v: View, p: Path): (r: Option<Observed>)
    ensures r.Some? ==> r.value.name == NameOf(v, p)
  {
    if p !in v.nodes || !Reachable(v.nodes, v.user, p) then None
    else match v.nodes[p]
      case LinkNode(uid, target) =>
        if Stays(v, p, target) then Some(Observed(NameOf(v, p), MODE_777, LinksTo(target), uid)) else None
      case DirNode(mode, uid) => Some(Observed(NameOf(v, p), mode, IsDirectory, uid))
      case FileNode(mode, uid, _) =>
        var raw :- BoundedRead(v.nodes, v.user, p, Limit(NameOf(v, p)));
        Some(Observed(NameOf(v, p), mode, Digest(v.sha256(raw)), uid))
  }

  predicate RealTop(v: View) {
    v.top in v.nodes && v.nodes[v.top].DirNode? && Reachable(v.nodes, v.user, v.top)
  }

  /** The paths of a tree inventory: the top, then all a scan below it shows. */
  ghost predicate IsOrder(v: View, order: seq<Path>) {
    order != [] && order[0] == v.top && IsListing(v.nodes, v.user, v.top, order[1..])
  }

  /** r is the tree inventory over these paths. */
  ghost predicate Reports(v: View, order: seq<Path>, r: Option<seq<Observed>>) {
    && IsOrder(v, order)
    && (r.Some? <==> RealTop(v) && forall i | 0 <= i < |order| :: RowOf(v, order[i]).Some?)
    && (r.Some? ==> |r.value| == |order|
                    && forall i | 0 <= i < |order| :: RowOf(v, order[i]) == Some(r.value[i]))
  }

  method ReadRow(disk: Disk, v: View, p: Path) returns (r: Option<Observed>)
    requires v.nodes == disk.nodes && v.user == disk.user
    ensures r == RowOf(v, p)
  {
    if p !in disk.nodes || !Reachable(disk.nodes, disk.user, p) {
      return None;
    }
    var info, name := disk.nodes[p], NameOf(v, p);
    match info {
      case LinkNode(uid, target) =>
        r := if Stays(v, p, target) then Some(Observed(name, MODE_777, LinksTo(target), uid)) else None;
      case DirNode(mode, uid) => r := Some(Observed(name, mode, IsDirectory, uid));
      case FileNode(mode, uid, _) =>
        var raw := ReadBoundedRegular(disk, p, Limit(name));
        r := if raw.Some? then Some(Observed(name, mode, Digest(v.sha256(raw.value)), uid)) else None;
    }
  }

  method TreeInventory(disk: Disk, v: View) returns (r: Option<seq<Observed>>, ghost order: seq<Path>)
    requires v.nodes == disk.nodes && v.user == disk.user
    ensures Reports(v, order, r)
    ensures r.Some? ==> RealTop(v) && r.value != [] && RowOf(v, v.top) == Some(r.value[0])
  {
    var scan := disk.Rglob(v.top);
    var sorted := Sort(scan, PartsKey);
    SortKeepsListing(v, scan);
    var paths := [v.top] + sorted;
    assert paths[1..] == sorted;
    order := paths;
    if !RealTop(v) {
      return None, order;
    }
    r := ReadRows(disk, v, paths);
  }

  method ReadRows(disk: Disk, v: View, paths: seq<Path>) returns (r: Option<seq<Observed>>)
    requires v.nodes == disk.nodes && v.user == disk.user
    ensures r.Some? <==> forall i | 0 <= i < |paths| :: RowOf(v, paths[i]).Some?
    ensures r.Some? ==> |r.value| == |paths| && forall i | 0 <= i < |paths| :: RowOf(v, paths[i]) == Some(r.value[i])
  {
    var rows: seq<Observed> := [];
    for i := 0 to |paths|
      invariant |rows| == i
      invariant forall j | 0 <= j < i :: RowOf(v, paths[j]) == Some(rows[j])
    {
      var row := ReadRow(disk, v, paths[i]);
      if row.None? {
        return None;
      }
      rows := rows + [row.value];
    }
    r := Some(rows);
  }

  lemma SortKeepsListing(v: View, scan: seq<Path>)
    requires IsListing(v.nodes, v.user, v.top, scan)
    ensures IsListing(v.nodes, v.user, v.top, Sort(scan, PartsKey))
  {
    SortElements(scan, PartsKey);
    SortDistinctElements(scan);
  }

  /** Sorting distinct paths leaves them distinct. */
  lemma SortDistinctElements(scan: seq<Path>)
    requires forall i, j | 0 <= i < j < |scan| :: scan[i] != scan[j]
    ensures var s := Sort(scan, PartsKey); forall i, j | 0 <= i < j < |s| :: s[i] != s[j]
  {
    var s := Sort(scan, PartsKey);
    forall i, j | 0 <= i < j < |s| ensures s[i] != s[j] {
      if s[i] == s[j] {
        assert s[i] in multiset(s);
        TwiceIn(s, i, j);
        OnceIn(scan, s[i]);
      }
    }
  }

  // ----- a tree agrees with an inventory -----

  /** The row an inventory item asks for. */
  function Expected(i: Item, owner: int): Observed { Observed(i.name, i.mode, i.content, owner) }

  /** Everything listed lies below the top under ordinary file names. */
  predicate PlainBelow(v: View, order: seq<Path>) {
    forall i | 0 <= i < |order| :: v.top <= order[i] && PlainParts(order[i][|v.top|..])
  }

  lemma NameOfInjective(v: View, order: seq<Path>, i: nat, j: nat)
    requires PlainBelow(v, order) && i < |order| && j < |order| && NameOf(v, order[i]) == NameOf(v, order[j])
    ensures order[i] == order[j]
  {
    var a, b := order[i][|v.top|..], order[j][|v.top|..];
    RenderInjective(a, b);
    assert order[i] == v.top + a && order[j] == v.top + b;
  }

  lemma RowsAgree(v: View, order: seq<Path>, rows: seq<Observed>, i: nat, j: nat)
    requires Reports(v, order, Some(rows)) && PlainBelow(v, order)
    requires i < |rows| && j < |rows| && rows[i].name == rows[j].name
    ensures rows[i] == rows[j]
  {
    assert RowOf(v, order[i]) == Some(rows[i]) && RowOf(v, order[j]) == Some(rows[j]);
    NameOfInjective(v, order, i, j);
  }

  /** The dict of rows that agree whenever they share a name holds each row under its name. */
  lemma FoundIsRows(rows: seq<Observed>)
    requires forall i, j | 0 <= i < |rows| && 0 <= j < |rows| && rows[i].name == rows[j].name :: rows[i] == rows[j]
    ensures forall i | 0 <= i < |rows| :: rows[i].name in Found(rows) && Found(rows)[rows[i].name] == rows[i]
    ensures forall n | n in Found(rows) :: exists i | 0 <= i < |rows| :: rows[i].name == n
  {
    var f := Found(rows);
    forall i | 0 <= i < |rows| ensures rows[i].name in f && f[rows[i].name] == rows[i] {
      assert rows[i] in rows;
      var j :| 0 <= j < |rows| && rows[j] == f[rows[i].name];
    }
    forall n | n in f ensures exists i | 0 <= i < |rows| :: rows[i].name == n {
      var i :| 0 <= i < |rows| && rows[i] == f[n];
    }
  }

  lemma FoundInOrder(v: View, order: seq<Path>, rows: seq<Observed>)
    requires Reports(v, order, Some(rows)) && PlainBelow(v, order)
    ensures forall i | 0 <= i < |rows| ::
      NameOf(v, order[i]) in Found(rows) && RowOf(v, order[i]) == Some(Found(rows)[NameOf(v, order[i])])
    ensures forall n | n in Found(rows) :: exists i | 0 <= i < |rows| :: NameOf(v, order[i]) == n
  {
    forall i, j | 0 <= i < |rows| && 0 <= j < |rows| && rows[i].name == rows[j].name ensures rows[i] == rows[j] {
      RowsAgree(v, order, rows, i, j);
    }
    FoundIsRows(rows);
    forall i | 0 <= i < |rows| ensures rows[i].name == NameOf(v, order[i]) {
      assert RowOf(v, order[i]) == Some(rows[i]);
    }
    forall n | n in Found(rows) ensures exists i | 0 <= i < |rows| :: NameOf(v, order[i]) == n {
      var i :| 0 <= i < |rows| && rows[i].name == n;
      assert NameOf(v, order[i]) == n;
    }
  }

  /** Path p shows exactly what the inventory has under its name. */
  predicate Shows(v: View, wanted: map<Text, Item>, owner: int, p: Path) {
    var n := NameOf(v, p);
    n in wanted && RowOf(v, p) == Some(Expected(wanted[n], owner))
  }

  /**
    No difference means: every path a scan shows is an item of the inventory with its mode,
    content and owner, and every item is at some path.
   */
  lemma TreeIsInventory(v: View, order: seq<Path>, rows: seq<Observed>, items: seq<Item>, owner: int)
    requires Reports(v, order, Some(rows)) && PlainBelow(v, order)
    ensures Differences(rows, items, owner) == [] <==>
      && (forall i | 0 <= i < |order| :: Shows(v, Wanted(items), owner, order[i]))
      && forall n | n in Wanted(items) :: exists i | 0 <= i < |order| :: NameOf(v, order[i]) == n
  {
    FoundInOrder(v, order, rows);
    NoDifferenceIff(rows, items, owner);
    if Differences(rows, items, owner) == [] { SameShows(v, order, Found(rows), Wanted(items), owner); }
    if (forall i | 0 <= i < |order| :: Shows(v, Wanted(items), owner, order[i]))
       && forall n | n in Wanted(items) :: exists i | 0 <= i < |order| :: NameOf(v, order[i]) == n {
      ShowsSame(v, order, Found(rows), Wanted(items), owner);
    }
  }

  /** f is the dict of the rows. */
  ghost predicate Holding(v: View, order: seq<Path>, f: map<Text, Observed>) {
    && (forall i | 0 <= i < |order| :: NameOf(v, order[i]) in f && RowOf(v, order[i]) == Some(f[NameOf(v, order[i])]))
    && (forall n | n in f :: exists i | 0 <= i < |order| :: NameOf(v, order[i]) == n)
  }

  lemma SameShows(v: View, order: seq<Path>, f: map<Text, Observed>, w: map<Text, Item>, owner: int)
    requires Holding(v, order, f) && f.Keys == w.Keys && forall n | n in w :: w[n].name == n
    requires forall n | n in w :: f[n] == Observed(n, w[n].mode, w[n].content, owner)
    ensures forall i | 0 <= i < |order| :: Shows(v, w, owner, order[i])
    ensures forall n | n in w :: exists i | 0 <= i < |order| :: NameOf(v, order[i]) == n
  {}

  lemma ShowsSame(v: View, order: seq<Path>, f: map<Text, Observed>, w: map<Text, Item>, owner: int)
    requires Holding(v, order, f) && forall n | n in w :: w[n].name == n
    requires forall i | 0 <= i < |order| :: Shows(v, w, owner, order[i])
    requires forall n | n in w :: exists i | 0 <= i < |order| :: NameOf(v, order[i]) == n
    ensures f.Keys == w.Keys
    ensures forall n | n in w :: n in f && f[n] == Observed(n, w[n].mode, w[n].content, owner)
  {
    forall n | n in w ensures n in f && f[n] == Expected(w[n], owner) {
      var i :| 0 <= i < |order| && NameOf(v, order[i]) == n;
      assert Shows(v, w, owner, order[i]);
    }
    forall n | n in f ensures n in w {
      var i :| 0 <= i < |order| && NameOf(v, order[i]) == n;
      assert Shows(v, w, owner, order[i]);
    }
  }
}
