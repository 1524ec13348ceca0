/**
  A POSIX tree as one unprivileged user meets it, and the trees that a sequence of
  creations builds on it.
 */
module FileSystem {
  import opened Texts
  import opened Wrappers
  import opened PathParts

  type Path = seq<Text>

  datatype Node =
    | DirNode(mode: nat, uid: int)
    | FileNode(mode: nat, uid: int, data: Text)
    | LinkNode(uid: int, target: Text)

  type Tree = map<Path, Node>

  /** The rwx bits that apply to a user: the owner's, else everyone's. */
  function Bits(mode: nat, uid: int, user: int): nat {
    if uid == user then mode / 64 % 8 else mode % 8
  }

  predicate MayRead(n: Node, user: int) { !n.LinkNode? && Bits(n.mode, n.uid, user) / 4 % 2 == 1 }
  predicate MayWrite(n: Node, user: int) { !n.LinkNode? && Bits(n.mode, n.uid, user) / 2 % 2 == 1 }
  predicate MaySearch(n: Node, user: int) { n.DirNode? && Bits(n.mode, n.uid, user) % 2 == 1 }

  function Above(p: Path, k: nat): Path
    requires k <= |p|
  {
    p[..k]
  }

  function Parent(p: Path): Path { if p == [] then [] else Above(p, |p| - 1) }

  /** Every directory above p can be searched: p is reached without following a link. */
  predicate Reachable(nodes: Tree, user: int, p: Path) {
    forall k | 0 <= k < |p| :: Above(p, k) in nodes && MaySearch(nodes[Above(p, k)], user)
  }

  /** A new node can be made at this very place. */
  predicate Creatable(nodes: Tree, user: int, p: Path) {
    p != [] && DOTDOT !in p && p !in nodes && Reachable(nodes, user, p) && MayWrite(nodes[Above(p, |p| - 1)], user)
  }

  // ----- looking a path up, through links -----

  const MAX_LINKS := 40  // links followed in one lookup before it fails as a loop

  /** Where a lookup has come to, and how many more links it may follow. */
  datatype Stand = Stand(at: Path, links: nat)

  /** The directory to which these parts lead from a directory, if they lead to one through what may be searched. */
  function Walk(nodes: Tree, user: int, s: Stand, rest: seq<Text>): Option<Stand>
    decreases s.links, |rest|
  {
    if rest == [] then Some(s)
    else if s.at !in nodes || !MaySearch(nodes[s.at], user) then None
    else if rest[0] == DOTDOT then Walk(nodes, user, Stand(Parent(s.at), s.links), rest[1..])
    else
      var p := s.at + [rest[0]];
      if p !in nodes then None
      else match nodes[p]
        case DirNode(_, _) => Walk(nodes, user, Stand(p, s.links), rest[1..])
        case FileNode(_, _, _) => None
        case LinkNode(_, target) =>
          if s.links == 0 then None
          else Walk(nodes, user, Through(s, target), KeepParts(Split(target, SLASH)) + rest[1..])
  }

  /** From a link in this directory: on from here, or from the root for an absolute target. */
  function Through(s: Stand, target: Text): Stand
    requires s.links > 0
  {
    Stand(if Relative(target) then s.at else [], s.links - 1)
  }

  const START := Stand([], MAX_LINKS)

  /** The place a new node at p would have: its name in the directory that the path above leads to. */
  function Lookup(nodes: Tree, user: int, p: Path): Option<Path> {
    if p == [] || p[|p| - 1] == DOTDOT then None
    else
      var s :- Walk(nodes, user, START, Parent(p));
      Some(s.at + [p[|p| - 1]])
  }

  /** That place; no node is ever made at the root, which stands for a lookup that fails. */
  function Follow(nodes: Tree, user: int, p: Path): Path { Lookup(nodes, user, p).GetOr([]) }

  /** A lookup that succeeds depends only on what it meets. */
  lemma {:induction false} WalkGrows(small: Tree, large: Tree, user: int, s: Stand, rest: seq<Text>)
    requires Walk(small, user, s, rest).Some? && Extends(small, large)
    ensures Walk(large, user, s, rest) == Walk(small, user, s, rest)
    decreases s.links, |rest|
  {
    if rest != [] {
      var p := s.at + [rest[0]];
      if rest[0] == DOTDOT { WalkGrows(small, large, user, Stand(Parent(s.at), s.links), rest[1..]); }
      else if small[p].DirNode? { WalkGrows(small, large, user, Stand(p, s.links), rest[1..]); }
      else {
        var target := small[p].target;
        WalkGrows(small, large, user, Through(s, target), KeepParts(Split(target, SLASH)) + rest[1..]);
      }
    }
  }

  lemma FollowGrows(small: Tree, large: Tree, user: int, p: Path)
    requires Lookup(small, user, p).Some? && Extends(small, large)
    ensures Lookup(large, user, p) == Lookup(small, user, p)
  {
    WalkGrows(small, large, user, START, Parent(p));
  }

  /** A lookup can be made in two legs. */
  lemma {:induction false} WalkSplit(nodes: Tree, user: int, s: Stand, a: seq<Text>, b: seq<Text>)
    requires Walk(nodes, user, s, a + b).Some?
    ensures var mid := Walk(nodes, user, s, a);
      mid.Some? && Walk(nodes, user, s, a + b) == Walk(nodes, user, mid.value, b)
    decreases s.links, |a|
  {
    if a == [] {
      assert a + b == b;
    } else {
      var p := s.at + [a[0]];
      assert (a + b)[0] == a[0] && (a + b)[1..] == a[1..] + b;
      if a[0] == DOTDOT { WalkSplit(nodes, user, Stand(Parent(s.at), s.links), a[1..], b); }
      else if nodes[p].DirNode? { WalkSplit(nodes, user, Stand(p, s.links), a[1..], b); }
      else {
        var on := KeepParts(Split(nodes[p].target, SLASH));
        ConcatAssociative(on, a[1..], b);
        WalkSplit(nodes, user, Through(s, nodes[p].target), on + a[1..], b);
      }
    }
  }

  /** Through real directories a lookup goes straight. */
  lemma {:induction false} WalkStraight(nodes: Tree, user: int, s: Stand, rest: seq<Text>)
    requires DOTDOT !in rest
    requires forall k | 0 <= k <= |rest| :: s.at + rest[..k] in nodes && MaySearch(nodes[s.at + rest[..k]], user)
    ensures Walk(nodes, user, s, rest) == Some(Stand(s.at + rest, s.links))
    decreases |rest|
  {
    if rest == [] {
      assert s.at + rest == s.at;
    } else {
      var p := s.at + [rest[0]];
      assert rest[..1] == [rest[0]] && s.at + rest[..0] == s.at;
      forall k | 0 <= k <= |rest[1..]| ensures p + rest[1..][..k] in nodes && MaySearch(nodes[p + rest[1..][..k]], user) {
        assert p + rest[1..][..k] == s.at + rest[..k + 1];
      }
      WalkStraight(nodes, user, Stand(p, s.links), rest[1..]);
      assert p + rest[1..] == s.at + rest;
    }
  }

  /** A place reached without a link is where its path leads. */
  lemma FollowStraight(nodes: Tree, user: int, p: Path)
    requires p != [] && DOTDOT !in p && Reachable(nodes, user, p)
    ensures Lookup(nodes, user, p) == Some(p)
  {
    var up := Parent(p);
    forall k | 0 <= k <= |up| ensures [] + up[..k] in nodes && MaySearch(nodes[[] + up[..k]], user) {
      assert [] + up[..k] == Above(p, k);
    }
    WalkStraight(nodes, user, START, up);
    assert [] + up + [p[|p| - 1]] == p;
  }

  // ----- creating one node after another -----

  /** A node to create, and the mode it is left with if it is a directory. */
  datatype Step = Step(path: Path, made: Node, mode: nat) {
    function Final(): Node {
      if made.DirNode? then DirNode(mode, made.uid) else made
    }
  }

  /** The tree after the first n steps. */
  function Build(base: Tree, steps: seq<Step>, n: nat): Tree
    requires n <= |steps|
  {
    if n == 0 then base else Build(base, steps, n - 1)[steps[n - 1].path := steps[n - 1].made]
  }

  /** Step i can be taken on the tree of the steps before it. */
  predicate Makeable(base: Tree, steps: seq<Step>, user: int, i: nat)
    requires i < |steps|
  {
    Creatable(Build(base, steps, i), user, steps[i].path)
  }

  predicate Buildable(base: Tree, steps: seq<Step>, user: int, n: nat)
    requires n <= |steps|
  {
    forall i | 0 <= i < n :: Makeable(base, steps, user, i)
  }

  ghost predicate Extends(small: Tree, large: Tree) {
    forall p | p in small :: p in large && large[p] == small[p]
  }

  /** What has been built stays as it was made. */
  lemma {:induction false} BuildGrows(base: Tree, steps: seq<Step>, user: int, i: nat, n: nat)
    requires i <= n <= |steps| && Buildable(base, steps, user, n)
    ensures Extends(Build(base, steps, i), Build(base, steps, n))
    decreases n - i
  {
    if i < n {
      BuildGrows(base, steps, user, i, n - 1);
      assert Makeable(base, steps, user, n - 1);
    }
  }

  lemma BuildMade(base: Tree, steps: seq<Step>, user: int, i: nat, n: nat)
    requires i < n <= |steps| && Buildable(base, steps, user, n)
    ensures steps[i].path in Build(base, steps, n) && Build(base, steps, n)[steps[i].path] == steps[i].made
  {
    BuildGrows(base, steps, user, i + 1, n);
  }

  lemma {:induction false} BuildSources(base: Tree, steps: seq<Step>, n: nat, p: Path)
    requires n <= |steps| && p in Build(base, steps, n)
    ensures p in base || exists i | 0 <= i < n :: steps[i].path == p
  {
    if n > 0 && p != steps[n - 1].path { BuildSources(base, steps, n - 1, p); }
  }

  /** A later path is new to everything made before it. */
  lemma LaterIsNew(base: Tree, steps: seq<Step>, user: int, i: nat, j: nat)
    requires i <= j < |steps| && Buildable(base, steps, user, |steps|)
    ensures steps[j].path !in Build(base, steps, i)
    ensures forall l | 0 <= l < i :: steps[l].path != steps[j].path
  {
    assert Makeable(base, steps, user, j);
    BuildGrows(base, steps, user, i, j);
    forall l | 0 <= l < i ensures steps[l].path != steps[j].path { BuildMade(base, steps, user, l, i); }
  }

  // ----- where the steps of a plan lead -----

  /** One step more, at the place to which its path leads by then. */
  function LedMore(base: Tree, done: seq<Step>, s: Step, user: int): seq<Step> {
    done + [s.(path := Follow(Build(base, done, |done|), user, s.path))]
  }

  /** The first n steps at the places to which their paths lead when each is taken. */
  function Led(base: Tree, steps: seq<Step>, user: int, n: nat): (r: seq<Step>)
    requires n <= |steps|
    ensures |r| == n && forall i | 0 <= i < n :: r[i].made == steps[i].made && r[i].mode == steps[i].mode
  {
    if n == 0 then []
    else LedMore(base, Led(base, steps, user, n - 1), steps[n - 1], user)
  }

  lemma {:induction false} BuildPrefix(base: Tree, steps: seq<Step>, more: seq<Step>, n: nat)
    requires n <= |steps| <= |more| && steps == more[..|steps|]
    ensures Build(base, steps, n) == Build(base, more, n)
  {
    if n > 0 {
      BuildPrefix(base, steps, more, n - 1);
      assert steps[n - 1] == more[n - 1];
    }
  }

  /** Step i is at the place to which its path leads on the tree of the steps before it. */
  ghost predicate LedTo(base: Tree, r: seq<Step>, s: Step, user: int, i: nat)
    requires i < |r|
  {
    r[i] == s.(path := Follow(Build(base, r, i), user, s.path))
  }

  lemma LedStays(base: Tree, done: seq<Step>, more: seq<Step>, s: Step, user: int, i: nat)
    requires i < |done| <= |more| && done == more[..|done|] && LedTo(base, done, s, user, i)
    ensures LedTo(base, more, s, user, i)
  {
    BuildPrefix(base, done, more, i);
    assert more[i] == done[i];
  }

  lemma LedLast(base: Tree, done: seq<Step>, s: Step, user: int)
    ensures LedTo(base, LedMore(base, done, s, user), s, user, |done|)
  {
    BuildPrefix(base, done, LedMore(base, done, s, user), |done|);
  }

  lemma {:induction false} LedAt(base: Tree, steps: seq<Step>, user: int, n: nat, i: nat)
    requires i < n <= |steps|
    ensures LedTo(base, Led(base, steps, user, n), steps[i], user, i)
    decreases n
  {
    var done := Led(base, steps, user, n - 1);
    var r := LedMore(base, done, steps[n - 1], user);
    if i == n - 1 {
      LedLast(base, done, steps[i], user);
    } else {
      LedAt(base, steps, user, n - 1, i);
      assert r[..|done|] == done;
      LedStays(base, done, r, steps[i], user, i);
    }
  }

  lemma StraightMore(base: Tree, steps: seq<Step>, user: int, i: nat)
    requires i < |steps| && Makeable(base, steps, user, i)
    ensures LedMore(base, steps[..i], steps[i], user) == steps[..i + 1]
  {
    BuildPrefix(base, steps[..i], steps, i);
    FollowStraight(Build(base, steps, i), user, steps[i].path);
  }

  /** Steps that can be taken at their own paths lead nowhere else. */
  lemma {:induction false} LedStraight(base: Tree, steps: seq<Step>, user: int, n: nat)
    requires n <= |steps| && Buildable(base, steps, user, n)
    ensures Led(base, steps, user, n) == steps[..n]
    decreases n
  {
    if n > 0 {
      LedStraight(base, steps, user, n - 1);
      StraightMore(base, steps, user, n - 1);
    }
  }

  /** The tree holds every step in its final form, and nothing that was there before has changed. */
  ghost predicate Holds(nodes: Tree, base: Tree, steps: seq<Step>) {
    && Extends(base, nodes)
    && (forall i | 0 <= i < |steps| :: steps[i].path !in base)
    && (forall i | 0 <= i < |steps| :: steps[i].path in nodes && nodes[steps[i].path] == steps[i].Final())
    && (forall p | p in nodes :: p in base || exists i | 0 <= i < |steps| :: steps[i].path == p)
  }

  // ----- giving directories their modes, last made first -----

  /** A directory still to be given its planned mode. */
  datatype Pending = Pending(path: Path, mode: nat)

  /** The pending directories are the directory steps, in order. */
  ghost predicate PendingOk(pending: seq<Pending>, index: seq<nat>, steps: seq<Step>, n: nat)
    requires n <= |steps|
  {
    && |index| == |pending|
    && (forall m | 0 <= m < |index| :: index[m] < n && steps[index[m]].made.DirNode?)
    && (forall m | 0 <= m < |index| :: pending[m] == Pending(steps[index[m]].path, steps[index[m]].mode))
    && (forall l, m | 0 <= l < m < |index| :: index[l] < index[m])
    && (forall i | 0 <= i < n && steps[i].made.DirNode? :: i in index)
  }

  /** One more step seen. */
  lemma PendingMore(pending: seq<Pending>, index: seq<nat>, steps: seq<Step>, i: nat)
    requires i < |steps| && PendingOk(pending, index, steps, i)
    ensures steps[i].made.DirNode? ==>
      PendingOk(pending + [Pending(steps[i].path, steps[i].mode)], index + [i], steps, i + 1)
    ensures !steps[i].made.DirNode? ==> PendingOk(pending, index, steps, i + 1)
  {
    if steps[i].made.DirNode? {
      var more := index + [i];
      forall j | 0 <= j < i + 1 && steps[j].made.DirNode? ensures j in more {
        if j < i { assert j in index; } else { assert more[|index|] == i; }
      }
    }
  }

  ghost predicate IsPending(pending: seq<Pending>, k: nat, p: Path) {
    exists m | k <= m < |pending| :: pending[m].path == p
  }

  /** The built tree with the directories from k on tightened. */
  ghost predicate Tightened(nodes: Tree, built: Tree, pending: seq<Pending>, k: nat, user: int)
    requires k <= |pending|
  {
    && nodes.Keys == built.Keys
    && (forall m | k <= m < |pending| ::
          pending[m].path in nodes && nodes[pending[m].path] == DirNode(pending[m].mode, user))
    && (forall p | p in built && !IsPending(pending, k, p) :: nodes[p] == built[p])
  }

  /** What was built before a pending directory has not been tightened yet. */
  lemma EarlyIsUntouched(nodes: Tree, base: Tree, steps: seq<Step>, user: int,
                         pending: seq<Pending>, index: seq<nat>, k: nat)
    requires Buildable(base, steps, user, |steps|) && PendingOk(pending, index, steps, |steps|) && k < |pending|
    requires Tightened(nodes, Build(base, steps, |steps|), pending, k + 1, user)
    ensures index[k] < |steps| && Extends(Build(base, steps, index[k] + 1), nodes)
  {
    var i := index[k];
    BuildGrows(base, steps, user, i + 1, |steps|);
    forall m | k + 1 <= m < |pending| ensures pending[m].path !in Build(base, steps, i + 1) {
      LaterIsNew(base, steps, user, i + 1, index[m]);
    }
  }

  lemma ReachableGrows(small: Tree, large: Tree, user: int, p: Path)
    requires Reachable(small, user, p) && Extends(small, large)
    ensures Reachable(large, user, p)
  {}

  /** In reverse order of creation every directory is still reachable when its turn comes. */
  lemma ReverseChmodReaches(nodes: Tree, base: Tree, steps: seq<Step>, user: int,
                            pending: seq<Pending>, index: seq<nat>, k: nat)
    requires Buildable(base, steps, user, |steps|) && PendingOk(pending, index, steps, |steps|) && k < |pending|
    requires Tightened(nodes, Build(base, steps, |steps|), pending, k + 1, user)
    ensures pending[k].path in nodes && Reachable(nodes, user, pending[k].path)
    ensures nodes[pending[k].path] == steps[index[k]].made
  {
    var i := index[k];
    EarlyIsUntouched(nodes, base, steps, user, pending, index, k);
    BuildMade(base, steps, user, i, i + 1);
    BuildGrows(base, steps, user, i, i + 1);
    assert Makeable(base, steps, user, i);
    ReachableGrows(Build(base, steps, i), nodes, user, pending[k].path);
  }

  /** One more directory tightened. */
  lemma TightenOne(nodes: Tree, built: Tree, pending: seq<Pending>, k: nat, user: int)
    requires k < |pending| && Tightened(nodes, built, pending, k + 1, user) && pending[k].path in nodes
    requires forall m | k < m < |pending| :: pending[m].path != pending[k].path
    ensures Tightened(nodes[pending[k].path := DirNode(pending[k].mode, user)], built, pending, k, user)
  {
    var after := nodes[pending[k].path := DirNode(pending[k].mode, user)];
    forall p | p in built && !IsPending(pending, k, p) ensures after[p] == built[p] {
      assert !IsPending(pending, k + 1, p);
    }
  }

  predicate OwnedBy(steps: seq<Step>, user: int) {
    forall i | 0 <= i < |steps| :: steps[i].made.uid == user
  }

  /** With every directory tightened, the build has become the plan. */
  lemma TightenedHolds(nodes: Tree, base: Tree, steps: seq<Step>, user: int, pending: seq<Pending>, index: seq<nat>)
    requires Buildable(base, steps, user, |steps|) && OwnedBy(steps, user)
    requires PendingOk(pending, index, steps, |steps|)
    requires Tightened(nodes, Build(base, steps, |steps|), pending, 0, user)
    ensures Holds(nodes, base, steps)
  {
    var n := |steps|;
    BuildGrows(base, steps, user, 0, n);
    forall i | 0 <= i < n ensures steps[i].path !in base { LaterIsNew(base, steps, user, 0, i); }
    forall p | p in base ensures !IsPending(pending, 0, p) {
      forall m | 0 <= m < |pending| ensures pending[m].path != p { assert steps[index[m]].path !in base; }
    }
    forall i | 0 <= i < n ensures steps[i].path in nodes && nodes[steps[i].path] == steps[i].Final() {
      TightenedStep(nodes, base, steps, user, pending, index, i);
    }
    forall p | p in nodes ensures p in base || exists i | 0 <= i < n :: steps[i].path == p {
      BuildSources(base, steps, n, p);
    }
  }

  lemma TightenedStep(nodes: Tree, base: Tree, steps: seq<Step>, user: int,
                      pending: seq<Pending>, index: seq<nat>, i: nat)
    requires Buildable(base, steps, user, |steps|) && OwnedBy(steps, user) && i < |steps|
    requires PendingOk(pending, index, steps, |steps|)
    requires Tightened(nodes, Build(base, steps, |steps|), pending, 0, user)
    ensures steps[i].path in nodes && nodes[steps[i].path] == steps[i].Final()
  {
    BuildMade(base, steps, user, i, |steps|);
    if steps[i].made.DirNode? {
      var m :| 0 <= m < |index| && index[m] == i;
      assert pending[m].path == steps[i].path;
    } else {
      forall m | 0 <= m < |pending| ensures pending[m].path != steps[i].path {
        StepsDiffer(base, steps, user, i, index[m]);
      }
    }
  }

  lemma StepsDiffer(base: Tree, steps: seq<Step>, user: int, i: nat, j: nat)
    requires i < |steps| && j < |steps| && i != j && Buildable(base, steps, user, |steps|)
    ensures steps[i].path != steps[j].path
  {
    if i < j { LaterIsNew(base, steps, user, j, j); } else { LaterIsNew(base, steps, user, i, i); }
  }

  // ----- when every step can be taken -----

  /** The place is free, with nothing under it either, and its parent can take it. */
  ghost predicate Ready(base: Tree, user: int, dest: Path) {
    Creatable(base, user, dest) && forall p | p in base :: !(dest <= p)
  }

  /** Step i is a directory open to its owner. */
  predicate OpenDirectory(s: Step, user: int) {
    s.made.DirNode? && MaySearch(s.made, user) && MayWrite(s.made, user)
  }

  /** The destination first, then everything under a directory already made; no path twice. */
  ghost predicate ParentsFirst(steps: seq<Step>, dest: Path, user: int) {
    && steps != [] && steps[0].path == dest && OpenDirectory(steps[0], user)
    && (forall i | 1 <= i < |steps| :: HasParent(steps, dest, user, i))
    && (forall i | 0 <= i < |steps| :: DOTDOT !in steps[i].path)
    && (forall i, j | 0 <= i < j < |steps| :: steps[i].path != steps[j].path)
  }

  ghost predicate HasParent(steps: seq<Step>, dest: Path, user: int, i: nat)
    requires i < |steps|
  {
    && |dest| < |steps[i].path| && dest <= steps[i].path
    && exists j | 0 <= j < i :: OpenDirectory(steps[j], user) && steps[j].path == Above(steps[i].path, |steps[i].path| - 1)
  }

  lemma ParentReachable(base: Tree, steps: seq<Step>, user: int, i: nat, j: nat)
    requires j < i < |steps| && Buildable(base, steps, user, i) && OpenDirectory(steps[j], user)
    requires steps[i].path != [] && steps[j].path == Above(steps[i].path, |steps[i].path| - 1)
    ensures Reachable(Build(base, steps, i), user, steps[i].path)
    ensures MayWrite(Build(base, steps, i)[Above(steps[i].path, |steps[i].path| - 1)], user)
  {
    var p, parent, now := steps[i].path, steps[j].path, Build(base, steps, i);
    BuildMade(base, steps, user, j, i);
    assert Makeable(base, steps, user, j);
    BuildGrows(base, steps, user, j, i);
    ReachableGrows(Build(base, steps, j), now, user, parent);
    forall k | 0 <= k < |p| ensures Above(p, k) in now && MaySearch(now[Above(p, k)], user) {
      if k < |parent| { assert Above(p, k) == Above(parent, k); }
    }
  }

  /** Parents first, into a place that is ready, every step can be taken. */
  lemma {:induction false} ParentsFirstBuilds(base: Tree, steps: seq<Step>, user: int, dest: Path, n: nat)
    requires n <= |steps| && Ready(base, user, dest) && ParentsFirst(steps, dest, user)
    ensures Buildable(base, steps, user, n)
  {
    if n > 0 {
      ParentsFirstBuilds(base, steps, user, dest, n - 1);
      var i := n - 1;
      assert steps[i].path !in Build(base, steps, i) by {
        assert i > 0 ==> HasParent(steps, dest, user, i);
        assert dest <= steps[i].path;
        if steps[i].path in Build(base, steps, i) { BuildSources(base, steps, i, steps[i].path); }
      }
      if i > 0 {
        assert HasParent(steps, dest, user, i);
        var j :| 0 <= j < i && OpenDirectory(steps[j], user) && steps[j].path == Above(steps[i].path, |steps[i].path| - 1);
        ParentReachable(base, steps, user, i, j);
      }
      assert Makeable(base, steps, user, i);
    }
  }

  // ----- what stands in the way of a later or earlier step -----

  /** The steps were taken where their paths led. */
  ghost predicate Taken(base: Tree, steps: seq<Step>, r: seq<Step>, user: int) {
    r == Led(base, steps, user, |steps|) && Buildable(base, r, user, |r|)
  }

  lemma TakenAt(base: Tree, steps: seq<Step>, r: seq<Step>, user: int, i: nat)
    requires Taken(base, steps, r, user) && i < |steps|
    ensures Lookup(Build(base, r, i), user, steps[i].path) == Some(r[i].path)
    ensures r[i].made == steps[i].made && steps[i].path != []
  {
    LedAt(base, steps, user, |steps|, i);
    assert Makeable(base, r, user, i);
  }

  /** Two stages of the build agree on where a path leads, when it leads anywhere in both. */
  lemma WalksAgree(base: Tree, r: seq<Step>, user: int, i: nat, j: nat, s: Stand, rest: seq<Text>)
    requires Buildable(base, r, user, |r|) && i <= |r| && j <= |r|
    requires Walk(Build(base, r, i), user, s, rest).Some? && Walk(Build(base, r, j), user, s, rest).Some?
    ensures Walk(Build(base, r, i), user, s, rest) == Walk(Build(base, r, j), user, s, rest)
  {
    if i <= j {
      BuildGrows(base, r, user, i, j);
      WalkGrows(Build(base, r, i), Build(base, r, j), user, s, rest);
    } else {
      BuildGrows(base, r, user, j, i);
      WalkGrows(Build(base, r, j), Build(base, r, i), user, s, rest);
    }
  }

  /** The directory in which step i was taken. */
  lemma TakenIn(base: Tree, steps: seq<Step>, r: seq<Step>, user: int, i: nat) returns (s: Stand, last: Text)
    requires Taken(base, steps, r, user) && i < |steps|
    ensures Walk(Build(base, r, i), user, START, Parent(steps[i].path)) == Some(s)
    ensures last != DOTDOT && r[i].path == s.at + [last] && steps[i].path == Parent(steps[i].path) + [last]
  {
    TakenAt(base, steps, r, user, i);
    s := Walk(Build(base, r, i), user, START, Parent(steps[i].path)).value;
    last := steps[i].path[|steps[i].path| - 1];
  }

  /** Steps with one path cannot both be taken. */
  lemma OnePathBlocks(base: Tree, steps: seq<Step>, r: seq<Step>, user: int, i: nat, j: nat)
    requires r == Led(base, steps, user, |steps|) && i < j < |steps| && steps[i].path == steps[j].path
    ensures !Buildable(base, r, user, |r|)
  {
    if Buildable(base, r, user, |r|) {
      var s, last := TakenIn(base, steps, r, user, i);
      var u, same := TakenIn(base, steps, r, user, j);
      WalksAgree(base, r, user, i, j, START, Parent(steps[i].path));
      StepsDiffer(base, r, user, i, j);
    }
  }

  /** A step whose path goes on from another's is reached through what stands at the other's place. */
  lemma PassedThrough(base: Tree, steps: seq<Step>, r: seq<Step>, user: int, i: nat, j: nat)
    returns (s: Stand, last: Text, rest: seq<Text>)
    requires Taken(base, steps, r, user) && i < |steps| && j < |steps|
    requires steps[i].path < steps[j].path
    ensures Walk(Build(base, r, j), user, START, Parent(steps[i].path)) == Some(s)
    ensures r[i].path == s.at + [last] && last != DOTDOT && r[i].made == steps[i].made
    ensures Walk(Build(base, r, j), user, s, [last] + rest).Some?
  {
    var mine;
    mine, last := TakenIn(base, steps, r, user, i);
    TakenAt(base, steps, r, user, i);
    TakenAt(base, steps, r, user, j);
    var up := Parent(steps[i].path);
    rest := LegsOf(steps[i].path, steps[j].path, last);
    WalkSplit(Build(base, r, j), user, START, up, [last] + rest);
    s := Walk(Build(base, r, j), user, START, up).value;
    WalksAgree(base, r, user, i, j, START, up);
  }

  /** The way to a longer path goes by the parent and the last part of the shorter one. */
  lemma LegsOf(p: Path, q: Path, last: Text) returns (rest: seq<Text>)
    requires p < q && p == Parent(p) + [last]
    ensures Parent(q) == Parent(p) + ([last] + rest)
  {
    rest := Parent(q)[|p|..];
    assert Parent(q) == p + rest;
    ConcatAssociative(Parent(p), [last], rest);
  }

  /** What a lookup goes through is there, and is no file. */
  lemma WalkMeets(nodes: Tree, user: int, s: Stand, last: Text, rest: seq<Text>)
    requires last != DOTDOT && Walk(nodes, user, s, [last] + rest).Some?
    ensures s.at + [last] in nodes && !nodes[s.at + [last]].FileNode?
    ensures nodes[s.at + [last]].LinkNode? ==>
      s.links > 0
      && Walk(nodes, user, Through(s, nodes[s.at + [last]].target), KeepParts(Split(nodes[s.at + [last]].target, SLASH)) + rest).Some?
  {
    assert ([last] + rest)[0] == last && ([last] + rest)[1..] == rest;
  }

  /** A file made at a place was not gone through before or after. */
  lemma FilePlace(base: Tree, r: seq<Step>, user: int, m: nat, j: nat)
    requires Buildable(base, r, user, |r|) && m < |r| && j < |r| && m != j && r[m].made.FileNode?
    ensures r[m].path in Build(base, r, j) ==> Build(base, r, j)[r[m].path].FileNode?
  {
    if m < j { BuildMade(base, r, user, m, j); } else { LaterIsNew(base, r, user, j, m); }
  }

  lemma FileNotTaken(base: Tree, steps: seq<Step>, r: seq<Step>, user: int, i: nat, j: nat)
    requires |r| == |steps| && i < |steps| && j < |steps| && i != j && steps[i].made.FileNode? && steps[i].path < steps[j].path
    ensures !Taken(base, steps, r, user)
  {
    if Taken(base, steps, r, user) {
      var s, last, rest := PassedThrough(base, steps, r, user, i, j);
      WalkMeets(Build(base, r, j), user, s, last, rest);
      FilePlace(base, r, user, i, j);
    }
  }

  /** A directory still to be tightened is found again under its planned path. */
  lemma ChmodFinds(nodes: Tree, base: Tree, planned: seq<Step>, r: seq<Step>, user: int,
                   pending: seq<Pending>, index: seq<nat>, k: nat)
    requires Taken(base, planned, r, user) && PendingOk(pending, index, r, |r|) && k < |pending|
    requires Tightened(nodes, Build(base, r, |r|), pending, k + 1, user)
    ensures index[k] < |planned| && Lookup(nodes, user, planned[index[k]].path) == Some(pending[k].path)
  {
    var i := index[k];
    EarlyIsUntouched(nodes, base, r, user, pending, index, k);
    BuildGrows(base, r, user, i, i + 1);
    TakenAt(base, planned, r, user, i);
    FollowGrows(Build(base, r, i), nodes, user, planned[i].path);
  }

  /** A file keeps every path that goes on from its own from being made, in either order. */
  lemma FileBlocks(base: Tree, steps: seq<Step>, r: seq<Step>, user: int, i: nat, j: nat)
    requires r == Led(base, steps, user, |steps|) && i < |steps| && j < |steps|
    requires steps[i].made.FileNode? && steps[i].path < steps[j].path
    ensures !Buildable(base, r, user, |r|)
  {
    FileNotTaken(base, steps, r, user, i, j);
  }

  /** A link target of one ordinary part. */
  predicate OneName(target: Text) { Relative(target) && KeepParts(Split(target, SLASH)) == [target] && target != DOTDOT }

  /** Going through a link to such a name beside it meets what stands there. */
  lemma LinkMeets(nodes: Tree, user: int, s: Stand, last: Text, rest: seq<Text>, target: Text)
    requires last != DOTDOT && Walk(nodes, user, s, [last] + rest).Some? && OneName(target)
    ensures s.at + [last] in nodes
    ensures nodes[s.at + [last]].LinkNode? && nodes[s.at + [last]].target == target ==>
      s.at + [target] in nodes && !nodes[s.at + [target]].FileNode?
  {
    WalkMeets(nodes, user, s, last, rest);
    var n := nodes[s.at + [last]];
    if n.LinkNode? && n.target == target { WalkMeets(nodes, user, Through(s, target), target, rest); }
  }

  /** Beside a step that was taken, a sibling's place is beside its place. */
  lemma TakenBeside(base: Tree, steps: seq<Step>, r: seq<Step>, user: int, m: nat, j: nat, s: Stand, up: Path, name: Text)
    requires Taken(base, steps, r, user) && m < |steps| && j < |steps| && steps[m].path == up + [name]
    requires Walk(Build(base, r, j), user, START, up) == Some(s)
    ensures r[m].path == s.at + [name] && r[m].made == steps[m].made
  {
    var u, last := TakenIn(base, steps, r, user, m);
    TakenAt(base, steps, r, user, m);
    assert Parent(steps[m].path) == up;
    WalksAgree(base, r, user, m, j, START, up);
  }

  lemma LinkNotTaken(base: Tree, steps: seq<Step>, r: seq<Step>, user: int, i: nat, m: nat, j: nat)
    requires |r| == |steps| && i < |steps| && m < |steps| && j < |steps| && i != j && m != j
    requires steps[i].made.LinkNode? && OneName(steps[i].made.target) && steps[i].path < steps[j].path
    requires steps[m].made.FileNode? && steps[m].path == Parent(steps[i].path) + [steps[i].made.target]
    ensures !Taken(base, steps, r, user)
  {
    if Taken(base, steps, r, user) {
      var nodes, target := Build(base, r, j), steps[i].made.target;
      var s, last, rest := PassedThrough(base, steps, r, user, i, j);
      LinkMeets(nodes, user, s, last, rest, target);
      TakenBeside(base, steps, r, user, m, j, s, Parent(steps[i].path), target);
      FilePlace(base, r, user, m, j);
      if i < j { BuildMade(base, r, user, i, j); } else { LaterIsNew(base, r, user, j, i); }
    }
  }

  /** A link to the name of a planned file beside it does the same: whatever the order, it leads to no directory. */
  lemma LinkBlocks(base: Tree, steps: seq<Step>, r: seq<Step>, user: int, i: nat, m: nat, j: nat)
    requires r == Led(base, steps, user, |steps|) && i < |steps| && m < |steps| && j < |steps|
    requires steps[i].made.LinkNode? && OneName(steps[i].made.target) && steps[i].path < steps[j].path
    requires steps[m].made.FileNode? && steps[m].path == Parent(steps[i].path) + [steps[i].made.target]
    ensures !Buildable(base, r, user, |r|)
  {
    if steps[i].path != [] {
      assert |steps[m].path| == |steps[i].path|;
      LinkNotTaken(base, steps, r, user, i, m, j);
    } else {
      RootNotTaken(base, steps, r, user, i);
    }
  }

  lemma RootNotTaken(base: Tree, steps: seq<Step>, r: seq<Step>, user: int, i: nat)
    requires |r| == |steps| && i < |steps| && steps[i].path == []
    ensures !Taken(base, steps, r, user)
  {
    if Taken(base, steps, r, user) { TakenAt(base, steps, r, user, i); }
  }

  // ----- scanning -----

  /** Directory d can be opened and listed. */
  predicate Listable(nodes: Tree, user: int, d: Path) {
    d in nodes && nodes[d].DirNode? && MayRead(nodes[d], user) && Reachable(nodes, user, d)
  }

  /** A recursive scan from top, which passes over what it may not list, comes to p. */
  predicate Visible(nodes: Tree, user: int, top: Path, p: Path) {
    p in nodes && top < p && forall k | |top| <= k < |p| :: Listable(nodes, user, Above(p, k))
  }

  ghost predicate IsListing(nodes: Tree, user: int, top: Path, scan: seq<Path>) {
    && (forall p :: p in scan <==> Visible(nodes, user, top, p))
    && (forall i, j | 0 <= i < j < |scan| :: scan[i] != scan[j])
  }

  // ----- the file system -----

  class Disk {
    var nodes: Tree
    const user: int

    constructor (user: int, nodes: Tree)
      ensures this.user == user && this.nodes == nodes
    {
      this.user, this.nodes := user, nodes;
    }

    method Mkdir(p: Path, mode: nat) returns (ok: bool)
      modifies this
      ensures ok == Creatable(old(nodes), user, Follow(old(nodes), user, p))
      ensures nodes == if ok then old(nodes)[Follow(old(nodes), user, p) := DirNode(mode, user)] else old(nodes)
    {
      var at := Follow(nodes, user, p);
      ok := Creatable(nodes, user, at);
      if ok {
        nodes := nodes[at := DirNode(mode, user)];
      }
    }

    method Symlink(target: Text, p: Path) returns (ok: bool)
      modifies this
      ensures ok == Creatable(old(nodes), user, Follow(old(nodes), user, p))
      ensures nodes == if ok then old(nodes)[Follow(old(nodes), user, p) := LinkNode(user, target)] else old(nodes)
    {
      var at := Follow(nodes, user, p);
      ok := Creatable(nodes, user, at);
      if ok {
        nodes := nodes[at := LinkNode(user, target)];
      }
    }

    /** open(p, O_WRONLY | O_CREAT | O_EXCL | O_NOFOLLOW, mode); the descriptor is for the file at `at`. */
    method CreateExclusive(p: Path, mode: nat) returns (ok: bool, at: Path)
      modifies this
      ensures at == Follow(old(nodes), user, p) && ok == Creatable(old(nodes), user, at)
      ensures nodes == if ok then old(nodes)[at := FileNode(mode, user, [])] else old(nodes)
    {
      at := Follow(nodes, user, p);
      ok := Creatable(nodes, user, at);
      if ok {
        nodes := nodes[at := FileNode(mode, user, [])];
      }
    }

    /** write(2) on an open descriptor: some nonempty prefix of the data goes out. */
    method Write(p: Path, data: Text) returns (n: nat)
      requires p in nodes && nodes[p].FileNode? && data != []
      modifies this
      ensures 1 <= n <= |data|
      ensures nodes == old(nodes)[p := old(nodes)[p].(data := old(nodes)[p].data + data[..n])]
    {
      n :| 1 <= n <= |data|;
      nodes := nodes[p := nodes[p].(data := nodes[p].data + data[..n])];
    }

    method Fchmod(p: Path, mode: nat)
      requires p in nodes && nodes[p].FileNode?
      modifies this
      ensures nodes == old(nodes)[p := FileNode(mode, old(nodes)[p].uid, old(nodes)[p].data)]
    {
      nodes := nodes[p := FileNode(mode, nodes[p].uid, nodes[p].data)];
    }

    /** chmod(2) where the path leads to a directory or to nothing. */
    method Chmod(p: Path, mode: nat) returns (ok: bool)
      requires var at := Follow(nodes, user, p); at in nodes ==> nodes[at].DirNode?
      modifies this
      ensures var at := Follow(old(nodes), user, p);
        && ok == (Lookup(old(nodes), user, p).Some? && at in old(nodes) && Reachable(old(nodes), user, at)
                  && old(nodes)[at].uid == user)
        && nodes == if ok then old(nodes)[at := DirNode(mode, user)] else old(nodes)
    {
      var at := Follow(nodes, user, p);
      ok := Lookup(nodes, user, p).Some? && at in nodes && Reachable(nodes, user, at) && nodes[at].uid == user;
      if ok {
        nodes := nodes[at := DirNode(mode, user)];
      }
    }

    /** rglob("*") under top: every path that scanning the readable directories shows, once each. */
    method Rglob(top: Path) returns (scan: seq<Path>)
      ensures IsListing(nodes, user, top, scan)
    {
      scan := [];
      var rest := set p | p in nodes && Visible(nodes, user, top, p);
      ghost var all := rest;
      while rest != {}
        invariant forall p :: p in all <==> p in scan || p in rest
        invariant forall p :: !(p in scan && p in rest)
        invariant forall i, j | 0 <= i < j < |scan| :: scan[i] != scan[j]
        decreases |rest|
      {
        var p :| p in rest;
        scan := scan + [p];
        rest := rest - {p};
      }
    }

    /** read(2) at an offset: nothing only at the end, otherwise up to `most` bytes. */
    method Read(p: Path, offset: nat, most: nat) returns (chunk: Text)
      requires p in nodes && nodes[p].FileNode? && offset <= |nodes[p].data| && most > 0
      ensures offset + |chunk| <= |nodes[p].data| && |chunk| <= most
      ensures chunk == nodes[p].data[offset..offset + |chunk|]
      ensures chunk == [] <==> offset == |nodes[p].data|
    {
      var data := nodes[p].data;
      if offset == |data| {
        return [];
      }
      var n: nat :| 1 <= n <= most && offset + n <= |data|;
      chunk := data[offset..offset + n];
    }
  }
}
