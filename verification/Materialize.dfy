/** Writing a plan into a new private tree (scripts/claude_host_artifacts.py). */
module Materialize {
  import opened Texts
  import opened Wrappers
  import opened PathParts
  import opened ArtifactInventory
  import opened FileSystem

  const PRIVATE_DIR := 448   // 0o700
  const PRIVATE_FILE := 384  // 0o600

  predicate NameOk(name: Text) {
    name == HERE || (Relative(name) && HERE !in Parts(name) && DOTDOT !in Parts(name))
  }

  /** destination / name; "." has no parts. */
  function Target(dest: Path, e: Entry): Path { dest + Parts(e.name) }

  /** What is copied for an entry when the host is as h has it; links and directories need nothing. */
  function Copy(e: Entry, h: Host): Option<Text> {
    match e.body
    case File(source) => EntryBytes(source, h)
    case _ => Some([])
  }

  /** The node as first made: directories stay private until the end. */
  function Made(e: Entry, h: Host, user: int): Node {
    match e.body
    case Directory => DirNode(PRIVATE_DIR, user)
    case Link(target) => LinkNode(user, target)
    case File(_) => FileNode(e.mode, user, Copy(e, h).GetOr([]))
  }

  /** The plan as creations; `when(i)` is the host at the moment entry i is copied. */
  function Steps(entries: seq<Entry>, when: nat -> Host, dest: Path, user: int): (s: seq<Step>)
    ensures |s| == |entries|
    ensures forall i | 0 <= i < |s| :: s[i] == StepOf(entries[i], when(i), dest, user)
    ensures OwnedBy(s, user)
  {
    var s := seq(|entries|, i requires 0 <= i < |entries| => StepOf(entries[i], when(i), dest, user));
    assert forall i | 0 <= i < |s| :: s[i] == StepOf(entries[i], when(i), dest, user);
    s
  }

  /** The creations at the places to which their paths lead when each is taken. */
  function Placed(base: Tree, entries: seq<Entry>, when: nat -> Host, dest: Path, user: int): (s: seq<Step>)
    ensures |s| == |entries| && OwnedBy(s, user)
  {
    Led(base, Steps(entries, when, dest, user), user, |entries|)
  }

  function StepOf(e: Entry, h: Host, dest: Path, user: int): (s: Step)
    ensures s.made.uid == user && (s.made.DirNode? <==> e.body.Directory?)
  {
    Step(Target(dest, e), Made(e, h, user), e.mode)
  }

  predicate Admissible(e: Entry, h: Host) { NameOk(e.name) && Copy(e, h).Some? }

  predicate AdmissibleAt(entries: seq<Entry>, when: nat -> Host, i: nat)
    requires i < |entries|
  {
    Admissible(entries[i], when(i))
  }

  predicate AllAdmissible(entries: seq<Entry>, when: nat -> Host, n: nat)
    requires n <= |entries|
  {
    forall i | 0 <= i < n :: AdmissibleAt(entries, when, i)
  }

  /** A new file written out in as many writes as it takes. */
  method WriteFile(disk: Disk, p: Path, data: Option<Text>, mode: nat) returns (ok: bool)
    modifies disk
    ensures var at := Follow(old(disk.nodes), disk.user, p);
      && ok == (Creatable(old(disk.nodes), disk.user, at) && data.Some?)
      && (ok ==> disk.nodes == old(disk.nodes)[at := FileNode(mode, disk.user, data.value)])
    ensures Extends(old(disk.nodes), disk.nodes)
  {
    var at;
    ok, at := disk.CreateExclusive(p, PRIVATE_FILE);
    if !ok || data.None? {
      return false;
    }
    var view := data.value;
    ghost var start := old(disk.nodes);
    while view != []
      invariant |view| <= |data.value| && view == data.value[|data.value| - |view|..]
      invariant disk.nodes == start[at := FileNode(PRIVATE_FILE, disk.user, data.value[..|data.value| - |view|])]
      decreases |view|
    {
      var n := disk.Write(at, view);
      assert data.value[..|data.value| - |view|] + view[..n] == data.value[..|data.value| - |view| + n];
      view := view[n..];
    }
    assert data.value[..|data.value|] == data.value;
    disk.Fchmod(at, mode);
  }

  /** materialize(entries, destination): it stops at the first refusal, and tightens directories last. */
  method Materialize(disk: Disk, entries: seq<Entry>, when: nat -> Host, dest: Path) returns (ok: bool)
    modifies disk
    ensures ok == (AllAdmissible(entries, when, |entries|)
                   && Buildable(old(disk.nodes), Placed(old(disk.nodes), entries, when, dest, disk.user), disk.user, |entries|))
    ensures ok ==> Holds(disk.nodes, old(disk.nodes), Placed(old(disk.nodes), entries, when, dest, disk.user))
    ensures Extends(old(disk.nodes), disk.nodes)
  {
    var directories;
    ghost var base, placed, index := disk.nodes, [], [];
    ok, directories, placed, index := PlaceAll(disk, entries, when, dest);
    if ok {
      Tighten(disk, directories, Steps(entries, when, dest, disk.user), Placed(base, entries, when, dest, disk.user),
              base, placed, index);
    }
  }

  /** The directories as they were planned; `index` says which steps they are. */
  ghost predicate PlannedOk(directories: seq<Pending>, index: seq<nat>, planned: seq<Step>) {
    && |directories| == |index|
    && forall m | 0 <= m < |index| ::
         index[m] < |planned| && directories[m] == Pending(planned[index[m]].path, planned[index[m]].mode)
  }

  /** The first i entries have been created. */
  ghost predicate Progress(nodes: Tree, base: Tree, entries: seq<Entry>, when: nat -> Host, steps: seq<Step>, user: int, i: nat)
    requires i <= |entries| == |steps|
  {
    && nodes == Build(base, steps, i) && Extends(base, nodes)
    && AllAdmissible(entries, when, i) && Buildable(base, steps, user, i)
  }

  /** Create the planned nodes in order, remembering the directories. */
  method PlaceAll(disk: Disk, entries: seq<Entry>, when: nat -> Host, dest: Path)
    returns (ok: bool, directories: seq<Pending>, ghost placed: seq<Pending>, ghost index: seq<nat>)
    modifies disk
    ensures var steps := Placed(old(disk.nodes), entries, when, dest, disk.user);
      && ok == (AllAdmissible(entries, when, |entries|) && Buildable(old(disk.nodes), steps, disk.user, |entries|))
      && (ok ==> disk.nodes == Build(old(disk.nodes), steps, |steps|) && PendingOk(placed, index, steps, |steps|)
                 && PlannedOk(directories, index, Steps(entries, when, dest, disk.user)))
    ensures Extends(old(disk.nodes), disk.nodes)
  {
    directories, placed, index := [], [], [];
    ghost var base, planned := disk.nodes, Steps(entries, when, dest, disk.user);
    ghost var steps := Placed(base, entries, when, dest, disk.user);
    for i := 0 to |entries|
      invariant Progress(disk.nodes, base, entries, when, steps, disk.user, i)
      invariant PendingOk(placed, index, steps, i) && PlannedOk(directories, index, planned)
    {
      ok := PlaceNext(disk, entries, when, dest, i, base, planned, steps);
      if !ok {
        return;
      }
      directories, placed, index := Remember(entries[i], dest, directories, placed, index, planned, steps, i);
    }
    ok := true;
  }

  /** directories.append((target, entry.mode)) */
  method Remember(e: Entry, dest: Path, directories: seq<Pending>, ghost placed: seq<Pending>, ghost index: seq<nat>,
                  ghost planned: seq<Step>, ghost steps: seq<Step>, i: nat)
    returns (more: seq<Pending>, ghost morePlaced: seq<Pending>, ghost moreIndex: seq<nat>)
    requires i < |steps| == |planned| && PendingOk(placed, index, steps, i) && PlannedOk(directories, index, planned)
    requires planned[i].path == Target(dest, e) && planned[i].mode == e.mode && steps[i].mode == e.mode
    requires steps[i].made.DirNode? <==> e.body.Directory?
    ensures PendingOk(morePlaced, moreIndex, steps, i + 1) && PlannedOk(more, moreIndex, planned)
  {
    PendingMore(placed, index, steps, i);
    if e.body.Directory? {
      more, moreIndex := directories + [Pending(Target(dest, e), e.mode)], index + [i];
      morePlaced := placed + [Pending(steps[i].path, steps[i].mode)];
    } else {
      more, morePlaced, moreIndex := directories, placed, index;
    }
  }

  lemma OneMore(entries: seq<Entry>, when: nat -> Host, base: Tree, steps: seq<Step>, user: int, i: nat)
    requires i < |entries| == |steps| && AllAdmissible(entries, when, i) && Buildable(base, steps, user, i)
    ensures AdmissibleAt(entries, when, i) && Makeable(base, steps, user, i) ==>
      AllAdmissible(entries, when, i + 1) && Buildable(base, steps, user, i + 1)
    ensures !(AdmissibleAt(entries, when, i) && Makeable(base, steps, user, i)) ==>
      !(AllAdmissible(entries, when, |entries|) && Buildable(base, steps, user, |entries|))
  {}

  /** One iteration: the name is checked, and the node created where its path leads by now. */
  method PlaceNext(disk: Disk, entries: seq<Entry>, when: nat -> Host, dest: Path, i: nat,
                   ghost base: Tree, ghost planned: seq<Step>, ghost steps: seq<Step>)
    returns (ok: bool)
    requires i < |entries| == |steps| && planned == Steps(entries, when, dest, disk.user)
    requires steps == Led(base, planned, disk.user, |entries|)
    requires Progress(disk.nodes, base, entries, when, steps, disk.user, i)
    modifies disk
    ensures ok ==> Progress(disk.nodes, base, entries, when, steps, disk.user, i + 1)
    ensures !ok ==> !(AllAdmissible(entries, when, |entries|) && Buildable(base, steps, disk.user, |entries|))
    ensures Extends(base, disk.nodes)
  {
    LedAt(base, planned, disk.user, |entries|, i);
    OneMore(entries, when, base, steps, disk.user, i);
    ok := PlaceOne(disk, entries, when, dest, i, base, planned, steps);
  }

  /** The check and the creation of one entry. */
  method PlaceOne(disk: Disk, entries: seq<Entry>, when: nat -> Host, dest: Path, i: nat,
                  ghost base: Tree, ghost planned: seq<Step>, ghost steps: seq<Step>)
    returns (ok: bool)
    requires i < |entries| == |steps| && planned == Steps(entries, when, dest, disk.user)
    requires LedTo(base, steps, planned[i], disk.user, i) && disk.nodes == Build(base, steps, i)
    modifies disk
    ensures ok == (AdmissibleAt(entries, when, i) && Makeable(base, steps, disk.user, i))
    ensures ok ==> disk.nodes == Build(base, steps, i + 1)
    ensures Extends(old(disk.nodes), disk.nodes)
  {
    assert planned[i] == StepOf(entries[i], when(i), dest, disk.user);
    if !NameOk(entries[i].name) {
      return false;
    }
    ok := Place(disk, entries[i], when(i), dest);
  }

  /** Create one planned node. */
  method Place(disk: Disk, e: Entry, h: Host, dest: Path) returns (ok: bool)
    modifies disk
    ensures var at := Follow(old(disk.nodes), disk.user, Target(dest, e));
      && ok == (Creatable(old(disk.nodes), disk.user, at) && Copy(e, h).Some?)
      && (ok ==> disk.nodes == old(disk.nodes)[at := Made(e, h, disk.user)])
    ensures Extends(old(disk.nodes), disk.nodes)
  {
    var target := Target(dest, e);
    match e.body {
      case Directory => ok := disk.Mkdir(target, PRIVATE_DIR);
      case Link(to) => ok := disk.Symlink(to, target);
      case File(_) => ok := WriteFile(disk, target, Copy(e, h), e.mode);
    }
  }

  /** Give the directories their planned modes, last made first. */
  method Tighten(disk: Disk, directories: seq<Pending>, ghost planned: seq<Step>, ghost steps: seq<Step>, ghost base: Tree,
                 ghost placed: seq<Pending>, ghost index: seq<nat>)
    requires Taken(base, planned, steps, disk.user) && OwnedBy(steps, disk.user)
    requires disk.nodes == Build(base, steps, |steps|)
    requires PendingOk(placed, index, steps, |steps|) && PlannedOk(directories, index, planned)
    modifies disk
    ensures Holds(disk.nodes, base, steps)
  {
    ghost var built := disk.nodes;
    var k: nat := |directories|;
    while k > 0
      invariant k <= |directories| && Tightened(disk.nodes, built, placed, k, disk.user)
    {
      k := k - 1;
      ReverseChmodReaches(disk.nodes, base, steps, disk.user, placed, index, k);
      ChmodFinds(disk.nodes, base, planned, steps, disk.user, placed, index, k);
      forall m | k < m < |placed| ensures placed[m].path != placed[k].path {
        StepsDiffer(base, steps, disk.user, index[k], index[m]);
      }
      TightenOne(disk.nodes, built, placed, k, disk.user);
      assert directories[k].path == planned[index[k]].path && directories[k].mode == placed[k].mode;
      var done := disk.Chmod(directories[k].path, directories[k].mode);
      assert done;
    }
    TightenedHolds(disk.nodes, base, steps, disk.user, placed, index);
  }

  // ----- plans that can always be written -----

  /** A file name: not empty, without a slash, and neither "." nor "..". */
  predicate OrdinaryName(t: Text) { IsPart(t) && t != DOTDOT && SLASH !in t }

  predicate Canonical(name: Text) {
    Relative(name) && Render(Parts(name)) == name && DOTDOT !in Parts(name)
  }

  predicate IsChild(child: seq<Text>, parent: seq<Text>) {
    |child| == |parent| + 1 && parent == Above(child, |parent|)
  }

  predicate HasPlannedParent(entries: seq<Entry>, i: nat)
    requires i < |entries|
  {
    exists j | 0 <= j < i :: entries[j].body.Directory? && IsChild(Parts(entries[i].name), Parts(entries[j].name))
  }

  /** The root directory first, every other name new and under a directory planned before it. */
  predicate WellFormed(entries: seq<Entry>) {
    && entries != [] && entries[0].name == HERE && entries[0].body.Directory?
    && (forall i | 0 <= i < |entries| :: Canonical(entries[i].name))
    && (forall i, j | 0 <= i < j < |entries| :: entries[i].name != entries[j].name)
    && (forall i | 1 <= i < |entries| :: HasPlannedParent(entries, i))
  }

  /** The same for names that are admitted without being canonical: no two of them lead to one place. */
  predicate Placeable(entries: seq<Entry>) {
    && entries != [] && entries[0].name == HERE && entries[0].body.Directory?
    && (forall i | 0 <= i < |entries| :: NameOk(entries[i].name))
    && (forall i, j | 0 <= i < j < |entries| :: Parts(entries[i].name) != Parts(entries[j].name))
    && (forall i | 1 <= i < |entries| :: HasPlannedParent(entries, i))
  }

  lemma WellFormedIsPlaceable(entries: seq<Entry>)
    requires WellFormed(entries)
    ensures Placeable(entries)
  {
    forall i | 0 <= i < |entries| ensures NameOk(entries[i].name) {
      assert Canonical(entries[i].name);
      PartsPlain(entries[i].name);
    }
    forall i, j | 0 <= i < j < |entries| ensures Parts(entries[i].name) != Parts(entries[j].name) {
      assert Canonical(entries[i].name) && Canonical(entries[j].name);
    }
  }

  lemma HereHasNoParts()
    ensures Parts(HERE) == []
  {
    SplitOfClean(HERE, SLASH);
    assert KeepParts([HERE]) == [];
  }

  lemma ChildBelow(dest: Path, child: seq<Text>, parent: seq<Text>)
    requires IsChild(child, parent)
    ensures |dest| < |dest + child| && dest <= dest + child
    ensures dest + parent == Above(dest + child, |dest + child| - 1)
  {}

  lemma ParentStep(steps: seq<Step>, dest: Path, user: int, i: nat, j: nat, child: seq<Text>, parent: seq<Text>)
    requires j < i < |steps| && IsChild(child, parent) && OpenDirectory(steps[j], user)
    requires steps[i].path == dest + child && steps[j].path == dest + parent
    ensures HasParent(steps, dest, user, i)
  {
    ChildBelow(dest, child, parent);
  }

  /** The directory planned above entry i. */
  lemma PlannedParent(entries: seq<Entry>, i: nat) returns (j: nat, child: seq<Text>, parent: seq<Text>)
    requires i < |entries| && HasPlannedParent(entries, i)
    ensures j < i && entries[j].body.Directory? && IsChild(child, parent)
    ensures child == Parts(entries[i].name) && parent == Parts(entries[j].name)
  {
    j :| 0 <= j < i && entries[j].body.Directory? && IsChild(Parts(entries[i].name), Parts(entries[j].name));
    child, parent := Parts(entries[i].name), Parts(entries[j].name);
  }

  lemma StepParent(entries: seq<Entry>, when: nat -> Host, dest: Path, user: int, i: nat)
    requires i < |entries| && HasPlannedParent(entries, i)
    ensures HasParent(Steps(entries, when, dest, user), dest, user, i)
  {
    var j, child, parent := PlannedParent(entries, i);
    StepAt(entries, when, dest, user, i, child);
    StepAt(entries, when, dest, user, j, parent);
    ParentStep(Steps(entries, when, dest, user), dest, user, i, j, child, parent);
  }

  lemma StepAt(entries: seq<Entry>, when: nat -> Host, dest: Path, user: int, i: nat, parts: seq<Text>)
    requires i < |entries| && parts == Parts(entries[i].name)
    ensures var s := Steps(entries, when, dest, user)[i];
      s.path == dest + parts && (entries[i].body.Directory? ==> OpenDirectory(s, user))
  {
    StepTakes(entries, when, dest, user, i);
  }

  lemma StepTakes(entries: seq<Entry>, when: nat -> Host, dest: Path, user: int, i: nat)
    requires i < |entries|
    ensures var s := Steps(entries, when, dest, user)[i];
      s.path == Target(dest, entries[i]) && (entries[i].body.Directory? ==> s.made == DirNode(PRIVATE_DIR, user))
  {}

  lemma SameTarget(dest: Path, a: Entry, b: Entry)
    requires Target(dest, a) == Target(dest, b)
    ensures Parts(a.name) == Parts(b.name)
  {
    assert Target(dest, a)[|dest|..] == Parts(a.name) && Target(dest, b)[|dest|..] == Parts(b.name);
  }

  /** A placeable plan goes into a free place whatever its modes, when the sources can be read. */
  lemma PlaceableCompletes(base: Tree, entries: seq<Entry>, when: nat -> Host, dest: Path, user: int)
    requires Placeable(entries) && Ready(base, user, dest)
    requires forall i | 0 <= i < |entries| :: Copy(entries[i], when(i)).Some?
    ensures AllAdmissible(entries, when, |entries|)
    ensures Placed(base, entries, when, dest, user) == Steps(entries, when, dest, user)
    ensures Buildable(base, Placed(base, entries, when, dest, user), user, |entries|)
  {
    var steps := Steps(entries, when, dest, user);
    PlaceableParentsFirst(entries, when, dest, user);
    ParentsFirstBuilds(base, steps, user, dest, |entries|);
    LedStraight(base, steps, user, |entries|);
    assert steps[..|entries|] == steps;
  }

  /** So does a well-formed one. */
  lemma WellFormedCompletes(base: Tree, entries: seq<Entry>, when: nat -> Host, dest: Path, user: int)
    requires WellFormed(entries) && Ready(base, user, dest)
    requires forall i | 0 <= i < |entries| :: Copy(entries[i], when(i)).Some?
    ensures AllAdmissible(entries, when, |entries|)
    ensures Placed(base, entries, when, dest, user) == Steps(entries, when, dest, user)
    ensures Buildable(base, Placed(base, entries, when, dest, user), user, |entries|)
  {
    WellFormedIsPlaceable(entries);
    PlaceableCompletes(base, entries, when, dest, user);
  }

  lemma PlaceableParentsFirst(entries: seq<Entry>, when: nat -> Host, dest: Path, user: int)
    requires Placeable(entries) && DOTDOT !in dest
    ensures ParentsFirst(Steps(entries, when, dest, user), dest, user)
  {
    var s := Steps(entries, when, dest, user);
    HereHasNoParts();
    StepTakes(entries, when, dest, user, 0);
    assert s[0].path == dest;
    forall i | 1 <= i < |s| ensures HasParent(s, dest, user, i) {
      assert HasPlannedParent(entries, i);
      StepParent(entries, when, dest, user, i);
    }
    forall i | 0 <= i < |s| ensures DOTDOT !in s[i].path {
      StepTakes(entries, when, dest, user, i);
      assert NameOk(entries[i].name);
    }
    forall i, j | 0 <= i < j < |s| ensures s[i].path != s[j].path {
      if Target(dest, entries[i]) == Target(dest, entries[j]) { SameTarget(dest, entries[i], entries[j]); }
    }
  }

  // ----- plans that can be written nowhere -----

  predicate ProperlyAbove(a: seq<Text>, b: seq<Text>) {
    |a| < |b| && a == Above(b, |a|)
  }

  lemma StepPath(entries: seq<Entry>, when: nat -> Host, dest: Path, user: int, i: nat)
    requires i < |entries|
    ensures var s := Steps(entries, when, dest, user)[i];
      && s.path == dest + Parts(entries[i].name) && (entries[i].body.File? ==> s.made.FileNode?)
      && (entries[i].body.Link? ==> s.made == LinkNode(user, entries[i].body.target))
  {
    assert Steps(entries, when, dest, user)[i] == StepOf(entries[i], when(i), dest, user);
  }

  /** Two entries that lead to one place cannot both be created. */
  lemma OnePlaceBlocks(base: Tree, entries: seq<Entry>, when: nat -> Host, dest: Path, user: int, i: nat, j: nat)
    requires i < j < |entries| && Parts(entries[i].name) == Parts(entries[j].name)
    ensures !Buildable(base, Placed(base, entries, when, dest, user), user, |entries|)
  {
    StepPath(entries, when, dest, user, i);
    StepPath(entries, when, dest, user, j);
    OnePathBlocks(base, Steps(entries, when, dest, user), Placed(base, entries, when, dest, user), user, i, j);
  }

  lemma BelowTarget(dest: Path, a: seq<Text>, b: seq<Text>)
    requires ProperlyAbove(a, b)
    ensures dest + a < dest + b
  {
    assert (dest + b)[..|dest + a|] == dest + a;
  }

  /** A file above another entry keeps the two from being created, in either order. */
  lemma FileAboveBlocks(base: Tree, entries: seq<Entry>, when: nat -> Host, dest: Path, user: int, i: nat, j: nat)
    requires i < |entries| && j < |entries| && entries[i].body.File?
    requires ProperlyAbove(Parts(entries[i].name), Parts(entries[j].name))
    ensures !Buildable(base, Placed(base, entries, when, dest, user), user, |entries|)
  {
    StepPath(entries, when, dest, user, i);
    StepPath(entries, when, dest, user, j);
    BelowTarget(dest, Parts(entries[i].name), Parts(entries[j].name));
    FileBlocks(base, Steps(entries, when, dest, user), Placed(base, entries, when, dest, user), user, i, j);
  }

  /** A link to the ordinary name of a file planned beside it. */
  ghost predicate LinkToFile(entries: seq<Entry>, e: Entry, x: Entry) {
    && e.body.Link? && OrdinaryName(e.body.target) && Parts(e.name) != []
    && x in entries && x.body.File? && Parts(x.name) == Parent(Parts(e.name)) + [e.body.target]
  }

  ghost predicate LinksToFiles(entries: seq<Entry>) {
    forall e | e in entries && e.body.Link? :: exists x :: LinkToFile(entries, e, x)
  }

  lemma OrdinaryIsOneName(target: Text)
    requires OrdinaryName(target)
    ensures OneName(target)
  {
    SplitOfClean(target, SLASH);
    assert KeepParts([target]) == [target];
  }

  lemma BesideTarget(dest: Path, parts: seq<Text>, last: Text)
    requires parts != []
    ensures dest + (Parent(parts) + [last]) == Parent(dest + parts) + [last]
  {
    assert Parent(dest + parts) == dest + Parent(parts);
    ConcatAssociative(dest, Parent(parts), [last]);
  }

  /** So does a link above another entry when it leads to a planned file: there is no directory to go through. */
  lemma LinkAboveBlocks(base: Tree, entries: seq<Entry>, when: nat -> Host, dest: Path, user: int, i: nat, m: nat, j: nat)
    requires i < |entries| && m < |entries| && j < |entries| && LinkToFile(entries, entries[i], entries[m])
    requires ProperlyAbove(Parts(entries[i].name), Parts(entries[j].name))
    ensures !Buildable(base, Placed(base, entries, when, dest, user), user, |entries|)
  {
    StepPath(entries, when, dest, user, i);
    StepPath(entries, when, dest, user, m);
    StepPath(entries, when, dest, user, j);
    BelowTarget(dest, Parts(entries[i].name), Parts(entries[j].name));
    BesideTarget(dest, Parts(entries[i].name), entries[i].body.target);
    OrdinaryIsOneName(entries[i].body.target);
    LinkBlocks(base, Steps(entries, when, dest, user), Placed(base, entries, when, dest, user), user, i, m, j);
  }

  /** With every link to a planned file beside it, nothing but a directory may stand above an entry. */
  lemma OtherAboveBlocks(base: Tree, entries: seq<Entry>, when: nat -> Host, dest: Path, user: int, i: nat, j: nat)
    requires i < |entries| && j < |entries| && !entries[i].body.Directory? && LinksToFiles(entries)
    requires ProperlyAbove(Parts(entries[i].name), Parts(entries[j].name))
    ensures !Buildable(base, Placed(base, entries, when, dest, user), user, |entries|)
  {
    if entries[i].body.File? {
      FileAboveBlocks(base, entries, when, dest, user, i, j);
    } else {
      assert entries[i] in entries;
      var x :| LinkToFile(entries, entries[i], x);
      var m :| 0 <= m < |entries| && entries[m] == x;
      LinkAboveBlocks(base, entries, when, dest, user, i, m, j);
    }
  }
}
