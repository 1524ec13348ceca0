/** A plan, a host and a disk that meet everything StageStable asks (scripts/claude_host_artifacts.py). */
module StageWitness {
  import opened Texts
  import opened Wrappers
  import opened PathParts
  import opened ArtifactInventory
  import opened ArtifactPlan
  import opened FileSystem
  import opened Materialize
  import opened ArtifactCommands
  import opened RuntimeNames
  import opened RuntimePlan
  import opened RuntimeContents
  import opened RuntimeWritable
  import opened RuntimeWitness
  import opened StableStage

  lemma HeldIsReadable(entries: seq<Entry>)
    ensures Readable(entries, HELD)
  {
    forall e | e in entries ensures ItemOf(e, HELD).Some? { HeldCopies(e); }
  }

  lemma HeldPlan(g: Gathered)
    requires g.bwrapSha256 == []
    ensures MakePlan(g, HELD).Some?
  {
    HeldIsReadable(g.runtime);
    HeldIsReadable(VendorEntries(g.vendor));
  }

  lemma BareIsFree(nodes: Tree, user: int, p: Path)
    requires nodes == map[[] := DirNode(PRIVATE_DIR, user)] && Ready(nodes, user, p)
    requires |p| == 1 && PlainParts(p) && DOTDOT !in p && Above(p, 0) == []
    ensures FileTree(nodes) && Free(nodes, user, p)
  {
    assert Parent(p) == [];
  }

  lemma BareDiskIsFree(user: int)
    ensures FileTree(BareDisk(user)) && Free(BareDisk(user), user, STAGED)
  {
    BareDiskIsReady(user);
    StagedIsOneName();
    BareIsFree(BareDisk(user), user, STAGED);
  }

  /** Such a plan exists: StageStable stages it completely on a bare disk, for every user. */
  lemma SomePlanIsStaged(user: int) returns (g: Gathered, p: Plan)
    ensures OwnPlan(TheHost([]), AnyWord(), THE_HELPERS, g, HELD, p)
    ensures Unobstructed(TheHost([]), THE_HELPERS) && THE_HELPERS.Plain() && Sized(g, THE_HELPERS)
    ensures Stable(StagingEntries(p), (i: nat) => HELD, HELD)
    ensures FileTree(BareDisk(user)) && Free(BareDisk(user), user, STAGED)
  {
    var r := SomePlanIsWritten(user);
    g := Gathered(r, [], [], [], [], [], []);
    HeldPlan(g);
    p := MakePlan(g, HELD).value;
    BareDiskIsFree(user);
  }
}
