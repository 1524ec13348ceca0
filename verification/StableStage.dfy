/** With sources that hold still, staging the program's own plan succeeds (scripts/claude_host_artifacts.py). */
module StableStage {
  import opened Texts
  import opened Wrappers
  import opened PathParts
  import opened ArtifactInventory
  import opened ArtifactPlan
  import opened FileSystem
  import opened Materialize
  import opened ArtifactTree
  import opened ArtifactStage
  import opened ArtifactCommands
  import opened PlanShape
  import opened RuntimeShape
  import opened RuntimeNames
  import opened RuntimePlan
  import opened RuntimeContents
  import opened RuntimeWritable

  /** The modes this program plans let the owner read back what it wrote. */
  predicate ReadableMode(e: Entry) {
    match e.body
    case Directory => OwnerMayRead(e.mode) && OwnerMaySearch(e.mode)
    case Link(_) => e.mode == MODE_777
    case File(_) => OwnerMayRead(e.mode)
  }

  predicate ReadableModes(entries: seq<Entry>) {
    forall i | 0 <= i < |entries| :: ReadableMode(entries[i])
  }

  /** Nothing in the plan has changed when its turn comes to be copied. */
  predicate Stable(entries: seq<Entry>, when: nat -> Host, h: Host) {
    forall i | 0 <= i < |entries| :: Copy(entries[i], when(i)) == Copy(entries[i], h)
  }

  // ----- links -----

  /** Such a link resolves inside the tree, in one step. */
  lemma LinkStays(v: View, p: Path, target: Text, q: Path)
    requires OrdinaryName(target) && p != [] && v.top <= Parent(p) && q == Parent(p) + [target]
    requires q in v.nodes && !v.nodes[q].LinkNode?
    ensures Stays(v, p, target)
  {
    SplitOfClean(target, SLASH);
    assert KeepParts([target]) == [target] && Relative(target);
    assert [target][1..] == [] && Parent(p) + [target] == q;
    assert Resolve(v.nodes, v.user, q, [], v.hops) == Some(q);
  }

  lemma PlacesBeside(v: View, e: Entry, x: Entry, last: Text)
    requires Parts(e.name) != [] && Parts(x.name) == Parent(Parts(e.name)) + [last]
    ensures Target(v.top, e) != [] && v.top <= Parent(Target(v.top, e))
    ensures Target(v.top, x) == Parent(Target(v.top, e)) + [last]
  {
    assert Parent(v.top + Parts(e.name)) == v.top + Parent(Parts(e.name));
    assert v.top + (Parent(Parts(e.name)) + [last]) == v.top + Parent(Parts(e.name)) + [last];
  }

  /** In a written tree every such link stays inside. */
  lemma LinksStay(s: Staging, v: View, i: nat)
    requires Written(s, v) && LinksToFiles(s.entries) && i < |s.entries| && s.entries[i].body.Link?
    ensures Stays(v, Target(v.top, s.entries[i]), s.entries[i].body.target)
  {
    var e := s.entries[i];
    var x := LedTo(s.entries, e);
    NoLinkThere(s, v, x);
    PlacesBeside(v, e, x, e.body.target);
    LinkStays(v, Target(v.top, e), e.body.target, Target(v.top, x));
  }

  lemma LedTo(entries: seq<Entry>, e: Entry) returns (x: Entry)
    requires LinksToFiles(entries) && e in entries && e.body.Link?
    ensures LinkToFile(entries, e, x)
  {
    x :| LinkToFile(entries, e, x);
  }

  /** What was planned as no link is none. */
  lemma NoLinkThere(s: Staging, v: View, x: Entry)
    requires Written(s, v) && x in s.entries && !x.body.Link?
    ensures Target(v.top, x) in v.nodes && !v.nodes[Target(v.top, x)].LinkNode?
  {
    var j :| 0 <= j < |s.entries| && s.entries[j] == x;
    NodeAt(s, v, j);
  }

  lemma LinksUnder(prefix: Text, entries: seq<Entry>)
    requires IsPart(prefix) && SLASH !in prefix && LinksToFiles(entries) && forall e | e in entries :: Relative(e.name)
    ensures LinksToFiles(PrefixedEntries(prefix, entries))
  {
    var r := PrefixedEntries(prefix, entries);
    forall e | e in r && e.body.Link? ensures exists x :: LinkToFile(r, e, x) {
      var i :| 0 <= i < |r| && r[i] == e;
      assert entries[i] in entries;
      var y :| LinkToFile(entries, entries[i], y);
      var j :| 0 <= j < |entries| && entries[j] == y;
      PartsUnder(prefix, entries[i].name);
      PartsUnder(prefix, y.name);
      OneDeeper(prefix, Parts(entries[i].name), entries[i].body.target);
      assert LinkToFile(r, e, r[j]);
    }
  }

  lemma OneDeeper(prefix: Text, parts: seq<Text>, last: Text)
    requires parts != []
    ensures [prefix] + (Parent(parts) + [last]) == Parent([prefix] + parts) + [last]
  {
    assert Parent([prefix] + parts) == [prefix] + Parent(parts);
  }

  lemma LinksJoined(a: seq<Entry>, b: seq<Entry>)
    requires LinksToFiles(a) && LinksToFiles(b)
    ensures LinksToFiles(a + b)
  {
    forall e | e in a + b && e.body.Link? ensures exists x :: LinkToFile(a + b, e, x) {
      if e in a {
        var x :| LinkToFile(a, e, x);
        assert LinkToFile(a + b, e, x);
      } else {
        var x :| LinkToFile(b, e, x);
        assert LinkToFile(a + b, e, x);
      }
    }
  }

  // ----- sizes -----

  /** Planned bytes are within the bound of a later read; the one large member may be under this name. */
  predicate Within(entries: seq<Entry>, large: Text) {
    forall e | e in entries && e.body.File? && e.body.source.Data? ::
      |e.body.source.bytes| <= FILE_BYTES || (e.name == large && |e.body.source.bytes| <= MEMBER_SIZE)
  }

  lemma WithinUnder(prefix: Text, entries: seq<Entry>, large: Text)
    requires Within(entries, large)
    ensures Within(PrefixedEntries(prefix, entries), Under(prefix, large))
  {
    var r := PrefixedEntries(prefix, entries);
    forall e | e in r && e.body.File? && e.body.source.Data?
      ensures |e.body.source.bytes| <= FILE_BYTES || (e.name == Under(prefix, large) && |e.body.source.bytes| <= MEMBER_SIZE)
    {
      var i :| 0 <= i < |r| && r[i] == e;
      assert entries[i] in entries;
    }
  }

  predicate Small(entries: seq<Entry>) {
    forall e | e in entries && e.body.File? && e.body.source.Data? :: |e.body.source.bytes| <= FILE_BYTES
  }

  lemma SmallUnder(prefix: Text, entries: seq<Entry>)
    requires Small(entries)
    ensures Small(PrefixedEntries(prefix, entries))
  {
    var r := PrefixedEntries(prefix, entries);
    forall e | e in r && e.body.File? && e.body.source.Data? ensures |e.body.source.bytes| <= FILE_BYTES {
      var i :| 0 <= i < |r| && r[i] == e;
      assert entries[i] in entries;
    }
  }

  lemma WithinJoined(a: seq<Entry>, b: seq<Entry>, large: Text)
    requires Within(a, large) && Within(b, large)
    ensures Within(a + b, large)
  {}

  lemma SmallIsWithin(entries: seq<Entry>, large: Text)
    requires Small(entries)
    ensures Within(entries, large)
  {}

  /** What is copied is within the bound under which it is read back. */
  lemma CopiedWithin(e: Entry, h: Host, entries: seq<Entry>)
    requires e in entries && Within(entries, STAGED_MEMBER) && e.body.File?
    ensures |Copy(e, h).GetOr([])| <= Limit(e.name)
  {}

  // ----- the program's own plan -----

  /** The bytes that the program takes from its sources are within their bounds. */
  predicate Sized(g: Gathered, helpers: Helpers) {
    && |g.vendor| <= MEMBER_SIZE && |g.document| <= FILE_BYTES && |g.config| <= FILE_BYTES && |g.policy| <= FILE_BYTES
    && |helpers.supervisorData| <= FILE_BYTES && |helpers.bridgeData| <= FILE_BYTES
  }

  lemma FileReadable(name: Text, f: HostFileInfo)
    ensures ReadableMode(FileEntry(name, f)) && FileEntry(name, f).body == File(HostFile(f.place))
  {}

  lemma ExtraReadable(host: HostTree, e: Entry)
    requires IsExtraEntry(host, e)
    ensures ReadableMode(e) && !e.body.Directory?
  {
    var i :| 0 <= i < |ExtraLibraries()| && ExtraEntry(host, i, e);
    FileReadable(ExtraName(i), host.file(ExtraPath(i)).value);
  }

  lemma EarlyReadable(b: Basis, e: Entry)
    requires EarlyEntry(b, e)
    ensures ReadableMode(e) && (e.body.Directory? ==> e.mode == MODE_555) && !e.body.Link?
    ensures e.body.File? ==> e.body.source.HostFile?
  {}

  lemma PlanEntryReadable(host: HostTree, helpers: Helpers, e: Entry)
    requires PlanEntry(host, helpers, e)
    ensures ReadableMode(e) && (e.body.Directory? ==> e.mode == MODE_555)
  {
    if EarlyEntry(BasisOf(host, helpers.Names()), e) { EarlyReadable(BasisOf(host, helpers.Names()), e); }
    else if IsExtraEntry(host, e) { ExtraReadable(host, e); }
  }

  /** Planned bytes are empty or a helper's. */
  lemma PlanEntrySmall(host: HostTree, helpers: Helpers, g: Gathered, e: Entry)
    requires PlanEntry(host, helpers, e) && Sized(g, helpers) && e.body.File? && e.body.source.Data?
    ensures |e.body.source.bytes| <= FILE_BYTES
  {
    if EarlyEntry(BasisOf(host, helpers.Names()), e) { EarlyReadable(BasisOf(host, helpers.Names()), e); }
  }

  lemma RuntimeReadable(host: HostTree, helpers: Helpers, d: Draft)
    requires Finished(host, helpers, d)
    ensures ReadableModes(d.entries) && FixedDirectories(d.entries)
  {
    forall i | 0 <= i < |d.entries|
      ensures ReadableMode(d.entries[i]) && (d.entries[i].body.Directory? ==> d.entries[i].mode == MODE_555)
    {
      assert PlanEntry(host, helpers, d.entries[i]);
      PlanEntryReadable(host, helpers, d.entries[i]);
    }
  }

  lemma RuntimeSmall(host: HostTree, helpers: Helpers, d: Draft, g: Gathered)
    requires Finished(host, helpers, d) && Sized(g, helpers)
    ensures Small(d.entries)
  {
    forall e | e in d.entries && e.body.File? && e.body.source.Data? ensures |e.body.source.bytes| <= FILE_BYTES {
      PlanEntrySmall(host, helpers, g, e);
    }
  }

  lemma PrefixedReadable(prefix: Text, entries: seq<Entry>)
    requires ReadableModes(entries)
    ensures ReadableModes(PrefixedEntries(prefix, entries))
  {
    var r := PrefixedEntries(prefix, entries);
    forall i | 0 <= i < |r| ensures ReadableMode(r[i]) { assert ReadableMode(entries[i]); }
  }

  lemma StagingReadable(g: Gathered, p: Plan)
    requires ReadableModes(g.runtime) && p.entries == PlanEntries(g)
    ensures ReadableModes(StagingEntries(p))
  {
    PrefixedReadable(RUNTIME, g.runtime);
    PrefixedReadable(VENDOR, VendorEntries(g.vendor));
    assert ReadableModes(PlanHead(g)) && ReadableModes(PlanTail(g));
    PrefixedReadable(ARTIFACTS, p.entries);
  }

  lemma NoLinks(entries: seq<Entry>)
    requires forall e | e in entries :: !e.body.Link?
    ensures LinksToFiles(entries)
  {}

  lemma PlanLinks(g: Gathered)
    requires LinksToFiles(g.runtime) && forall e | e in g.runtime :: Relative(e.name)
    ensures LinksToFiles(PlanEntries(g))
  {
    FixedNames();
    LinksUnder(RUNTIME, g.runtime);
    NoLinks(PlanHead(g));
    NoLinks(PlanTail(g));
    NoLinks(VendorEntries(g.vendor));
    NoLinks(PrefixedEntries(VENDOR, VendorEntries(g.vendor)));
    LinksJoined(PlanHead(g), PrefixedEntries(RUNTIME, g.runtime));
    LinksJoined(PrefixedEntries(VENDOR, VendorEntries(g.vendor)), PlanTail(g));
    LinksJoined(PlanHead(g) + PrefixedEntries(RUNTIME, g.runtime), PrefixedEntries(VENDOR, VendorEntries(g.vendor)) + PlanTail(g));
  }

  lemma StagingLinks(p: Plan)
    requires LinksToFiles(p.entries) && forall e | e in p.entries :: Relative(e.name)
    ensures LinksToFiles(StagingEntries(p))
  {
    FixedNames();
    LinksUnder(ARTIFACTS, p.entries);
    NoLinks(StagingHead());
    NoLinks(StagingTail(p));
    LinksJoined(StagingHead(), PrefixedEntries(ARTIFACTS, p.entries));
    LinksJoined(StagingHead() + PrefixedEntries(ARTIFACTS, p.entries), StagingTail(p));
  }

  lemma PlanWithin(g: Gathered, helpers: Helpers)
    requires Small(g.runtime) && Sized(g, helpers)
    ensures Within(PlanEntries(g), Under(VENDOR, CLAUDE))
  {
    var large := Under(VENDOR, CLAUDE);
    SmallUnder(RUNTIME, g.runtime);
    SmallIsWithin(PrefixedEntries(RUNTIME, g.runtime), large);
    WithinUnder(VENDOR, VendorEntries(g.vendor), CLAUDE);
    WithinJoined(PlanHead(g), PrefixedEntries(RUNTIME, g.runtime), large);
    WithinJoined(PrefixedEntries(VENDOR, VendorEntries(g.vendor)), PlanTail(g), large);
    WithinJoined(PlanHead(g) + PrefixedEntries(RUNTIME, g.runtime), PrefixedEntries(VENDOR, VendorEntries(g.vendor)) + PlanTail(g), large);
  }

  lemma MemberName()
    ensures Under(ARTIFACTS, Under(VENDOR, CLAUDE)) == STAGED_MEMBER
  {
    assert |VENDOR| == 6 && |CLAUDE| == 6 && |ARTIFACTS| == 23 && |STAGED_MEMBER| == 37;
  }

  lemma StagingWithin(p: Plan)
    requires Within(p.entries, Under(VENDOR, CLAUDE)) && |p.policy| <= FILE_BYTES
    ensures Within(StagingEntries(p), STAGED_MEMBER)
  {
    MemberName();
    WithinUnder(ARTIFACTS, p.entries, Under(VENDOR, CLAUDE));
    WithinJoined(StagingHead(), PrefixedEntries(ARTIFACTS, p.entries), STAGED_MEMBER);
    WithinJoined(StagingHead() + PrefixedEntries(ARTIFACTS, p.entries), StagingTail(p), STAGED_MEMBER);
  }

  /** What a written plan needs to read back as captured when its sources hold still. */
  ghost predicate Sound(entries: seq<Entry>) {
    ReadableModes(entries) && LinksToFiles(entries) && Within(entries, STAGED_MEMBER)
  }

  lemma StableIsFaithful(s: Staging, v: View, h: Host)
    requires Written(s, v) && Sound(s.entries) && Stable(s.entries, s.when, h)
    requires Readable(s.entries, h) && v.sha256 == h.sha256
    ensures AllFaithful(s, v, h)
  {
    forall i | 0 <= i < |s.entries| ensures Faithful(s, v, h, i) {
      var e := s.entries[i];
      assert e in s.entries && ReadableMode(e) && ItemOf(e, h).Some?;
      if e.body.Link? { LinksStay(s, v, i); }
      if e.body.File? { CopiedWithin(e, h, s.entries); }
    }
  }

  lemma StableIsCopied(entries: seq<Entry>, when: nat -> Host, h: Host)
    requires Readable(entries, h) && Stable(entries, when, h)
    ensures Copied(entries, when)
  {
    forall i | 0 <= i < |entries| ensures Copy(entries[i], when(i)).Some? {
      assert entries[i] in entries && ItemOf(entries[i], h).Some?;
    }
  }

  /** The plan is one that the program makes: its runtime part is planned from a host, the rest gathered with it. */
  ghost predicate OwnPlan(host: HostTree, word: Code -> bool, helpers: Helpers, g: Gathered, h: Host, p: Plan) {
    RealHost(host) && helpers.Based() && PlanFor(host, word, helpers) == Some(g.runtime) && MakePlan(g, h) == Some(p)
  }

  /** The staging entries of the program's own plan are well formed, captured and sound, and its directories open. */
  lemma RuntimePlanIsSound(host: HostTree, word: Code -> bool, helpers: Helpers, g: Gathered, h: Host, p: Plan)
    requires OwnPlan(host, word, helpers, g, h, p)
    requires Unobstructed(host, helpers) && helpers.Plain() && Sized(g, helpers)
    ensures WellFormed(StagingEntries(p)) && Captured(p, h, h.sha256) && Sound(StagingEntries(p))
    ensures FixedDirectories(g.runtime)
  {
    PlanWellFormedOrNowhere(host, word, helpers, g.runtime, map[], (i: nat) => h, [], 0);
    var d := PlanIsFinished(host, word, helpers, g.runtime);
    var runtime := Draft(g.runtime, d.home);
    StagingIsWellFormed(g, h, p);
    RuntimeReadable(host, helpers, runtime);
    RuntimeSmall(host, helpers, runtime, g);
    RuntimeLinks(host, helpers, runtime);
    StagingReadable(g, p);
    RuntimeIsRelative(g.runtime);
    PlanEntriesRelative(g);
    PlanLinks(g);
    StagingLinks(p);
    PlanWithin(g, helpers);
    StagingWithin(p);
  }

  lemma RuntimeIsRelative(entries: seq<Entry>)
    requires WellFormed(entries)
    ensures forall e | e in entries :: Relative(e.name)
  {
    WellFormedIsShaped(entries);
    CanonicalIsRelative(entries);
  }

  /** The inventories of the program's own plan have only directories that their readers can list and search. */
  lemma RuntimePlanOpens(host: HostTree, word: Code -> bool, helpers: Helpers, g: Gathered, h: Host, p: Plan, owner: int, user: int)
    requires OwnPlan(host, word, helpers, g, h, p)
    ensures OpenItems(p.inventory, owner, user) && OpenItems(StagingInventory(p), user, user)
  {
    var d := PlanIsFinished(host, word, helpers, g.runtime);
    RuntimeReadable(host, helpers, Draft(g.runtime, d.home));
    PlanOpens(g, h, p, owner, user);
    PlanOpens(g, h, p, user, user);
    StagingOpens(p, user);
  }

  /**
    Of the program's own plan, `Stage` and `Verify` accept whole trees only: what their comparison shows equal to
    the planned inventory is equal to it with everything that a scan could have passed over.
   */
  lemma OwnTreesAreWhole(host: HostTree, word: Code -> bool, helpers: Helpers, g: Gathered, h: Host, p: Plan,
                         v: View, items: seq<Item>, owner: int)
    requires OwnPlan(host, word, helpers, g, h, p) && TreeBelow(v.nodes, v.top)
    requires (items == p.inventory && owner == ROOT_UID) || (items == StagingInventory(p) && owner == v.user)
    ensures TreeEquals(v, items, owner) <==> TreeIs(v, items, owner)
  {
    RuntimePlanOpens(host, word, helpers, g, h, p, owner, v.user);
    ShownIsWhole(v, items, owner);
  }

  /**
    The plan of a runtime gather stages completely into a free place: with nothing changed since its sources
    were captured, `Stage` succeeds, and the new tree is the captured inventory, hidden paths included.
   */
  method StageStable(disk: Disk, p: Plan, dest: Path, when: nat -> Host, sha256: Text -> Text, hops: nat,
                     ghost host: HostTree, ghost word: Code -> bool, ghost helpers: Helpers, ghost g: Gathered, ghost h: Host)
    returns (ok: bool)
    requires OwnPlan(host, word, helpers, g, h, p)
    requires Unobstructed(host, helpers) && helpers.Plain() && Sized(g, helpers)
    requires h.sha256 == sha256 && Stable(StagingEntries(p), when, h)
    requires FileTree(disk.nodes) && Free(disk.nodes, disk.user, dest)
    modifies disk
    ensures ok && TreeIs(View(disk.nodes, disk.user, dest, sha256, hops), StagingInventory(p), disk.user)
    ensures Extends(old(disk.nodes), disk.nodes)
  {
    ghost var base := disk.nodes;
    RuntimePlanIsSound(host, word, helpers, g, h, p);
    RuntimePlanOpens(host, word, helpers, g, h, p, disk.user, disk.user);
    StableIsCopied(StagingEntries(p), when, h);
    ok := Stage(disk, p, dest, when, sha256, hops, h);
    StableIsFaithful(Staging(base, StagingEntries(p), when), View(disk.nodes, disk.user, dest, sha256, hops), h);
  }

  function WriteOnly(): seq<Entry> { [Entry(HERE, MODE_755, Directory)] + [Entry(CLAUDE, 128, File(Data([])))] }

  lemma WriteOnlyIsWellFormed()
    ensures WellFormed(WriteOnly())
  {
    FixedParts();
    RootAlone(MODE_755);
    AddFile([Entry(HERE, MODE_755, Directory)], {}, Entry(CLAUDE, 128, File(Data([]))));
    ShapedIsWellFormed(WriteOnly());
  }

  lemma WriteOnlyIsShut()
    ensures |WriteOnly()| == 2 && WriteOnly()[1].body.File? && !OwnerMayRead(WriteOnly()[1].mode)
  {
    assert WriteOnly()[1] == Entry(CLAUDE, 128, File(Data([])));
  }

  /** Not every mode reads back: a file its owner may not read is written, and then cannot be compared. */
  lemma WriteOnlyFileDoesNotMatch(when: nat -> Host, base: Tree, v: View, h: Host)
    ensures WellFormed(WriteOnly()) && !AllFaithful(Staging(base, WriteOnly(), when), v, h)
  {
    WriteOnlyIsWellFormed();
    WriteOnlyIsShut();
    ModeShutsOut(Staging(base, WriteOnly(), when), v, h, 1);
  }

  lemma ModeShutsOut(s: Staging, v: View, h: Host, i: nat)
    requires i < |s.entries| && s.entries[i].body.File? && !OwnerMayRead(s.entries[i].mode)
    ensures !AllFaithful(s, v, h)
  {
    assert !Faithful(s, v, h, i);
  }
}
