/**
  One host on which the script plans a tree that cannot be written, and the same host with another loader listing,
  on which it plans one that can (scripts/claude_host_artifacts.py, runtime_plan).
 */
module RuntimeWitness {
  import opened Texts
  import opened Wrappers
  import opened Sorting
  import opened PathParts
  import opened ArtifactInventory
  import opened FileSystem
  import opened Materialize
  import opened RuntimeShape
  import opened RuntimeNames
  import opened RuntimePlan
  import opened RuntimeContents
  import opened RuntimeWritable

  const OPT := Lit("opt")
  const USR := Lit("usr")
  const BIN := Lit("bin")
  const LIB := Lit("lib")

  // ----- the host: /opt is a regular file, which the loader may list -----

  predicate IsFile(p: Path) {
    || (exists i | 0 <= i < |HostNames()| :: p == Parts(HostNames()[i]))
    || (exists i | 0 <= i < |ExtraLibraries()| :: p == ExtraPath(i)) || p == [OPT]
  }

  /** What the loader lists for every binary: nothing, or /opt. */
  predicate MayList(listed: seq<Text>) { listed == [] || listed == [[SLASH] + OPT] }

  function TheHost(listed: seq<Text>): HostTree {
    HostTree(p => if IsFile(p) then Some(HostFileInfo(p, true, 1, false)) else None,
             p => if p == Parts(LIBRARY) then Some(p) else None,
             p => true, map[Parts(LIBRARY) := []], p => Some(listed))
  }

  const LISTED: seq<Text> := [[SLASH] + OPT]

  const THE_HELPERS := Helpers(Lit("supervisor"), [], Lit("bridge"), [])

  function AnyWord(): Code -> bool { c => true }

  /** How the files lie: by their first part, their number of parts and their second part. */
  predicate Spot(p: Path) {
    p != [] && ((p[0] == Lit("etc") && |p| == 4) || (p[0] == BIN && |p| == 2) || (p[0] == Lit("lib64") && |p| == 2)
                || (p[0] == OPT && |p| == 1) || (p[0] == USR && |p| == 3 && p[1] == BIN) || (p[0] == USR && |p| == 4 && p[1] == LIB))
  }

  lemma FirstLetters()
    ensures USR != BIN && USR != LIB && BIN != LIB && USR != OPT && BIN != OPT && LIB != OPT
    ensures Lit("etc") != USR && Lit("etc") != BIN && Lit("etc") != OPT
    ensures Lit("lib64") != USR && Lit("lib64") != BIN && Lit("lib64") != OPT && Lit("lib64") != Lit("etc")
  {
    assert USR[0] == 117 && BIN[0] == 98 && LIB[0] == 108 && OPT[0] == 111 && Lit("etc")[0] == 101 && Lit("lib64")[0] == 108;
  }

  lemma SpotsBeside(p: Path, q: Path)
    requires Spot(p) && (Spot(q) || q == [USR, LIB, PYTHON_NAME])
    ensures !ProperlyAbove(p, q) && p != [USR, LIB, PYTHON_NAME]
  {
    FirstLetters();
    SameFirst(p, q);
    SecondOf(p, q);
  }

  lemma SecondOf(p: Path, q: Path)
    ensures |p| > 1 && ProperlyAbove(p, q) ==> |q| > 1 && q[1] == p[1]
  {}

  lemma PythonSpot()
    ensures Spot(Parts(PYTHON))
  {
    ThreeLits("usr", "bin", "python3.12", "usr/bin/python3.12");
  }

  lemma GitSpot()
    ensures Spot(Parts(GIT_BINARY))
  {
    ThreeLits("usr", "bin", "git", "usr/bin/git");
  }

  lemma HostSpot(i: nat)
    requires i < |HostNames()|
    ensures Spot(Parts(HostNames()[i]))
  {
    if i == 0 { PythonSpot(); }
    else if i == 1 { GitSpot(); }
    else { HostNameLies(i); }
  }

  lemma ExtraSpot(i: nat)
    requires i < |ExtraLibraries()|
    ensures Spot(ExtraPath(i))
  {
    ThreeLits("usr", "lib", "x86_64-linux-gnu", "usr/lib/x86_64-linux-gnu");
  }

  lemma FileSpot(p: Path)
    requires IsFile(p)
    ensures Spot(p)
  {
    if i :| 0 <= i < |HostNames()| && p == Parts(HostNames()[i]) { HostSpot(i); }
    else if i :| 0 <= i < |ExtraLibraries()| && p == ExtraPath(i) { ExtraSpot(i); }
  }

  lemma HostIsReal(listed: seq<Text>)
    ensures RealHost(TheHost(listed))
  {
    var host := TheHost(listed);
    LibraryParts();
    forall p | RegularAt(host, p) ensures p != [] && host.directory(p).None? {
      FileSpot(p);
      SpotsBeside(p, p);
    }
    forall p, q | RegularAt(host, p) && ProperlyAbove(p, q) ensures host.file(q).None? && host.directory(q).None? {
      FileSpot(p);
      if IsFile(q) { FileSpot(q); }
      if Spot(q) || q == [USR, LIB, PYTHON_NAME] { SpotsBeside(p, q); }
    }
  }

  // ----- planning on it succeeds -----

  /** Neither the helpers' directory nor under it. */
  predicate Away(parts: Path) { !([USR, Lit("libexec")] <= parts) }

  /** At most n entries, none at or under the helpers' directory. */
  ghost predicate Few(entries: seq<Entry>, n: nat) { |entries| <= n && forall x | x in entries :: Away(Parts(x.name)) }

  lemma PrefixAway(parts: Path, k: nat)
    requires OrdinaryParts(parts) && k <= |parts| && Away(parts)
    ensures Away(Parts(Render(Above(parts, k))))
  {
    OrdinaryRender(Above(parts, k));
    assert [USR, Lit("libexec")] <= Above(parts, k) ==> [USR, Lit("libexec")] <= parts;
  }

  lemma FewMore(entries: seq<Entry>, e: Entry, n: nat)
    requires Few(entries, n) && Away(Parts(e.name))
    ensures Few(SetDefault(entries, e), n + 1)
  {}

  lemma FewPrefix(entries: seq<Entry>, parts: Path, k: nat, n: nat)
    requires OrdinaryParts(parts) && 0 < k <= |parts| && Away(parts) && Few(WithPrefixes(entries, parts, k - 1), n)
    ensures Few(WithPrefixes(entries, parts, k), n + 1)
  {
    PrefixAway(parts, k);
    FewMore(WithPrefixes(entries, parts, k - 1), Entry(Render(Above(parts, k)), MODE_555, Directory), n);
  }

  lemma {:induction false} FewPrefixes(entries: seq<Entry>, parts: Path, k: nat, n: nat)
    requires Few(entries, n) && OrdinaryParts(parts) && k <= |parts| && Away(parts)
    ensures Few(WithPrefixes(entries, parts, k), n + k)
    decreases k
  {
    if k > 0 {
      FewPrefixes(entries, parts, k - 1, n);
      FewPrefix(entries, parts, k, n + (k - 1));
    }
  }

  lemma {:induction false} PutSources(entries: seq<Entry>, e: Entry)
    ensures forall x | x in Put(entries, e) :: x == e || x in entries
  {
    if entries != [] && entries[0].name != e.name { PutSources(entries[1..], e); }
  }

  /** A name of a few parts away from the helpers. */
  ghost predicate Easy(name: Text) {
    Canonical(name) && 0 < |Parts(name)| <= 4 && name != HERE && Away(Parts(name))
  }

  lemma FewUnder(entries: seq<Entry>, e: Entry, n: nat)
    requires Few(entries, n) && Easy(e.name)
    ensures AddedUnder(entries, e).Some? && Few(AddedUnder(entries, e).value, n + 4)
  {
    var up := Parent(Parts(e.name));
    CanonicalOrdinary(e.name);
    assert [USR, Lit("libexec")] <= up ==> [USR, Lit("libexec")] <= Parts(e.name);
    FewPrefixes(entries, up, |up|, n);
    PutSources(WithPrefixes(entries, up, |up|), e);
  }

  /** Every canonical name is plain to a reader for whom every character is one of a word. */
  lemma EasyIsPlain(name: Text)
    requires Canonical(name) && name != HERE
    ensures PlainName(name, AnyWord())
  {
    PartsPlain(name);
    SplitJoin(Parts(name), SLASH);
    assert Split(name, SLASH) == Parts(name);
  }

  /** Such a host resolves every one of these files, and this is what its loader lists. */
  ghost predicate Serves(host: HostTree, listed: seq<Text>) {
    MayList(listed) && (forall p | IsFile(p) :: Usable(host, p, false)) && (forall y :: host.dependencies(y) == Some(listed))
  }

  lemma HostServes(listed: seq<Text>)
    requires MayList(listed)
    ensures Serves(TheHost(listed), listed)
  {}

  lemma FewFile(host: HostTree, listed: seq<Text>, entries: seq<Entry>, name: Text, source: Path, n: nat)
    requires Serves(host, listed) && Few(entries, n) && Easy(name) && IsFile(source)
    ensures var r := AddedFile(host, AnyWord(), entries, name, source, false); r.Some? && Few(r.value, n + 4)
  {
    EasyIsPlain(name);
    assert Usable(host, source, false);
    if !HasName(entries, name) { FewUnder(entries, FileEntry(name, host.file(source).value), n); }
  }

  lemma {:induction false} FewFiles(host: HostTree, listed: seq<Text>, entries: seq<Entry>, names: seq<Text>, n: nat)
    requires Serves(host, listed) && Few(entries, n) && forall i | 0 <= i < |names| :: Easy(names[i]) && IsFile(Parts(names[i]))
    ensures var r := AddedFiles(host, AnyWord(), entries, names); r.Some? && Few(r.value, n + 4 * |names|)
    decreases |names|
  {
    if names != [] {
      FewFile(host, listed, entries, names[0], Parts(names[0]), n);
      FewFiles(host, listed, AddedFile(host, AnyWord(), entries, names[0], Parts(names[0]), false).value, names[1..], n + 4);
    }
  }

  lemma SpotIsAway(p: Path)
    requires Spot(p)
    ensures 0 < |p| <= 4 && Away(p)
  {
    LibexecParts();
    assert |Lit("libexec")| == 7 && |BIN| == 3 && |LIB| == 3;
  }

  lemma HostIsEasy(i: nat)
    requires i < |HostNames()|
    ensures Easy(HostNames()[i]) && IsFile(Parts(HostNames()[i]))
  {
    HostNameLies(i);
    HostSpot(i);
    SpotIsAway(Parts(HostNames()[i]));
  }

  lemma OptIsEasy()
    ensures Easy(OPT) && IsFile(Parts(OPT)) && Parts(OPT) == [OPT]
  {
    OrdinaryLit("opt");
    SpotIsAway([OPT]);
  }

  lemma OptStripped()
    ensures Stripped([[SLASH] + OPT]) == [OPT]
  {
    var listed := [SLASH] + OPT;
    assert listed[1..] == OPT && Lstrip(OPT) == OPT;
    assert Stripped([listed])[0] == OPT;
  }

  lemma FewListed(host: HostTree, listed: seq<Text>, entries: seq<Entry>, n: nat)
    requires Serves(host, listed) && Few(entries, n)
    ensures var r := AddedFiles(host, AnyWord(), entries, Stripped(listed)); r.Some? && Few(r.value, n + 4)
  {
    if listed == [] {
      assert Stripped(listed) == [];
      FewFiles(host, listed, entries, [], n);
    } else {
      OptIsEasy();
      OptStripped();
      FewFiles(host, listed, entries, [OPT], n);
    }
  }

  lemma {:induction false} FewDependencies(host: HostTree, listed: seq<Text>, entries: seq<Entry>, binaries: seq<Path>, n: nat)
    requires Serves(host, listed) && Few(entries, n)
    ensures var r := AddedDependencies(host, AnyWord(), entries, binaries); r.Some? && Few(r.value, n + 4 * |binaries|)
    decreases |binaries|
  {
    if binaries != [] {
      FewListed(host, listed, entries, n);
      FewDependencies(host, listed, AddedFiles(host, AnyWord(), entries, Stripped(listed)).value, binaries[1..], n + 4);
    }
  }

  lemma ExtraIsEasy(i: nat)
    requires i < |ExtraLibraries()|
    ensures Easy(ExtraName(i)) && IsFile(ExtraPath(i))
  {
    ExtraParts(i);
    LibexecParts();
    FirstLetters();
  }

  lemma {:induction false} FewExtras(host: HostTree, listed: seq<Text>, entries: seq<Entry>, i: nat, n: nat)
    requires Serves(host, listed) && Few(entries, n) && i <= |ExtraLibraries()|
    ensures var r := AddedExtras(host, AnyWord(), entries, i); r.Some? && Few(r.value, n + 4 * (|ExtraLibraries()| - i))
    decreases |ExtraLibraries()| - i
  {
    if i < |ExtraLibraries()| {
      ExtraIsEasy(i);
      FewFile(host, listed, entries, ExtraName(i), ExtraPath(i), n);
      FewExtras(host, listed, AddedExtra(host, AnyWord(), entries, i).value, i + 1, n + 4);
    }
  }

  lemma LibraryIsEasy()
    ensures Easy(LIBRARY) && |Parts(LIBRARY)| == 3
  {
    LibraryParts();
    LibexecParts();
    assert |Lit("libexec")| == 7 && |LIB| == 3;
  }

  /** The library directory is empty. */
  lemma FewWalked(listed: seq<Text>, entries: seq<Entry>, n: nat)
    requires Few(entries, n)
    ensures var r := WalkTree(TheHost(listed), AnyWord(), Draft(entries, map[]), Parts(LIBRARY), LIBRARY);
      r.Some? && Few(r.value.entries, n + 4)
  {
    LibraryIsEasy();
    CanonicalOrdinary(LIBRARY);
    FewPrefixes(entries, Parts(LIBRARY), 3, n);
    assert TheHost(listed).children[Parts(LIBRARY)] == [] && Scan(TheHost(listed), Parts(LIBRARY)) == [];
  }

  lemma FewNamed(listed: seq<Text>)
    requires MayList(listed)
    ensures var r := AddedFiles(TheHost(listed), AnyWord(), [ROOT_ENTRY], HostNames()); r.Some? && Few(r.value, 21)
  {
    HereHasNoParts();
    assert Few([ROOT_ENTRY], 1);
    forall i | 0 <= i < |HostNames()| ensures Easy(HostNames()[i]) && IsFile(Parts(HostNames()[i])) { HostIsEasy(i); }
    HostServes(listed);
    FewFiles(TheHost(listed), listed, [ROOT_ENTRY], HostNames(), 1);
  }

  lemma FewGathered(listed: seq<Text>)
    requires MayList(listed)
    ensures FromHost(TheHost(listed), AnyWord()).Some? && Few(FromHost(TheHost(listed), AnyWord()).value.entries, 37)
  {
    FewNamed(listed);
    var files := AddedFiles(TheHost(listed), AnyWord(), [ROOT_ENTRY], HostNames()).value;
    FewWalked(listed, files, 21);
    var walked := WalkTree(TheHost(listed), AnyWord(), Draft(files, map[]), Parts(LIBRARY), LIBRARY).value;
    HostServes(listed);
    FewDependencies(TheHost(listed), listed, walked.entries, Binaries(TheHost(listed)), 25);
    NoLibraries(listed);
  }

  lemma NoLibraries(listed: seq<Text>)
    ensures |Binaries(TheHost(listed))| == 3
  {
    assert Libraries(TheHost(listed)) == [];
  }

  lemma {:induction false} PrefixCount(entries: seq<Entry>, parts: Path, k: nat)
    requires k <= |parts|
    ensures |WithPrefixes(entries, parts, k)| <= |entries| + k
    ensures forall x | x in WithPrefixes(entries, parts, k) :: x in entries || OnTheWay(parts, x.name)
    decreases k
  {
    if k > 0 {
      PrefixCount(entries, parts, k - 1);
      assert OnTheWay(parts, Render(Above(parts, k)));
    }
  }

  predicate OnTheWay(parts: Path, name: Text) { exists k | 0 < k <= |parts| :: name == Render(Above(parts, k)) }

  lemma UnderCount(entries: seq<Entry>, e: Entry)
    requires 0 < |Parts(e.name)| <= 3
    ensures var r := AddedUnder(entries, e);
      && r.Some? && |r.value| <= |entries| + 3
      && forall x | x in r.value :: x == e || x in entries || OnTheWay(Parent(Parts(e.name)), x.name)
  {
    var up := Parent(Parts(e.name));
    PrefixCount(entries, up, |up|);
    PutSources(WithPrefixes(entries, up, |up|), e);
  }

  lemma WayIsShorter(base: Text, name: Text)
    requires HelperBase(base) && base != HERE && OnTheWay(Parent(Parts(HelperName(base))), name)
    ensures |Parts(name)| <= 2
  {
    HelperParent(base);
    HelperCanonical(base);
    var up := Parent(Parts(HelperName(base)));
    var k :| 0 < k <= |up| && name == Render(Above(up, k));
    OrdinaryRender(Above(up, k));
  }

  /** A helper's name is not away from the helpers' directory. */
  lemma HelperIsThere(base: Text)
    requires HelperBase(base) && base != HERE
    ensures !Away(Parts(HelperName(base))) && |Parts(HelperName(base))| == 3 && Parts(HelperName(base))[2] == base
  {
    HelperCanonical(base);
  }

  lemma FewHaveNoHelper(entries: seq<Entry>, n: nat, base: Text)
    requires Few(entries, n) && HelperBase(base) && base != HERE
    ensures !HasName(entries, HelperName(base))
  {
    HelperIsThere(base);
    forall x | x in entries ensures x.name != HelperName(base) { assert Away(Parts(x.name)); }
  }

  /** One helper goes in, and nothing of the other's name with it. */
  lemma OneHelperGoesIn(entries: seq<Entry>, base: Text, data: Text, other: Text)
    requires HelperBase(base) && base != HERE && HelperBase(other) && other != HERE && other != base
    requires !HasName(entries, HelperName(base)) && !HasName(entries, HelperName(other))
    ensures var r := AddedHelper(entries, base, data);
      r.Some? && |r.value| <= |entries| + 3 && !HasName(r.value, HelperName(other))
  {
    HelperIsThere(base);
    HelperIsThere(other);
    UnderCount(entries, HelperEntry(base, data));
    var r := AddedHelper(entries, base, data).value;
    forall i | 0 <= i < |r| ensures r[i].name != HelperName(other) {
      if r[i] in entries { assert r[i].name != HelperName(other); }
      else if r[i].name != HelperName(base) { WayIsShorter(base, r[i].name); }
    }
  }

  lemma LastHelperGoesIn(entries: seq<Entry>, base: Text, data: Text)
    requires HelperBase(base) && base != HERE && !HasName(entries, HelperName(base))
    ensures AddedHelper(entries, base, data).Some? && |AddedHelper(entries, base, data).value| <= |entries| + 3
  {
    HelperIsThere(base);
    UnderCount(entries, HelperEntry(base, data));
  }

  /** Two helpers of different bases where nothing is planned in their directory. */
  lemma HelpersGoIn(entries: seq<Entry>, n: nat, helpers: Helpers)
    requires Few(entries, n) && helpers.Based() && helpers.Plain() && helpers.supervisor != helpers.bridge
    ensures AddedHelpers(entries, helpers).Some? && |AddedHelpers(entries, helpers).value| <= n + 6
  {
    FewHaveNoHelper(entries, n, helpers.supervisor);
    FewHaveNoHelper(entries, n, helpers.bridge);
    OneHelperGoesIn(entries, helpers.supervisor, helpers.supervisorData, helpers.bridge);
    LastHelperGoesIn(AddedHelper(entries, helpers.supervisor, helpers.supervisorData).value, helpers.bridge, helpers.bridgeData);
  }

  lemma {:induction false} MountsGoIn(entries: seq<Entry>, names: seq<Text>)
    requires forall i | 0 <= i < |names| :: |Parts(names[i])| <= 2
    ensures AddedDirectories(entries, names).Some? && |AddedDirectories(entries, names).value| <= |entries| + 2 * |names|
    decreases |names|
  {
    if names != [] {
      PrefixCount(entries, Parts(names[0]), |Parts(names[0])|);
      MountsGoIn(AddedDirectory(entries, Parts(names[0])).value, names[1..]);
    }
  }

  lemma PlaceholdersGoIn(entries: seq<Entry>)
    ensures AddedPlaceholders(entries).Some? && |AddedPlaceholders(entries).value| <= |entries| + 18
  {
    forall i | 0 <= i < |MountPoints()| ensures |Parts(MountPoints()[i])| <= 2 { MountParts(i); }
    MountsGoIn(entries, MountPoints());
    var mounted := AddedDirectories(entries, MountPoints()).value;
    LinkParts();
    UnderCount(Put(Put(Put(mounted, EmptyFile(SETTINGS)), EmptyFile(MCP)), EmptyFile(EGRESS)), LINK_ENTRY);
  }

  lemma SupervisorName()
    ensures OrdinaryName(THE_HELPERS.supervisor) && |THE_HELPERS.supervisor| == 10
  {
    OrdinaryLit("supervisor");
  }

  lemma BridgeName()
    ensures OrdinaryName(THE_HELPERS.bridge) && |THE_HELPERS.bridge| == 6
  {
    OrdinaryLit("bridge");
  }

  lemma HelpersArePlain()
    ensures THE_HELPERS.Based() && THE_HELPERS.Plain() && THE_HELPERS.supervisor != THE_HELPERS.bridge
  {
    SupervisorName();
    BridgeName();
  }

  lemma CompletedWithin(listed: seq<Text>, entries: seq<Entry>, n: nat)
    requires MayList(listed) && Few(entries, n) && n <= 1000
    ensures var r := Completed(TheHost(listed), AnyWord(), THE_HELPERS, entries); r.Some? && |r.value| <= RUNTIME_LIMIT
  {
    HelpersArePlain();
    HostServes(listed);
    FewExtras(TheHost(listed), listed, entries, 0, n);
    var extra := AddedExtras(TheHost(listed), AnyWord(), entries, 0).value;
    HelpersGoIn(extra, n + 12, THE_HELPERS);
    PlaceholdersGoIn(AddedHelpers(extra, THE_HELPERS).value);
  }

  lemma PlanIsGiven(listed: seq<Text>)
    requires MayList(listed)
    ensures PlanFor(TheHost(listed), AnyWord(), THE_HELPERS).Some?
  {
    FewGathered(listed);
    CompletedWithin(listed, FromHost(TheHost(listed), AnyWord()).value.entries, 37);
  }

  lemma OptIsRequested()
    ensures Requested(TheHost(LISTED), OPT) && RegularAt(TheHost(LISTED), Parts(OPT))
  {
    OptIsEasy();
    OptStripped();
    assert ListedFor(TheHost(LISTED), Binaries(TheHost(LISTED))[0], OPT);
  }

  lemma OptClaudeParts()
    ensures Parts(OPT_CLAUDE) == [OPT, Lit("claude")] && OPT_CLAUDE in MountPoints()
  {
    TwoLits("opt", "claude", "opt/claude");
    assert MountPoints()[4] == OPT_CLAUDE;
  }

  lemma OptParts()
    ensures Parts(OPT) == [OPT]
  {
    OrdinaryLit("opt");
  }

  lemma FirstIsAbove(a: Path, b: Path)
    requires |a| == 1 && |b| == 2 && b[0] == a[0]
    ensures ProperlyAbove(a, b)
  {}

  lemma OptIsAbove(helpers: Helpers)
    ensures AboveFixed(helpers, Parts(OPT))
  {
    OptParts();
    OptClaudeParts();
    FirstIsAbove(Parts(OPT), Parts(OPT_CLAUDE));
    AboveMount(helpers, Parts(OPT), OPT_CLAUDE);
  }

  lemma AboveMount(helpers: Helpers, parts: Path, mount: Text)
    requires mount in MountPoints() && ProperlyAbove(parts, Parts(mount))
    ensures AboveFixed(helpers, parts)
  {
    assert FixedName(helpers, mount);
  }

  lemma InTheWay(host: HostTree, helpers: Helpers, name: Text)
    requires Requested(host, name) && RegularAt(host, Parts(name)) && AboveFixed(helpers, Parts(name))
    ensures !Unobstructed(host, helpers)
  {}

  /**
    The condition is real: on a host whose /opt is a regular file that the loader lists, with helpers of
    ordinary names, the script gives a plan that materialize refuses everywhere.
   */
  lemma SomePlanIsWrittenNowhere(base: Tree, when: nat -> Host, dest: Path, user: int) returns (r: seq<Entry>)
    ensures RealHost(TheHost(LISTED)) && THE_HELPERS.Based() && THE_HELPERS.Plain()
    ensures PlanFor(TheHost(LISTED), AnyWord(), THE_HELPERS) == Some(r)
    ensures !(AllAdmissible(r, when, |r|) && Buildable(base, Placed(base, r, when, dest, user), user, |r|))
  {
    HostIsReal(LISTED);
    HelpersArePlain();
    PlanIsGiven(LISTED);
    OptIsRequested();
    OptIsAbove(THE_HELPERS);
    InTheWay(TheHost(LISTED), THE_HELPERS, OPT);
    r := PlanFor(TheHost(LISTED), AnyWord(), THE_HELPERS).value;
    PlanWellFormedOrNowhere(TheHost(LISTED), AnyWord(), THE_HELPERS, r, base, when, dest, user);
  }

  // ----- the same host whose loader lists nothing -----

  /** Such a host is not in the way, though its /opt is a regular file all the same. */
  lemma NothingListed()
    ensures Unobstructed(TheHost([]), THE_HELPERS) && RegularAt(TheHost([]), Parts(OPT))
  {
    HelpersArePlain();
    OptIsEasy();
    OnlyListedObstruct(TheHost([]), THE_HELPERS);
    assert Stripped([]) == [];
  }

  /** Sources that hold still, each an empty file. */
  const HELD := Host(p => Some([]), t => [])

  lemma HeldCopies(e: Entry)
    ensures Copy(e, HELD).Some? && ItemOf(e, HELD).Some?
  {}

  /** A disk with nothing but a root directory that is the user's own. */
  function BareDisk(user: int): Tree { map[[] := DirNode(PRIVATE_DIR, user)] }

  const STAGED := [Lit("staging")]

  lemma StagedIsOneName()
    ensures |STAGED| == 1 && DOTDOT !in STAGED && PlainParts(STAGED) && Above(STAGED, 0) == []
  {
    OrdinaryLit("staging");
  }

  lemma BareDiskIsReady(user: int)
    ensures Ready(BareDisk(user), user, STAGED)
  {
    StagedIsOneName();
    BareIsReady(BareDisk(user), user, STAGED);
  }

  lemma BareIsReady(nodes: Tree, user: int, p: Path)
    requires nodes == map[[] := DirNode(PRIVATE_DIR, user)] && |p| == 1 && DOTDOT !in p && Above(p, 0) == []
    ensures Ready(nodes, user, p)
  {}

  /** The condition is met: on this host the script gives a plan that is written into a free place. */
  lemma SomePlanIsWritten(user: int) returns (r: seq<Entry>)
    ensures RealHost(TheHost([])) && THE_HELPERS.Based() && THE_HELPERS.Plain() && Unobstructed(TheHost([]), THE_HELPERS)
    ensures PlanFor(TheHost([]), AnyWord(), THE_HELPERS) == Some(r) && Ready(BareDisk(user), user, STAGED)
    ensures var when := (i: nat) => HELD;
      && AllAdmissible(r, when, |r|)
      && Buildable(BareDisk(user), Placed(BareDisk(user), r, when, STAGED, user), user, |r|)
  {
    var when := (i: nat) => HELD;
    HostIsReal([]);
    HelpersArePlain();
    PlanIsGiven([]);
    NothingListed();
    BareDiskIsReady(user);
    r := PlanFor(TheHost([]), AnyWord(), THE_HELPERS).value;
    forall i | 0 <= i < |r| ensures Copy(r[i], when(i)).Some? { HeldCopies(r[i]); }
    PlanWritableIff(TheHost([]), AnyWord(), THE_HELPERS, r, BareDisk(user), when, STAGED, user);
  }
}
