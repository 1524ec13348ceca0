/** What the script's own plan holds, and when it can be written (scripts/claude_host_artifacts.py). */
module RuntimeWritable {
  import opened Texts
  import opened Wrappers
  import opened Sorting
  import opened PathParts
  import opened ArtifactInventory
  import opened FileSystem
  import opened Materialize
  import opened RuntimeShape
  import opened RuntimeNames
  import opened RuntimePlan
  import opened RuntimeContents

  // ----- the host names stand as host files -----

  /** The host has a regular file at the name's own path, and that file is what is planned. */
  ghost predicate Stands(host: HostTree, entries: seq<Entry>, name: Text) {
    RegularAt(host, Parts(name)) && OwnEntry(host, name) in entries
  }

  /** Only these names are asked for. */
  ghost function NamesBasis(host: HostTree, helpers: set<Text>, names: seq<Text>): Basis {
    Basis(host, helpers, iset q: Path | IsPathOf(names, q), iset{})
  }

  ghost predicate IsPathOf(names: seq<Text>, q: Path) { exists i | 0 <= i < |names| :: q == Parts(names[i]) }

  ghost predicate Wider(a: Basis, b: Basis) {
    a.host == b.host && a.helpers == b.helpers && a.asked <= b.asked && a.walks <= b.walks
  }

  lemma EarlyWiden(a: Basis, b: Basis, entries: seq<Entry>)
    requires Early(a, entries) && Wider(a, b)
    ensures Early(b, entries)
  {
    forall x | x in entries ensures EarlyEntry(b, x) {
      assert EarlyEntry(a, x);
      if x.body.Directory? { TowardsWiden(a, b, Parts(x.name)); }
    }
  }

  lemma TowardsWiden(a: Basis, b: Basis, parts: Path)
    requires Towards(a, parts) && Wider(a, b)
    ensures Towards(b, parts)
  {
    if q :| q in a.asked && parts < q {
      assert q in b.asked;
    } else {
      var q :| q in a.walks && parts <= q;
      assert q in b.walks;
    }
  }

  lemma PrefixIsAbove(a: Path, b: Path)
    ensures a < b <==> ProperlyAbove(a, b)
  {}

  lemma NotTowards(b: Basis, parts: Path)
    requires b.walks == iset{} && forall q | q in b.asked :: !ProperlyAbove(parts, q)
    ensures !Towards(b, parts)
  {
    forall q | q in b.asked ensures !(parts < q) { PrefixIsAbove(parts, q); }
  }

  /** A planned name under which none of the names asked for lies is a file. */
  lemma PlannedIsFile(b: Basis, entries: seq<Entry>, name: Text)
    requires Early(b, entries) && HasName(entries, name)
    requires b.walks == iset{} && forall q | q in b.asked :: !ProperlyAbove(Parts(name), q)
    ensures Stands(b.host, entries, name)
  {
    var x := HasEntry(entries, name);
    NotTowards(b, Parts(name));
    assert EarlyEntry(b, x);
  }

  lemma OneStands(b: Basis, word: Code -> bool, entries: seq<Entry>, name: Text, r: seq<Entry>)
    requires RealHost(b.host) && Early(b, entries) && Parts(name) in b.asked
    requires HasName(entries, name) ==> Stands(b.host, entries, name)
    requires AddedFile(b.host, word, entries, name, Parts(name), false) == Some(r)
    ensures Early(b, r) && Stands(b.host, r, name) && Includes(entries, r)
  {
    EarlyFile(b, word, entries, name, false, r);
  }

  /** The first i names stand. */
  ghost predicate FirstStand(host: HostTree, entries: seq<Entry>, names: seq<Text>, i: nat)
    requires i <= |names|
  {
    forall k | 0 <= k < i :: Stands(host, entries, names[k])
  }

  lemma OneMoreStands(host: HostTree, a: seq<Entry>, b: seq<Entry>, names: seq<Text>, i: nat)
    requires i < |names| && FirstStand(host, a, names, i) && Includes(a, b) && Stands(host, b, names[i])
    ensures FirstStand(host, b, names, i + 1)
  {}

  lemma NamesWider(host: HostTree, helpers: set<Text>, names: seq<Text>, i: nat)
    requires i < |names|
    ensures Wider(NamesBasis(host, helpers, names[..i]), NamesBasis(host, helpers, names[..i + 1]))
    ensures Parts(names[i]) in NamesBasis(host, helpers, names[..i + 1]).asked
  {
    forall q | q in NamesBasis(host, helpers, names[..i]).asked ensures q in NamesBasis(host, helpers, names[..i + 1]).asked {
      var k :| 0 <= k < i && q == Parts(names[..i][k]);
      assert names[..i + 1][k] == names[..i][k];
    }
    assert names[..i + 1][i] == names[i];
  }

  /** No name lies under another. */
  ghost predicate AllBeside(names: seq<Text>) {
    forall k, m | 0 <= k < |names| && 0 <= m < |names| :: !ProperlyAbove(Parts(names[k]), Parts(names[m]))
  }

  lemma BesideFirst(host: HostTree, helpers: set<Text>, names: seq<Text>, i: nat)
    requires AllBeside(names) && i < |names|
    ensures forall q | q in NamesBasis(host, helpers, names[..i]).asked :: !ProperlyAbove(Parts(names[i]), q)
  {}

  lemma {:induction false} NamesStand(host: HostTree, word: Code -> bool, helpers: set<Text>, names: seq<Text>, i: nat,
                                      entries: seq<Entry>, r: seq<Entry>)
    requires RealHost(host) && i <= |names| && Early(NamesBasis(host, helpers, names[..i]), entries)
    requires FirstStand(host, entries, names, i) && AllBeside(names)
    requires AddedFiles(host, word, entries, names[i..]) == Some(r)
    ensures Early(NamesBasis(host, helpers, names), r) && FirstStand(host, r, names, |names|)
    decreases |names| - i
  {
    if i == |names| {
      assert names[..i] == names && names[i..] == [];
    } else {
      assert names[i..][0] == names[i] && names[i..][1..] == names[i + 1..];
      var a, b := NamesBasis(host, helpers, names[..i]), NamesBasis(host, helpers, names[..i + 1]);
      var more := AddedFile(host, word, entries, names[i], Parts(names[i]), false).value;
      NamesWider(host, helpers, names, i);
      EarlyWiden(a, b, entries);
      BesideFirst(host, helpers, names, i);
      if HasName(entries, names[i]) { PlannedIsFile(a, entries, names[i]); }
      OneStands(b, word, entries, names[i], more);
      OneMoreStands(host, entries, more, names, i);
      NamesStand(host, word, helpers, names, i + 1, more, r);
    }
  }

  /** Names that do not lie under one another, planned first, stand as host files. */
  lemma AllStand(host: HostTree, word: Code -> bool, helpers: set<Text>, names: seq<Text>, r: seq<Entry>)
    requires RealHost(host) && names != [] && names[0] != HERE && Parts(names[0]) != [] && AllBeside(names)
    requires AddedFiles(host, word, [ROOT_ENTRY], names) == Some(r)
    ensures Early(NamesBasis(host, helpers, names), r) && FirstStand(host, r, names, |names|)
  {
    var b, start := NamesBasis(host, helpers, names[..1]), [ROOT_ENTRY];
    NamesWider(host, helpers, names, 0);
    EarlyStart(b, Parts(names[0]));
    var more := AddedFile(host, word, start, names[0], Parts(names[0]), false).value;
    assert !HasName(start, names[0]);
    OneStands(b, word, start, names[0], more);
    NamesStand(host, word, helpers, names, 1, more, r);
  }

  lemma HostNamesStand(host: HostTree, word: Code -> bool, helpers: set<Text>, r: seq<Entry>)
    requires RealHost(host) && AddedFiles(host, word, [ROOT_ENTRY], HostNames()) == Some(r)
    ensures Early(BasisOf(host, helpers), r) && FirstStand(host, r, HostNames(), |HostNames()|)
  {
    HostNameLies(0);
    forall k, m | 0 <= k < |HostNames()| && 0 <= m < |HostNames()|
      ensures !ProperlyAbove(Parts(HostNames()[k]), Parts(HostNames()[m]))
    {
      HostNamesAreBeside(k, m);
    }
    AllStand(host, word, helpers, HostNames(), r);
    var a, b := NamesBasis(host, helpers, HostNames()), BasisOf(host, helpers);
    forall q | q in a.asked ensures q in b.asked {
      var i :| 0 <= i < |HostNames()| && q == Parts(HostNames()[i]);
      assert Requested(host, HostNames()[i]);
    }
    EarlyWiden(a, b, r);
  }

  // ----- what comes from the host -----

  /** Everything the host is asked for is planned, and the library tree was walked to the end. */
  ghost predicate Gathering(host: HostTree, helpers: set<Text>, d: Draft) {
    && Early(BasisOf(host, helpers), d.entries)
    && FirstStand(host, d.entries, HostNames(), |HostNames()|)
    && (forall y | y in Binaries(host) :: Linked(host, d.entries, y))
    && Walked(host, {}, d)
    && WalkedFrom(host, d.home, Origin(Parts(LIBRARY), LIBRARY))
  }

  lemma ListedIsRequested(host: HostTree, binaries: seq<Path>, y: Path, n: Text)
    requires binaries == Binaries(host) && y in binaries && ListedFor(host, y, n)
    ensures Requested(host, n)
  {
    var i :| 0 <= i < |binaries| && binaries[i] == y;
    assert Listed(host, n);
  }

  lemma ListedIsAsked(host: HostTree, helpers: set<Text>, binaries: seq<Path>)
    requires binaries == Binaries(host)
    ensures forall y, n | y in binaries && ListedFor(host, y, n) :: Parts(n) in BasisOf(host, helpers).asked
  {
    forall y, n | y in binaries && ListedFor(host, y, n) ensures Parts(n) in BasisOf(host, helpers).asked {
      ListedIsRequested(host, binaries, y, n);
    }
  }

  lemma StandStill(host: HostTree, a: seq<Entry>, b: seq<Entry>, names: seq<Text>)
    requires Includes(a, b) && FirstStand(host, a, names, |names|)
    ensures FirstStand(host, b, names, |names|)
  {}

  lemma HomeStill(host: HostTree, d: Draft, entries: seq<Entry>)
    requires Walked(host, {}, d) && Includes(d.entries, entries)
    ensures Walked(host, {}, Draft(entries, d.home))
  {
    WalkedMore(host, {}, d, Draft(entries, d.home));
  }

  lemma GatheredIs(host: HostTree, word: Code -> bool, names: seq<Text>, source: Path, name: Text,
                   binaries: seq<Path>, d: Draft)
    returns (files: seq<Entry>, walked: Draft)
    requires CollectedFrom(host, word, names, source, name, binaries) == Some(d)
    ensures AddedFiles(host, word, [ROOT_ENTRY], names) == Some(files)
    ensures WalkTree(host, word, Draft(files, map[]), source, name) == Some(walked)
    ensures AddedDependencies(host, word, walked.entries, binaries) == Some(d.entries) && d.home == walked.home
  {
    files := AddedFiles(host, word, [ROOT_ENTRY], names).value;
    walked := WalkTree(host, word, Draft(files, map[]), source, name).value;
  }

  lemma FromHostGathers(host: HostTree, word: Code -> bool, helpers: set<Text>, d: Draft)
    requires RealHost(host) && FromHost(host, word) == Some(d)
    ensures Gathering(host, helpers, d)
  {
    var b := BasisOf(host, helpers);
    var files, walked := GatheredIs(host, word, HostNames(), Parts(LIBRARY), LIBRARY, Binaries(host), d);
    LibraryParts();
    HostNamesStand(host, word, helpers, files);
    TreeWalked(b, word, Parts(LIBRARY), Draft(files, map[]), Parts(LIBRARY), LIBRARY, walked);
    ListedIsAsked(host, helpers, Binaries(host));
    EarlyDependencies(b, word, walked.entries, Binaries(host), d.entries);
    StandStill(host, files, walked.entries, HostNames());
    StandStill(host, walked.entries, d.entries, HostNames());
    HomeStill(host, walked, d.entries);
  }

  lemma RequestedIsNamed(host: HostTree, helpers: set<Text>, d: Draft, name: Text)
    requires Gathering(host, helpers, d) && Requested(host, name)
    ensures HasName(d.entries, name)
  {
    if name in HostNames() {
      var k :| 0 <= k < |HostNames()| && HostNames()[k] == name;
      assert Stands(host, d.entries, name);
      EntryHas(d.entries, OwnEntry(host, name));
    } else {
      var i :| 0 <= i < |Binaries(host)| && ListedFor(host, Binaries(host)[i], name);
      assert Linked(host, d.entries, Binaries(host)[i]);
    }
  }

  // ----- what a plan holds -----

  /** A file stands for an extra library, or something asked for by name lies under it. */
  ghost predicate ExtraStands(host: HostTree, r: seq<Entry>, i: nat)
    requires i < |ExtraLibraries()|
  {
    || Stands(host, r, ExtraName(i)) || (exists x :: x in r && ExtraEntry(host, i, x))
    || (exists name :: Requested(host, name) && ProperlyAbove(Parts(ExtraName(i)), Parts(name)))
  }

  /**
    What an entry of a plan may be: a directory towards something asked for or a fixed name, the host file at
    the path of a name asked for, an extra library, one of the two helpers with its reviewed bytes, one of the
    three empty files, or the one link.
   */
  ghost predicate PlanEntry(host: HostTree, helpers: Helpers, e: Entry) {
    EarlyEntry(BasisOf(host, helpers.Names()), e) || IsPlaceholderEntry(e) || IsExtraEntry(host, e) || IsHelperEntry(helpers, e)
    || (e.body.Directory? && e.mode == MODE_555 && LeadsToFixed(helpers, Parts(e.name)))
  }

  /** Where the host has a regular file under a name asked for, the plan has that file, unless a placeholder replaced it. */
  ghost predicate HoldsRequested(host: HostTree, r: seq<Entry>) {
    forall name | Requested(host, name) ::
      HasName(r, name) && (RegularAt(host, Parts(name)) ==> Stands(host, r, name) || Placeholder(name))
  }

  /** Where the host has a regular file under a planned name in the library tree, the plan has that file. */
  ghost predicate HoldsLibrary(host: HostTree, r: seq<Entry>) {
    forall name | HasName(r, name) && Parts(LIBRARY) <= Parts(name) && RegularAt(host, Parts(name)) :: Stands(host, r, name)
  }

  /** The entries of a plan by their kind. */
  lemma EntryKinds(host: HostTree, helpers: Helpers, e: Entry)
    requires PlanEntry(host, helpers, e)
    ensures e.body.Directory? ==> e.mode == MODE_555
    ensures e.body.Link? ==> e == LINK_ENTRY
    ensures e.body.File? && e.body.source.Data? ==>
      IsHelperEntry(helpers, e) || e == EmptyFile(SETTINGS) || e == EmptyFile(MCP) || e == EmptyFile(EGRESS)
    ensures e.body.File? && e.body.source.HostFile? ==>
      IsExtraEntry(host, e)
      || (RegularAt(host, Parts(e.name)) && e == OwnEntry(host, e.name)
          && (RequestedAt(host, Parts(e.name)) || ReachedFile(host, Parts(LIBRARY), Parts(e.name))))
  {
    if EarlyEntry(BasisOf(host, helpers.Names()), e) && !e.body.Directory? {
      assert Parts(e.name) in BasisOf(host, helpers.Names()).asked;
    }
  }

  /** What a finished runtime plan is. */
  ghost predicate Finished(host: HostTree, helpers: Helpers, d: Draft) {
    && (forall x | x in d.entries :: PlanEntry(host, helpers, x))
    && FirstStand(host, d.entries, HostNames(), |HostNames()|) && HoldsRequested(host, d.entries) && HoldsLibrary(host, d.entries)
    && HoldsFixed(helpers, d.entries) && (forall i | 0 <= i < |ExtraLibraries()| :: ExtraStands(host, d.entries, i))
    && Walked(host, {}, d)
    && WalkedFrom(host, d.home, Origin(Parts(LIBRARY), LIBRARY))
  }

  lemma DraftedParts(host: HostTree, word: Code -> bool, helpers: Helpers, d: Draft) returns (early: Draft)
    requires Drafted(host, word, helpers) == Some(d)
    ensures FromHost(host, word) == Some(early) && early.home == d.home
    ensures Completed(host, word, helpers, early.entries) == Some(d.entries)
  {
    early := FromHost(host, word).value;
  }

  /** What comes from the host, and what completes it. */
  ghost predicate Made(g: Ground, early: Draft, entries: seq<Entry>) {
    && Grounded(g) && g.early == early.entries && RealHost(g.host)
    && Gathering(g.host, g.helpers.Names(), early)
    && Late(g, entries) && HoldsFixed(g.helpers, entries) && g.helpers.supervisor != g.helpers.bridge
  }

  lemma DraftIsMade(host: HostTree, word: Code -> bool, helpers: Helpers, d: Draft) returns (g: Ground, early: Draft)
    requires RealHost(host) && helpers.Based() && Drafted(host, word, helpers) == Some(d)
    ensures g.host == host && g.helpers == helpers && early.home == d.home && Made(g, early, d.entries)
  {
    early := DraftedParts(host, word, helpers, d);
    FromHostGathers(host, word, helpers.Names(), early);
    g := GroundOf(host, helpers, early.entries);
    GroundIsGrounded(host, helpers, early.entries);
    CompletedIsLate(g, word, d.entries);
  }

  lemma GroundIsGrounded(host: HostTree, helpers: Helpers, early: seq<Entry>)
    requires helpers.Based()
    ensures Grounded(GroundOf(host, helpers, early))
  {}

  lemma HostNameIsNotPlaceholder(i: nat)
    requires i < |HostNames()|
    ensures !Placeholder(HostNames()[i])
  {
    PlaceholdersDiffer();
    var n := HostNames()[i];
    assert |PYTHON| == 18 && |GIT_BINARY| == 11 && |CERTS| == 13 && |SHELL| == 6;
    assert PYTHON[0] == LIBEXEC[0] && EGRESS[0] != LIBEXEC[0] && TRUST_BUNDLE[0] == CERTS[0] && LOADER[0] == 108;
    assert |TRUST_BUNDLE| == 33 && SETTINGS[0] == 101 && MCP[0] == 101 && EGRESS[0] == 118 && PYTHON_LINK[0] == 117;
  }

  /** What was planned from the host still stands, unless under a placeholder's name. */
  lemma StillStands(g: Ground, early: Draft, entries: seq<Entry>, name: Text)
    requires Made(g, early, entries) && Stands(g.host, early.entries, name)
    ensures Stands(g.host, entries, name) || Placeholder(name)
  {
    assert OwnEntry(g.host, name) in g.early;
  }

  lemma HoldsHostNames(g: Ground, early: Draft, entries: seq<Entry>)
    requires Made(g, early, entries)
    ensures FirstStand(g.host, entries, HostNames(), |HostNames()|)
  {
    forall k | 0 <= k < |HostNames()| ensures Stands(g.host, entries, HostNames()[k]) {
      HostNameIsNotPlaceholder(k);
      StillStands(g, early, entries, HostNames()[k]);
    }
  }

  lemma HoldsAllRequested(g: Ground, early: Draft, entries: seq<Entry>)
    requires Made(g, early, entries)
    ensures HoldsRequested(g.host, entries)
  {
    forall name | Requested(g.host, name)
      ensures HasName(entries, name) && (RegularAt(g.host, Parts(name)) ==> Stands(g.host, entries, name) || Placeholder(name))
    {
      RequestedIsNamed(g.host, g.helpers.Names(), early, name);
      if RegularAt(g.host, Parts(name)) {
        EarlyStands(BasisOf(g.host, g.helpers.Names()), early.entries, name);
        StillStands(g, early, entries, name);
      }
    }
  }

  /** What lies strictly towards something outside the library tree is above a name asked for. */
  lemma TowardsRequested(host: HostTree, helpers: set<Text>, parts: Path)
    requires Towards(BasisOf(host, helpers), parts) && parts != [] && |parts| <= 3 && !(parts <= Parts(LIBRARY))
    ensures exists name :: Requested(host, name) && ProperlyAbove(parts, Parts(name))
  {
    var b := BasisOf(host, helpers);
    LibraryParts();
    forall q | q in b.walks ensures !(parts <= q) {
      if parts <= q { BothPrefixes(parts, Parts(LIBRARY), q); }
    }
    var q :| q in b.asked && parts < q;
    if Parts(LIBRARY) <= q { BothPrefixes(parts, Parts(LIBRARY), q); }
    var name :| Requested(host, name) && q == Parts(name);
    PrefixIsAbove(parts, q);
  }

  lemma BothPrefixes(a: Path, b: Path, q: Path)
    requires a <= q && b <= q && |a| <= |b|
    ensures a <= b
  {
    assert a == q[..|a|] && b == q[..|b|];
  }

  lemma ExtraIsBesideLibrary(i: nat)
    requires i < |ExtraLibraries()|
    ensures var parts := Parts(ExtraName(i)); |parts| == 3 && !(parts <= Parts(LIBRARY))
  {
    ExtraParts(i);
    LibraryParts();
    assert Lit("lib")[0] != Lit("usr")[0];
  }

  lemma HoldsExtra(g: Ground, early: Draft, entries: seq<Entry>, i: nat)
    requires Made(g, early, entries) && i < |ExtraLibraries()|
    ensures ExtraStands(g.host, entries, i)
  {
    var x := HasEntry(entries, ExtraName(i));
    ExtraIsBesideLibrary(i);
    if x in g.early {
      assert EarlyEntry(BasisOf(g.host, g.helpers.Names()), x);
      if x.body.Directory? { TowardsRequested(g.host, g.helpers.Names(), Parts(ExtraName(i))); }
    } else {
      assert LateEntry(g.host, g.helpers, g.early, x);
      LateExtraStands(g, x, i);
    }
  }

  lemma ExtraNamesDiffer(i: nat, j: nat)
    requires i < |ExtraLibraries()| && j < |ExtraLibraries()| && ExtraName(i) == ExtraName(j)
    ensures i == j
  {
    assert ExtraName(i)[|MULTIARCH| + 1..] == ExtraLibraries()[i] && ExtraName(j)[|MULTIARCH| + 1..] == ExtraLibraries()[j];
    assert ExtraLibraries()[i][3] == ['r', 'p', 'd'][i] as int && ExtraLibraries()[j][3] == ['r', 'p', 'd'][j] as int;
  }

  lemma NoDirectoryAtExtra(g: Ground, x: Entry, i: nat)
    requires Grounded(g) && i < |ExtraLibraries()| && x.name == ExtraName(i)
    ensures !LeadsToFixed(g.helpers, Parts(x.name))
  {
    ExtraIsBesideLibrary(i);
    forall n ensures !LeadsInto(g.helpers, n, Parts(x.name)) {
      if FixedName(g.helpers, n) { FixedNameParts(g.helpers, n); }
    }
  }

  lemma NoOtherAtExtra(g: Ground, x: Entry, i: nat)
    requires i < |ExtraLibraries()| && x.name == ExtraName(i)
    ensures !IsPlaceholderEntry(x) && !IsHelperEntry(g.helpers, x)
  {
    HelperNotExtra(g.helpers.supervisor, i);
    HelperNotExtra(g.helpers.bridge, i);
    ExtraNotPlaceholder(i);
  }

  /** Under an extra library's name only that library is added. */
  lemma LateExtraStands(g: Ground, x: Entry, i: nat)
    requires Grounded(g) && i < |ExtraLibraries()| && x.name == ExtraName(i) && LateEntry(g.host, g.helpers, g.early, x)
    ensures ExtraEntry(g.host, i, x)
  {
    NoDirectoryAtExtra(g, x, i);
    NoOtherAtExtra(g, x, i);
    var j :| 0 <= j < |ExtraLibraries()| && ExtraEntry(g.host, j, x);
    ExtraNamesDiffer(i, j);
  }

  /** What is added lies above or at a fixed name. */
  lemma LateReaches(g: Ground, y: Entry) returns (n: Text)
    requires LateEntry(g.host, g.helpers, g.early, y)
    ensures FixedName(g.helpers, n) && Parts(y.name) <= Parts(n)
    ensures !y.body.Directory? ==> n == y.name && FixedFile(g.helpers, n)
  {
    if y.body.Directory? {
      n :| LeadsInto(g.helpers, n, Parts(y.name));
    } else {
      n := y.name;
    }
  }

  lemma HelperBesideLibrary(base: Text)
    requires HelperBase(base)
    ensures !(Parts(LIBRARY) <= Parts(HelperName(base)))
  {
    HelperCanonical(base);
    LibraryParts();
    assert |Lit("libexec")| == 7 && |Lit("lib")| == 3;
  }

  lemma ShortBesideLibrary(parts: Path)
    requires |parts| <= 3 && !(parts <= Parts(LIBRARY))
    ensures !(Parts(LIBRARY) <= parts)
  {
    LibraryParts();
  }

  lemma FixedBesideLibrary(helpers: Helpers, name: Text)
    requires helpers.Based() && FixedName(helpers, name)
    ensures !(Parts(LIBRARY) <= Parts(name))
  {
    FixedNameParts(helpers, name);
    if name in MountPoints() {
      LibraryParts();
    } else if IsExtraName(name) {
      var i :| 0 <= i < |ExtraLibraries()| && name == ExtraName(i);
      ExtraIsBesideLibrary(i);
      ShortBesideLibrary(Parts(name));
    } else if name in helpers.Names() {
      HelperBesideLibrary(if name == HelperName(helpers.supervisor) then helpers.supervisor else helpers.bridge);
    } else {
      PlaceholderParts(name);
      ShortBesideLibrary(Parts(name));
    }
  }

  lemma HoldsLibraryFile(g: Ground, early: Draft, entries: seq<Entry>, name: Text)
    requires Made(g, early, entries) && HasName(entries, name)
    requires Parts(LIBRARY) <= Parts(name) && RegularAt(g.host, Parts(name))
    ensures Stands(g.host, entries, name)
  {
    var x := HasEntry(entries, name);
    if x !in g.early {
      var n := LateReaches(g, x);
      FixedBesideLibrary(g.helpers, n);
    }
    EntryHas(g.early, x);
    EarlyStands(BasisOf(g.host, g.helpers.Names()), early.entries, name);
    StillStands(g, early, entries, name);
    if Placeholder(name) { FixedBesideLibrary(g.helpers, name); }
  }

  /** What drafting gives is a finished plan. */
  lemma DraftIsFinished(host: HostTree, word: Code -> bool, helpers: Helpers, d: Draft)
    requires RealHost(host) && helpers.Based() && Drafted(host, word, helpers) == Some(d)
    ensures Finished(host, helpers, d) && Valid(d.entries, helpers.Names()) && helpers.supervisor != helpers.bridge
  {
    var g, early := DraftIsMade(host, word, helpers, d);
    HoldsHostNames(g, early, d.entries);
    HoldsAllRequested(g, early, d.entries);
    forall name | HasName(d.entries, name) && Parts(LIBRARY) <= Parts(name) && RegularAt(host, Parts(name))
      ensures Stands(host, d.entries, name)
    {
      HoldsLibraryFile(g, early, d.entries, name);
    }
    forall i | 0 <= i < |ExtraLibraries()| ensures ExtraStands(host, d.entries, i) { HoldsExtra(g, early, d.entries, i); }
    forall x | x in d.entries ensures PlanEntry(host, helpers, x) {
      if x !in g.early { assert LateEntry(host, helpers, g.early, x); }
    }
    MadeWalked(g, early, d);
  }

  lemma MadeWalked(g: Ground, early: Draft, d: Draft)
    requires Made(g, early, d.entries) && early.home == d.home
    ensures Walked(g.host, {}, d)
  {
    forall p | p in d.home ensures WalkedAt(g.host, d, p) {
      assert WalkedAt(g.host, early, p);
      CoveredGrows(g.host, early.entries, d.entries, d.home, d.home, d.home[p], g.host.children[p]);
    }
  }

  // ----- when the plan can be written -----

  /** The path is above a fixed name. */
  ghost predicate AboveFixed(helpers: Helpers, parts: Path) {
    exists n :: FixedName(helpers, n) && ProperlyAbove(parts, Parts(n))
  }

  /** The path is under one of the empty files or the link. */
  ghost predicate UnderPlaceholder(parts: Path) { exists s :: Placeholder(s) && ProperlyAbove(Parts(s), parts) }

  /**
    The condition on the host and the loader: no name asked for is a regular host file above a fixed name, and
    none lies under one of the empty files or the link.
   */
  ghost predicate Unobstructed(host: HostTree, helpers: Helpers) {
    forall name | Requested(host, name) ::
      !(RegularAt(host, Parts(name)) && AboveFixed(helpers, Parts(name))) && !UnderPlaceholder(Parts(name))
  }

  /** A fixed name of three parts starts in one of three directories. */
  lemma FixedFirst(helpers: Helpers, n: Text)
    requires helpers.Based() && FixedName(helpers, n) && |Parts(n)| == 3
    ensures Parts(n)[0] == Lit("lib") || Parts(n)[0] == Lit("usr") || Parts(n)[0] == Lit("etc")
  {
    FixedNameParts(helpers, n);
    if IsExtraName(n) {
      var i :| 0 <= i < |ExtraLibraries()| && n == ExtraName(i);
      ExtraParts(i);
    } else if n in helpers.Names() {
      HelperCanonical(if n == HelperName(helpers.supervisor) then helpers.supervisor else helpers.bridge);
    } else {
      PlaceholderFirst(n);
    }
  }

  /** The empty files and the link by their first and second parts. */
  lemma PlaceholderFirst(s: Text)
    requires Placeholder(s) && |Parts(s)| == 3
    ensures (Parts(s)[0] == Lit("etc") && Parts(s)[1] == Lit("claude-code")) || (Parts(s)[0] == Lit("usr") && Parts(s)[1] == Lit("bin"))
  {
    if s == SETTINGS { SettingsParts(); }
    else if s == MCP { McpParts(); }
    else if s == EGRESS { EgressParts(); }
    else { LinkParts(); }
  }

  lemma FirstsApart()
    ensures Lit("bin") != Lit("lib") && Lit("bin") != Lit("usr") && Lit("bin") != Lit("etc") && Lit("usr") != Lit("etc")
    ensures Lit("lib64") != Lit("lib") && Lit("lib64") != Lit("usr") && Lit("lib64") != Lit("etc")
  {
    assert Lit("usr")[0] == 117 && Lit("etc")[0] == 101 && Lit("bin")[0] == 98 && Lit("lib64")[0] == 108;
    assert |Lit("lib64")| == 5 && |Lit("lib")| == 3;
  }

  lemma HostNameNotAboveFixed(helpers: Helpers, i: nat)
    requires helpers.Based() && i < |HostNames()|
    ensures !AboveFixed(helpers, Parts(HostNames()[i]))
  {
    var p := Parts(HostNames()[i]);
    HostNameLies(i);
    FirstsApart();
    forall n | FixedName(helpers, n) ensures !ProperlyAbove(p, Parts(n)) {
      FixedNameParts(helpers, n);
      SameFirst(p, Parts(n));
      if |Parts(n)| == 3 { FixedFirst(helpers, n); }
    }
  }

  lemma SecondPart(a: seq<Text>, b: seq<Text>)
    ensures |a| > 1 && ProperlyAbove(a, b) ==> |b| > 1 && b[1] == a[1]
  {}

  lemma BundleSecond()
    ensures |Parts(TRUST_BUNDLE)| == 4 && Parts(TRUST_BUNDLE)[1] == Lit("ssl") && Lit("ssl") != Lit("claude-code")
  {
    ThreeLits("etc", "ssl", "certs", "etc/ssl/certs");
    CertificatesName();
    ChildName(CERTS, Lit("ca-certificates.crt"));
    assert |Lit("ssl")| == 3 && |Lit("claude-code")| == 11;
  }

  /** A short first part, and "ssl" after it where there are four parts. */
  predicate Clear(p: Path) {
    |p| > 0 && |p[0]| <= 5 && |p| <= 4 && (|p| == 4 ==> p[0] == Lit("etc") && p[1] == Lit("ssl"))
  }

  lemma HostNameIsClear(i: nat)
    requires i < |HostNames()|
    ensures Clear(Parts(HostNames()[i]))
  {
    HostNameLies(i);
    if i == 2 { BundleSecond(); }
    assert |Lit("usr")| == 3 && |Lit("etc")| == 3 && |Lit("bin")| == 3 && |Lit("lib64")| == 5;
  }

  lemma ClearOfPlaceholder(p: Path, s: Text)
    requires Clear(p) && Placeholder(s)
    ensures !ProperlyAbove(Parts(s), p)
  {
    PlaceholderParts(s);
    SameFirst(Parts(s), p);
    SecondPart(Parts(s), p);
    if |Parts(s)| == 3 {
      PlaceholderFirst(s);
      FirstsApart();
      BundleSecond();
    } else {
      assert |EGRESS| == 18;
    }
  }

  lemma HostNameNotUnderPlaceholder(i: nat)
    requires i < |HostNames()|
    ensures !UnderPlaceholder(Parts(HostNames()[i]))
  {
    HostNameIsClear(i);
    forall s | Placeholder(s) ensures !ProperlyAbove(Parts(s), Parts(HostNames()[i])) {
      ClearOfPlaceholder(Parts(HostNames()[i]), s);
    }
  }

  /** Only what the loader lists can be in the way: the script's own names never are. */
  lemma OnlyListedObstruct(host: HostTree, helpers: Helpers)
    requires helpers.Based()
    ensures Unobstructed(host, helpers) <==> forall name | Listed(host, name) ::
      !(RegularAt(host, Parts(name)) && AboveFixed(helpers, Parts(name))) && !UnderPlaceholder(Parts(name))
  {
    forall name | name in HostNames() ensures !AboveFixed(helpers, Parts(name)) && !UnderPlaceholder(Parts(name)) {
      var i :| 0 <= i < |HostNames()| && name == HostNames()[i];
      HostNameNotAboveFixed(helpers, i);
      HostNameNotUnderPlaceholder(i);
    }
    forall name | Listed(host, name) ensures Requested(host, name) {}
  }

  lemma EarlyBesideEarly(b: Basis, entries: seq<Entry>, x: Entry, y: Entry)
    requires Early(b, entries) && x in entries && y in entries && ProperlyAbove(Parts(x.name), Parts(y.name))
    ensures x.body.Directory?
  {
    assert EarlyEntry(b, x) && EarlyEntry(b, y);
  }

  lemma AboveBoth(a: Path, b: Path, c: Path)
    requires ProperlyAbove(a, b) && b <= c
    ensures ProperlyAbove(a, c)
  {
    assert a == c[..|a|];
  }

  lemma NoFileAboveFixed(host: HostTree, helpers: Helpers, parts: Path, n: Text)
    requires Unobstructed(host, helpers) && RequestedAt(host, parts)
    requires FixedName(helpers, n) && ProperlyAbove(parts, Parts(n))
    ensures !RegularAt(host, parts)
  {
    var name :| Requested(host, name) && parts == Parts(name);
    assert AboveFixed(helpers, Parts(name));
  }

  lemma EarlyBesideLate(g: Ground, x: Entry, y: Entry)
    requires Grounded(g) && Early(BasisOf(g.host, g.helpers.Names()), g.early) && Unobstructed(g.host, g.helpers)
    requires x in g.early && LateEntry(g.host, g.helpers, g.early, y) && ProperlyAbove(Parts(x.name), Parts(y.name))
    ensures x.body.Directory?
  {
    var b := BasisOf(g.host, g.helpers.Names());
    assert EarlyEntry(b, x);
    var n := LateReaches(g, y);
    AboveBoth(Parts(x.name), Parts(y.name), Parts(n));
    FixedNameParts(g.helpers, n);
    LibraryParts();
    if Parts(x.name) in b.asked { NoFileAboveFixed(g.host, g.helpers, Parts(x.name), n); }
  }

  lemma LateBesideLate(g: Ground, x: Entry, y: Entry)
    requires g.helpers.Based() && g.helpers.Plain() && LateEntry(g.host, g.helpers, g.early, x)
    requires LateEntry(g.host, g.helpers, g.early, y) && ProperlyAbove(Parts(x.name), Parts(y.name))
    ensures x.body.Directory?
  {
    var n := LateReaches(g, y);
    AboveBoth(Parts(x.name), Parts(y.name), Parts(n));
    var m := LateReaches(g, x);
    if !x.body.Directory? { FixedAreBeside(g.helpers, m, n); }
  }

  /** What is planned from the host under a placeholder's name leads to a name asked for there. */
  lemma NothingUnderPlaceholder(g: Ground, s: Text, y: Entry)
    requires Early(BasisOf(g.host, g.helpers.Names()), g.early) && Unobstructed(g.host, g.helpers)
    requires y in g.early && Placeholder(s)
    ensures !ProperlyAbove(Parts(s), Parts(y.name))
  {
    var b := BasisOf(g.host, g.helpers.Names());
    assert EarlyEntry(b, y);
    PlaceholderParts(s);
    LibraryParts();
    if ProperlyAbove(Parts(s), Parts(y.name)) {
      UnderIsTowards(b, Parts(s), y);
      TowardsRequested(g.host, g.helpers.Names(), Parts(s));
    }
  }

  lemma UnderIsTowards(b: Basis, parts: Path, y: Entry)
    requires EarlyEntry(b, y) && ProperlyAbove(parts, Parts(y.name))
    ensures Towards(b, parts)
  {
    PrefixIsAbove(parts, Parts(y.name));
    if y.body.Directory? {
      assert parts == Above(Parts(y.name), |parts|);
      TowardsPrefix(b, Parts(y.name), |parts|);
    }
  }

  /** What stands above a planned entry is planned. */
  lemma NamedAbove(entries: seq<Entry>, helpers: set<Text>, name: Text, y: Entry)
    requires Valid(entries, helpers) && y in entries && Canonical(name)
    requires Parts(name) != [] && ProperlyAbove(Parts(name), Parts(y.name))
    ensures HasName(entries, name)
  {
    EntriesPlanned(entries, helpers, y);
    CanonicalOrdinary(name);
    assert HasName(entries, Render(Above(Parts(y.name), |Parts(name)|)));
  }

  /** An added file replaces nothing that has something under it. */
  lemma LateBesideEarly(g: Ground, x: Entry, y: Entry)
    requires Grounded(g) && g.helpers.Plain() && Early(BasisOf(g.host, g.helpers.Names()), g.early)
    requires Unobstructed(g.host, g.helpers) && LateEntry(g.host, g.helpers, g.early, x) && y in g.early
    requires ProperlyAbove(Parts(x.name), Parts(y.name)) && Canonical(x.name)
    ensures x.body.Directory?
  {
    if Placeholder(x.name) { NothingUnderPlaceholder(g, x.name, y); }
    else if Parts(x.name) != [] { NamedAbove(g.early, g.helpers.Names(), x.name, y); }
    else if FixedName(g.helpers, x.name) { FixedNameParts(g.helpers, x.name); }
  }

  lemma PlainNames(helpers: Helpers)
    requires helpers.Based() && helpers.Plain()
    ensures AllNamesCanonical(helpers.Names())
  {
    HelperCanonical(helpers.supervisor);
    HelperCanonical(helpers.bridge);
  }

  /** On an unobstructed host only directories stand above planned names. */
  lemma UnobstructedIsOpen(g: Ground, early: Draft, entries: seq<Entry>)
    requires Made(g, early, entries) && Unobstructed(g.host, g.helpers) && g.helpers.Plain()
    ensures AncestorsAreDirectories(entries)
  {
    var b := BasisOf(g.host, g.helpers.Names());
    PlainNames(g.helpers);
    forall x, y | x in entries && y in entries && ProperlyAbove(Parts(x.name), Parts(y.name)) ensures x.body.Directory? {
      EntriesPlanned(entries, g.helpers.Names(), x);
      if x in g.early {
        if y in g.early { EarlyBesideEarly(b, g.early, x, y); } else { EarlyBesideLate(g, x, y); }
      } else {
        if y in g.early { LateBesideEarly(g, x, y); } else { LateBesideLate(g, x, y); }
      }
    }
  }

  /** Otherwise something that is no directory stands above a planned name. */
  lemma ObstructedIsBlocked(g: Ground, early: Draft, entries: seq<Entry>)
    requires Made(g, early, entries) && !Unobstructed(g.host, g.helpers) && g.helpers.Plain()
    ensures !AncestorsAreDirectories(entries)
  {
    var name :| Requested(g.host, name)
      && ((RegularAt(g.host, Parts(name)) && AboveFixed(g.helpers, Parts(name))) || UnderPlaceholder(Parts(name)));
    RequestedIsNamed(g.host, g.helpers.Names(), early, name);
    if RegularAt(g.host, Parts(name)) && AboveFixed(g.helpers, Parts(name)) {
      FileAboveFixed(g, early, entries, name);
    } else {
      PlaceholderAbove(g, early, entries, name);
    }
  }

  lemma FileAboveFixed(g: Ground, early: Draft, entries: seq<Entry>, name: Text)
    requires Made(g, early, entries) && g.helpers.Plain() && HasName(early.entries, name)
    requires RegularAt(g.host, Parts(name)) && AboveFixed(g.helpers, Parts(name))
    ensures !AncestorsAreDirectories(entries)
  {
    EarlyStands(BasisOf(g.host, g.helpers.Names()), early.entries, name);
    var n :| FixedName(g.helpers, n) && ProperlyAbove(Parts(name), Parts(n));
    FixedIsNamed(g.helpers, entries, n);
    var y := HasEntry(entries, n);
    if Placeholder(name) { FixedAreBeside(g.helpers, name, n); }
    StillStands(g, early, entries, name);
    var x := OwnEntry(g.host, name);
    assert x in entries && !x.body.Directory? && ProperlyAbove(Parts(x.name), Parts(y.name));
  }

  lemma PlaceholderStands(helpers: Helpers, entries: seq<Entry>, s: Text) returns (x: Entry)
    requires HoldsFixed(helpers, entries) && Placeholder(s)
    ensures x in entries && x.name == s && !x.body.Directory?
  {
    x := if s == SETTINGS then EmptyFile(SETTINGS) else if s == MCP then EmptyFile(MCP)
         else if s == EGRESS then EmptyFile(EGRESS) else LINK_ENTRY;
  }

  lemma PlaceholderAbove(g: Ground, early: Draft, entries: seq<Entry>, name: Text)
    requires Made(g, early, entries) && HasName(early.entries, name) && UnderPlaceholder(Parts(name))
    ensures !AncestorsAreDirectories(entries)
  {
    var s :| Placeholder(s) && ProperlyAbove(Parts(s), Parts(name));
    var x := PlaceholderStands(g.helpers, entries, s);
    var y := HasEntry(entries, name);
  }

  // ----- the one link -----

  /** The one link of a runtime plan leads to the interpreter beside it. */
  lemma RuntimeLinks(host: HostTree, helpers: Helpers, d: Draft)
    requires Finished(host, helpers, d)
    ensures LinksToFiles(d.entries)
  {
    var x := OwnPython(host, helpers, d);
    forall e | e in d.entries && e.body.Link? ensures exists y :: LinkToFile(d.entries, e, y) {
      EntryKinds(host, helpers, e);
      PythonLeads(d.entries, e, x);
    }
  }

  lemma PythonLeads(entries: seq<Entry>, e: Entry, x: Entry)
    requires e == LINK_ENTRY && x in entries && x.body.File? && x.name == PYTHON
    ensures LinkToFile(entries, e, x)
  {
    LinkIsNamed();
    PythonName();
    PythonBeside();
  }

  lemma LinkIsNamed()
    ensures Parts(PYTHON_LINK) != []
  {
    LinkParts();
  }

  lemma LastSwapped(a: Text, b: Text, last: Text, other: Text)
    ensures Parent([a, b, last]) + [other] == [a, b, other]
  {}

  lemma PythonBeside()
    ensures Parts(PYTHON) == Parent(Parts(PYTHON_LINK)) + [PYTHON_NAME]
  {
    LinkParts();
    PythonParts();
    LastSwapped(Lit("usr"), Lit("bin"), Lit("python3"), PYTHON_NAME);
  }

  lemma PythonName()
    ensures OrdinaryName(PYTHON_NAME)
  {
    OrdinaryLit("python3.12");
  }

  lemma PythonParts()
    ensures Parts(PYTHON) == [Lit("usr"), Lit("bin"), PYTHON_NAME]
  {
    ThreeLits("usr", "bin", "python3.12", "usr/bin/python3.12");
  }

  lemma OwnPython(host: HostTree, helpers: Helpers, d: Draft) returns (x: Entry)
    requires Finished(host, helpers, d)
    ensures x in d.entries && x.body.File? && x.name == PYTHON
  {
    assert HostNames()[0] == PYTHON && Stands(host, d.entries, HostNames()[0]);
    x := OwnEntry(host, PYTHON);
  }

  // ----- what cannot be written -----

  /** Something that is no directory above another entry keeps the plan from being written anywhere. */
  lemma BlockedNowhere(r: seq<Entry>, base: Tree, when: nat -> Host, dest: Path, user: int)
    requires !AncestorsAreDirectories(r) && LinksToFiles(r)
    ensures !Buildable(base, Placed(base, r, when, dest, user), user, |r|)
  {
    var x, y :| x in r && y in r && ProperlyAbove(Parts(x.name), Parts(y.name)) && !x.body.Directory?;
    var i :| 0 <= i < |r| && r[i] == x;
    var j :| 0 <= j < |r| && r[j] == y;
    OtherAboveBlocks(base, r, when, dest, user, i, j);
  }

  lemma AboveNowhere(r: seq<Entry>, x: Entry, y: Entry, base: Tree, when: nat -> Host, dest: Path, user: int)
    requires x in r && y in r && x.body.File? && ProperlyAbove(Parts(x.name), Parts(y.name))
    ensures !Buildable(base, Placed(base, r, when, dest, user), user, |r|)
  {
    var i :| 0 <= i < |r| && r[i] == x;
    var j :| 0 <= j < |r| && r[j] == y;
    FileAboveBlocks(base, r, when, dest, user, i, j);
  }

  /** A helper called ".." is inadmissible, and one called "." stands in the way of the other helper. */
  lemma DottedNowhere(helpers: Helpers, r: seq<Entry>, base: Tree, when: nat -> Host, dest: Path, user: int)
    requires helpers.Based() && !helpers.Plain() && helpers.supervisor != helpers.bridge
    requires HelperEntry(helpers.supervisor, helpers.supervisorData) in r && HelperEntry(helpers.bridge, helpers.bridgeData) in r
    ensures !(AllAdmissible(r, when, |r|) && Buildable(base, Placed(base, r, when, dest, user), user, |r|))
  {
    var a, b := HelperEntry(helpers.supervisor, helpers.supervisorData), HelperEntry(helpers.bridge, helpers.bridgeData);
    HelperCanonical(helpers.supervisor);
    HelperCanonical(helpers.bridge);
    if helpers.supervisor == DOTDOT { ParentNowhere(r, a, when); }
    else if helpers.bridge == DOTDOT { ParentNowhere(r, b, when); }
    else if helpers.supervisor == HERE {
      DotIsAbove(helpers.supervisor, helpers.bridge);
      AboveNowhere(r, a, b, base, when, dest, user);
    } else {
      DotIsAbove(helpers.bridge, helpers.supervisor);
      AboveNowhere(r, b, a, base, when, dest, user);
    }
  }

  lemma DotIsAbove(dot: Text, base: Text)
    requires dot == HERE && HelperBase(dot) && HelperBase(base) && base != HERE
    ensures ProperlyAbove(Parts(HelperName(dot)), Parts(HelperName(base)))
  {
    HelperCanonical(dot);
    HelperCanonical(base);
  }

  lemma ParentNowhere(r: seq<Entry>, e: Entry, when: nat -> Host)
    requires e in r && e.name != HERE && DOTDOT in Parts(e.name)
    ensures !AllAdmissible(r, when, |r|)
  {
    var i :| 0 <= i < |r| && r[i] == e;
    assert !AdmissibleAt(r, when, i);
  }

  /** What planning gives is a finished draft in order. */
  lemma PlanIsDraft(host: HostTree, word: Code -> bool, helpers: Helpers, r: seq<Entry>) returns (d: Draft)
    requires PlanFor(host, word, helpers) == Some(r)
    ensures Drafted(host, word, helpers) == Some(d) && r == Sort(d.entries, EntryKey) && |r| <= RUNTIME_LIMIT
    ensures SameElements(d.entries, r)
  {
    d := DraftOf(host, word, helpers);
    SortElements(d.entries, EntryKey);
  }

  lemma DraftOf(host: HostTree, word: Code -> bool, helpers: Helpers) returns (d: Draft)
    requires PlanFor(host, word, helpers).Some?
    ensures Drafted(host, word, helpers) == Some(d) && |d.entries| <= RUNTIME_LIMIT
    ensures PlanFor(host, word, helpers) == Some(Sort(d.entries, EntryKey))
  {
    d := Drafted(host, word, helpers).value;
  }

  /** The plan is a finished one: in shape, within the bound, and holding what the drafted entries hold. */
  lemma PlanIsFinished(host: HostTree, word: Code -> bool, helpers: Helpers, r: seq<Entry>) returns (d: Draft)
    requires RealHost(host) && helpers.Based() && PlanFor(host, word, helpers) == Some(r)
    ensures Drafted(host, word, helpers) == Some(d) && Finished(host, helpers, Draft(r, d.home))
    ensures Shape(r, helpers.Names()) && |r| <= RUNTIME_LIMIT && helpers.supervisor != helpers.bridge
  {
    d := PlanIsDraft(host, word, helpers, r);
    DraftIsFinished(host, word, helpers, d);
    HelpersBelow(helpers);
    SortedShape(d.entries, helpers.Names());
    FinishedWithin(host, helpers, d, r);
  }

  lemma HelpersBelow(helpers: Helpers)
    requires helpers.Based()
    ensures forall h | h in helpers.Names() :: Parts(h) != []
  {
    HelperCanonical(helpers.supervisor);
    HelperCanonical(helpers.bridge);
  }

  ghost predicate SameElements(a: seq<Entry>, b: seq<Entry>) { forall x :: x in a <==> x in b }

  lemma SameNames(a: seq<Entry>, b: seq<Entry>)
    requires SameElements(a, b)
    ensures forall n :: HasName(a, n) <==> HasName(b, n)
  {
    IncludesKeeps(a, b);
    IncludesKeeps(b, a);
  }

  lemma RequestedSame(host: HostTree, a: seq<Entry>, b: seq<Entry>)
    requires SameElements(a, b) && HoldsRequested(host, a)
    ensures HoldsRequested(host, b)
  {
    SameNames(a, b);
    forall name | Requested(host, name)
      ensures HasName(b, name) && (RegularAt(host, Parts(name)) ==> Stands(host, b, name) || Placeholder(name))
    {
      assert Stands(host, a, name) ==> Stands(host, b, name);
    }
  }

  lemma LibrarySame(host: HostTree, a: seq<Entry>, b: seq<Entry>)
    requires SameElements(a, b) && HoldsLibrary(host, a)
    ensures HoldsLibrary(host, b)
  {
    SameNames(a, b);
    forall name | HasName(b, name) && Parts(LIBRARY) <= Parts(name) && RegularAt(host, Parts(name)) ensures Stands(host, b, name) {
      assert Stands(host, a, name);
    }
  }

  lemma FixedSame(helpers: Helpers, a: seq<Entry>, b: seq<Entry>)
    requires SameElements(a, b) && HoldsFixed(helpers, a)
    ensures HoldsFixed(helpers, b)
  {
    SameNames(a, b);
  }

  lemma WalkedSame(host: HostTree, d: Draft, r: seq<Entry>)
    requires SameElements(d.entries, r) && Walked(host, {}, d)
    ensures Walked(host, {}, Draft(r, d.home))
  {
    HomeStill(host, d, r);
  }

  lemma FinishedWithin(host: HostTree, helpers: Helpers, d: Draft, r: seq<Entry>)
    requires Finished(host, helpers, d) && SameElements(d.entries, r)
    ensures Finished(host, helpers, Draft(r, d.home))
  {
    RequestedSame(host, d.entries, r);
    LibrarySame(host, d.entries, r);
    FixedSame(helpers, d.entries, r);
    WalkedSame(host, d, r);
    StandStill(host, d.entries, r, HostNames());
    forall i | 0 <= i < |ExtraLibraries()| ensures ExtraStands(host, r, i) { ExtraSame(host, d.entries, r, i); }
  }

  lemma ExtraSame(host: HostTree, a: seq<Entry>, b: seq<Entry>, i: nat)
    requires SameElements(a, b) && i < |ExtraLibraries()| && ExtraStands(host, a, i)
    ensures ExtraStands(host, b, i)
  {}

  /**
    On an unobstructed host, with helpers called neither "." nor "..", the plan is well formed; otherwise
    materialize refuses it on every disk, at every destination and whatever the host holds by then.
   */
  lemma PlanWellFormedOrNowhere(host: HostTree, word: Code -> bool, helpers: Helpers, r: seq<Entry>,
                                base: Tree, when: nat -> Host, dest: Path, user: int)
    requires RealHost(host) && helpers.Based() && PlanFor(host, word, helpers) == Some(r)
    ensures Unobstructed(host, helpers) && helpers.Plain() ==> WellFormed(r)
    ensures !(Unobstructed(host, helpers) && helpers.Plain()) ==>
      !(AllAdmissible(r, when, |r|) && Buildable(base, Placed(base, r, when, dest, user), user, |r|))
  {
    var d := PlanIsFinished(host, word, helpers, r);
    var same := PlanIsDraft(host, word, helpers, r);
    var g, early := DraftIsMade(host, word, helpers, d);
    if !helpers.Plain() {
      DottedNowhere(helpers, r, base, when, dest, user);
    } else if Unobstructed(host, helpers) {
      UnobstructedIsOpen(g, early, d.entries);
      PlainNames(helpers);
      ShapeWellFormed(r, helpers.Names());
    } else {
      ObstructedIsBlocked(g, early, d.entries);
      RuntimeLinks(host, helpers, Draft(r, d.home));
      BlockedNowhere(r, base, when, dest, user);
    }
  }

  /**
    The script's own plan goes into a free place, its sources still there, exactly when no name that it asks
    the host for is a regular file above a fixed name or lies under an empty file or the link, and neither
    helper is called "." or "..".
   */
  lemma PlanWritableIff(host: HostTree, word: Code -> bool, helpers: Helpers, r: seq<Entry>,
                        base: Tree, when: nat -> Host, dest: Path, user: int)
    requires RealHost(host) && helpers.Based() && PlanFor(host, word, helpers) == Some(r)
    requires Ready(base, user, dest) && forall i | 0 <= i < |r| :: Copy(r[i], when(i)).Some?
    ensures AllAdmissible(r, when, |r|) && Buildable(base, Placed(base, r, when, dest, user), user, |r|)
       <==> Unobstructed(host, helpers) && helpers.Plain()
  {
    PlanWellFormedOrNowhere(host, word, helpers, r, base, when, dest, user);
    if Unobstructed(host, helpers) && helpers.Plain() { WellFormedCompletes(base, r, when, dest, user); }
  }
}
