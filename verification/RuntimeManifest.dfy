/** What a runtime plan holds, name by name (scripts/claude_host_artifacts.py, runtime_plan). */
module RuntimeManifest {
  import opened Texts
  import opened Wrappers
  import opened Sorting
  import opened PathParts
  import opened ArtifactInventory
  import opened FileSystem
  import opened Materialize
  import opened RuntimeShape
  import opened RuntimeNames
  import opened RuntimePlan
  import opened RuntimeContents
  import opened RuntimeWritable

  ghost predicate Named(r: seq<Entry>, name: Text) { exists e :: e in r && e.name == name }

  lemma NamedIsHasName(r: seq<Entry>, name: Text)
    ensures Named(r, name) <==> HasName(r, name)
  {
    if HasName(r, name) { var x := HasEntry(r, name); }
    if e :| e in r && e.name == name { EntryHas(r, e); }
  }

  // ----- the binaries whose libraries are asked for -----

  predicate SharedName(name: Text) { |name| >= 3 && name[|name| - 3..] == Lit(".so") }

  ghost predicate Lists(host: HostTree, place: Path, name: Text) {
    place in host.children && exists c :: c in host.children[place] && c.name == name
  }

  /** A name that ends in ".so", listed below a place in real directories alone. */
  ghost predicate SharedAt(host: HostTree, place: Path, rel: Path)
    decreases |rel|
  {
    && rel != [] && Lists(host, place, rel[0])
    && if |rel| == 1 then SharedName(rel[0]) else SharedAt(host, place + [rel[0]], rel[1..])
  }

  ghost predicate IsLibrary(host: HostTree, y: Path) {
    exists place, rel :: SharedAt(host, place, rel)
      && host.directory([Lit("usr"), Lit("lib"), Lit("python3.12")]) == Some(place)
      && y == [Lit("usr"), Lit("lib"), Lit("python3.12")] + rel
  }

  /** The interpreter, git, the shell and every shared library below the library directory. */
  ghost predicate IsBinary(host: HostTree, y: Path) {
    || y == [Lit("usr"), Lit("bin"), Lit("python3.12")] || y == [Lit("usr"), Lit("bin"), Lit("git")]
    || y == [Lit("bin"), Lit("sh")] || IsLibrary(host, y)
  }

  /** The names that the scan of these children gives. */
  ghost predicate SharedAmong(host: HostTree, place: Path, children: seq<Child>, rel: Path) {
    && rel != [] && (exists c :: c in children && c.name == rel[0])
    && if |rel| == 1 then SharedName(rel[0]) else SharedAt(host, place + [rel[0]], rel[1..])
  }

  lemma AmongAll(host: HostTree, place: Path, rel: Path)
    requires place in host.children
    ensures SharedAmong(host, place, host.children[place], rel) <==> SharedAt(host, place, rel)
  {}

  lemma FirstAmong(host: HostTree, place: Path, children: seq<Child>, rel: Path)
    requires children != []
    ensures SharedAmong(host, place, children, rel) <==>
      SharedAmong(host, place, children[1..], rel)
      || (rel != [] && rel[0] == children[0].name
          && if |rel| == 1 then SharedName(rel[0]) else SharedAt(host, place + [rel[0]], rel[1..]))
  {
    assert children == [children[0]] + children[1..];
  }

  lemma {:induction false} SharedFound(host: HostTree, place: Path, source: Path, children: seq<Child>, rel: Path)
    requires place in host.children && SharedAmong(host, place, children, rel)
    ensures source + rel in SharedIn(host, place, source, children)
    decreases Below(host, place), |children|
  {
    var name := children[0].name;
    BelowShrinks(host, place, name);
    FirstAmong(host, place, children, rel);
    if SharedAmong(host, place, children[1..], rel) {
      SharedFound(host, place, source, children[1..], rel);
    } else if |rel| > 1 {
      var deeper := place + [name];
      AmongAll(host, deeper, rel[1..]);
      SharedFound(host, deeper, source + [name], host.children[deeper], rel[1..]);
      assert source + [name] + rel[1..] == source + rel;
    } else {
      assert rel == [name];
    }
  }

  lemma DeeperIsShared(host: HostTree, place: Path, children: seq<Child>, rest: Path)
    requires children != [] && place + [children[0].name] in host.children
    requires SharedAmong(host, place + [children[0].name], host.children[place + [children[0].name]], rest)
    ensures SharedAmong(host, place, children, [children[0].name] + rest)
  {
    var rel := [children[0].name] + rest;
    AmongAll(host, place + [children[0].name], rest);
    assert rel[1..] == rest;
    FirstAmong(host, place, children, rel);
  }

  lemma {:induction false} FoundIsShared(host: HostTree, place: Path, source: Path, children: seq<Child>, y: Path)
    returns (rel: Path)
    requires place in host.children && y in SharedIn(host, place, source, children)
    ensures SharedAmong(host, place, children, rel) && y == source + rel
    decreases Below(host, place), |children|
  {
    var name := children[0].name;
    var deeper := place + [name];
    BelowShrinks(host, place, name);
    if y in SharedIn(host, place, source, children[1..]) {
      rel := FoundIsShared(host, place, source, children[1..], y);
      FirstAmong(host, place, children, rel);
    } else if EndsWith(name, SHARED_SUFFIX) && y == source + [name] {
      rel := [name];
      FirstAmong(host, place, children, rel);
    } else {
      var rest := FoundIsShared(host, deeper, source + [name], host.children[deeper], y);
      rel := [name] + rest;
      DeeperIsShared(host, place, children, rest);
      ConcatAssociative(source, [name], rest);
    }
  }

  lemma LibrariesAre(host: HostTree, y: Path)
    ensures y in Libraries(host) <==> IsLibrary(host, y)
  {
    LibraryParts();
    var place := host.directory(Parts(LIBRARY));
    if place.Some? && place.value in host.children {
      var found := SharedIn(host, place.value, Parts(LIBRARY), host.children[place.value]);
      SortElements(found, (p: Path) => PartsKey(p));
      if y in found {
        var rel := FoundIsShared(host, place.value, Parts(LIBRARY), host.children[place.value], y);
        AmongAll(host, place.value, rel);
      }
      forall rel | SharedAt(host, place.value, rel) ensures Parts(LIBRARY) + rel in found {
        AmongAll(host, place.value, rel);
        SharedFound(host, place.value, Parts(LIBRARY), host.children[place.value], rel);
      }
    }
  }

  /** Exactly these binaries are given to the loader. */
  lemma BinariesAre(host: HostTree, y: Path)
    ensures y in Binaries(host) <==> IsBinary(host, y)
  {
    LibrariesAre(host, y);
    BinaryParts();
    AmongBinaries(Parts(PYTHON), Parts(GIT_BINARY), Parts(SHELL), Libraries(host), y);
  }

  lemma AmongBinaries(a: Path, b: Path, c: Path, rest: seq<Path>, y: Path)
    ensures y in [a, b, c] + rest <==> y == a || y == b || y == c || y in rest
  {}

  lemma GitParts()
    ensures Parts(GIT_BINARY) == [Lit("usr"), Lit("bin"), Lit("git")]
  {
    ThreeLits("usr", "bin", "git", "usr/bin/git");
  }

  lemma ShellParts()
    ensures Parts(SHELL) == [Lit("bin"), Lit("sh")]
  {
    TwoLits("bin", "sh", "bin/sh");
  }

  lemma BinaryParts()
    ensures Parts(PYTHON) == [Lit("usr"), Lit("bin"), Lit("python3.12")]
    ensures Parts(GIT_BINARY) == [Lit("usr"), Lit("bin"), Lit("git")] && Parts(SHELL) == [Lit("bin"), Lit("sh")]
  {
    PythonParts();
    GitParts();
    ShellParts();
  }

  // ----- host files -----

  /** The host's regular file at this path, as it is planned under a name: executable or not. */
  ghost predicate FileFrom(host: HostTree, p: Path, name: Text, e: Entry) {
    && host.file(p).Some? && host.file(p).value.regular
    && e == Entry(name, if host.file(p).value.executable then 365 else 292, File(HostFile(host.file(p).value.place)))
  }

  /** What follows n slashes, and does not start with another. */
  predicate StrippedBy(t: Text, name: Text, n: nat) {
    n <= |t| && name == t[n..] && (forall i | 0 <= i < n :: t[i] == SLASH) && (name != [] ==> name[0] != SLASH)
  }

  /** A name with its leading slashes taken off. */
  ghost predicate IsStripped(t: Text, name: Text) { exists n: nat :: StrippedBy(t, name, n) }

  lemma StrippedNoLess(t: Text, a: Text, m: nat, b: Text, n: nat)
    requires StrippedBy(t, a, m) && StrippedBy(t, b, n)
    ensures n <= m
  {
    assert m < |t| ==> a != [] && a[0] == t[m];
  }

  lemma StrippedIsOne(t: Text, a: Text, b: Text)
    requires IsStripped(t, a) && IsStripped(t, b)
    ensures a == b
  {
    var m: nat :| StrippedBy(t, a, m);
    var n: nat :| StrippedBy(t, b, n);
    StrippedNoLess(t, a, m, b, n);
    StrippedNoLess(t, b, n, a, m);
  }

  /** One of these names with its leading slashes taken off. */
  ghost predicate SomeStripped(found: seq<Text>, name: Text) { exists t :: t in found && IsStripped(t, name) }

  /** The names asked for by name: the five of the script, and all that the loader lists for a binary. */
  ghost predicate AskedFor(host: HostTree, name: Text) {
    || name == Lit("usr/bin/python3.12") || name == Lit("usr/bin/git") || name == Lit("etc/ssl/certs/ca-certificates.crt")
    || name == Lit("bin/sh") || name == Lit("lib64/ld-linux-x86-64.so.2")
    || exists y :: IsBinary(host, y) && host.dependencies(y).Some? && SomeStripped(host.dependencies(y).value, name)
  }

  lemma LitSlash(a: string, b: string, name: string)
    requires name == a + "/" + b
    ensures Lit(a) + [SLASH] + Lit(b) == Lit(name)
  {}

  lemma BundleLit()
    ensures TRUST_BUNDLE == Lit("etc/ssl/certs/ca-certificates.crt")
  {
    LitSlash("etc/ssl/certs", "ca-certificates.crt", "etc/ssl/certs/ca-certificates.crt");
  }

  lemma LoaderLit()
    ensures LOADER == Lit("lib64/ld-linux-x86-64.so.2")
  {
    LitSlash("lib64", "ld-linux-x86-64.so.2", "lib64/ld-linux-x86-64.so.2");
  }

  lemma HostNamesAre(name: Text)
    ensures name in HostNames() <==>
      || name == Lit("usr/bin/python3.12") || name == Lit("usr/bin/git") || name == Lit("etc/ssl/certs/ca-certificates.crt")
      || name == Lit("bin/sh") || name == Lit("lib64/ld-linux-x86-64.so.2")
  {
    BundleLit();
    LoaderLit();
  }

  lemma StrippedIs(t: Text, name: Text)
    ensures name == Lstrip(t) <==> IsStripped(t, name)
  {
    assert StrippedBy(t, Lstrip(t), |t| - |Lstrip(t)|);
    if IsStripped(t, name) { StrippedIsOne(t, name, Lstrip(t)); }
  }

  lemma StrippedAt(found: seq<Text>, i: nat, name: Text)
    requires i < |found|
    ensures Stripped(found)[i] == name <==> IsStripped(found[i], name)
  {
    StrippedIs(found[i], name);
  }

  lemma StrippedHas(found: seq<Text>, name: Text)
    ensures name in Stripped(found) <==> SomeStripped(found, name)
  {
    if name in Stripped(found) {
      var i :| 0 <= i < |found| && Stripped(found)[i] == name;
      StrippedAt(found, i, name);
      assert found[i] in found;
    }
    if SomeStripped(found, name) { StrippedFrom(found, name); }
  }

  lemma StrippedFrom(found: seq<Text>, name: Text)
    requires SomeStripped(found, name)
    ensures name in Stripped(found)
  {
    var t :| t in found && IsStripped(t, name);
    var i :| 0 <= i < |found| && found[i] == t;
    StrippedAt(found, i, name);
  }

  lemma ListedForIs(host: HostTree, y: Path, name: Text)
    ensures ListedFor(host, y, name) <==> host.dependencies(y).Some? && SomeStripped(host.dependencies(y).value, name)
  {
    if host.dependencies(y).Some? { StrippedHas(host.dependencies(y).value, name); }
  }

  lemma ListedIs(host: HostTree, name: Text)
    ensures Listed(host, name) <==> exists y :: IsBinary(host, y) && ListedFor(host, y, name)
  {
    if Listed(host, name) {
      var i :| 0 <= i < |Binaries(host)| && ListedFor(host, Binaries(host)[i], name);
      BinariesAre(host, Binaries(host)[i]);
    }
    if y :| IsBinary(host, y) && ListedFor(host, y, name) {
      BinariesAre(host, y);
      var i :| 0 <= i < |Binaries(host)| && Binaries(host)[i] == y;
      assert Listed(host, name);
    }
  }

  lemma RequestedIs(host: HostTree, name: Text)
    ensures Requested(host, name) <==> AskedFor(host, name)
  {
    HostNamesAre(name);
    ListedIs(host, name);
    forall y { ListedForIs(host, y, name); }
  }

  // ----- what is planned because it is asked for -----

  predicate EmptyOrLink(name: Text) {
    || name == Lit("etc/claude-code/managed-settings.json") || name == Lit("etc/claude-code/managed-mcp.json")
    || name == Lit("vendor-egress.sock") || name == Lit("usr/bin/python3")
  }

  lemma SettingsLit()
    ensures SETTINGS == Lit("etc/claude-code/managed-settings.json")
  {
    LitSlash("etc/claude-code", "managed-settings.json", "etc/claude-code/managed-settings.json");
  }

  lemma McpLit()
    ensures MCP == Lit("etc/claude-code/managed-mcp.json")
  {
    LitSlash("etc/claude-code", "managed-mcp.json", "etc/claude-code/managed-mcp.json");
  }

  lemma PlaceholderIs(name: Text)
    ensures Placeholder(name) <==> EmptyOrLink(name)
  {
    SettingsLit();
    McpLit();
  }

  /**
    Every name asked for is planned: the five of the script, and whatever the loader lists for the interpreter, git,
    the shell or a shared library.  Where the host has a regular file there, that is the file planned, unless the
    name is one of the three empty files' or the link's.
   */
  lemma AskedIsPlanned(host: HostTree, word: Code -> bool, helpers: Helpers, r: seq<Entry>, name: Text)
    requires RealHost(host) && helpers.Based() && PlanFor(host, word, helpers) == Some(r) && AskedFor(host, name)
    ensures Named(r, name)
    ensures RegularAt(host, Parts(name)) && !EmptyOrLink(name) ==>
      exists e :: e in r && FileFrom(host, Parts(name), name, e)
  {
    var d := PlanIsFinished(host, word, helpers, r);
    RequestedIs(host, name);
    PlaceholderIs(name);
    NamedIsHasName(r, name);
    if RegularAt(host, Parts(name)) && !Placeholder(name) {
      assert Stands(host, r, name);
      assert FileFrom(host, Parts(name), name, OwnEntry(host, name));
    }
  }

  /** The loader answers for every binary. */
  lemma EveryBinaryAnswers(host: HostTree, word: Code -> bool, helpers: Helpers, r: seq<Entry>, y: Path)
    requires RealHost(host) && helpers.Based() && PlanFor(host, word, helpers) == Some(r) && IsBinary(host, y)
    ensures host.dependencies(y).Some?
  {
    var d := PlanIsDraft(host, word, helpers, r);
    var g, early := DraftIsMade(host, word, helpers, d);
    BinariesAre(host, y);
    assert Linked(host, early.entries, y);
  }

  // ----- the library tree -----

  predicate PassedOver(name: Text) {
    || name == Lit("__pycache__") || name == Lit("test") || name == Lit("tests") || name == Lit("ensurepip")
    || name == Lit("idlelib")
  }

  /** A path below a source, listed step by step through what may be links to directories, and passed over nowhere. */
  ghost predicate ListedBelow(host: HostTree, source: Path, rel: Path)
    decreases |rel|
  {
    && rel != [] && host.directory(source).Some? && host.directory(source).value in host.children && !PassedOver(rel[0])
    && exists c :: c in host.children[host.directory(source).value] && c.name == rel[0]
         && (|rel| > 1 ==> c.isDirectory && ListedBelow(host, source + [rel[0]], rel[1..]))
  }

  function NameBelow(name: Text, rel: Path): Text
    decreases |rel|
  {
    if rel == [] then name else NameBelow(name + Lit("/") + rel[0], rel[1..])
  }

  /** Whatever is listed below a walked directory is planned below its name. */
  lemma {:induction false} WalkReaches(host: HostTree, d: Draft, o: Origin, rel: Path)
    requires Walked(host, {}, d) && WalkedFrom(host, d.home, o) && ListedBelow(host, o.source, rel)
    ensures HasName(d.entries, NameBelow(o.name, rel))
    decreases |rel|
  {
    var place := host.directory(o.source).value;
    assert WalkedAt(host, d, place);
    var c :| c in host.children[place] && c.name == rel[0]
      && (|rel| > 1 ==> c.isDirectory && ListedBelow(host, o.source + [rel[0]], rel[1..]));
    assert ChildCovered(host, d.entries, d.home, o, c);
    assert Lit("/") == [SLASH];
    assert !Ignored(c.name);
    if |rel| > 1 {
      WalkReaches(host, d, Origin(o.source + [rel[0]], o.name + Lit("/") + rel[0]), rel[1..]);
    } else {
      OneBelow(o.name, rel);
    }
  }

  lemma OneBelow(name: Text, rel: Path)
    requires |rel| == 1
    ensures NameBelow(name, rel) == name + Lit("/") + rel[0]
  {
    assert rel[1..] == [];
  }

  /** Everything in the library tree is planned, but for the five names that are passed over and what is below them. */
  lemma LibraryIsPlanned(host: HostTree, word: Code -> bool, helpers: Helpers, r: seq<Entry>, rel: Path)
    requires RealHost(host) && helpers.Based() && PlanFor(host, word, helpers) == Some(r)
    requires ListedBelow(host, [Lit("usr"), Lit("lib"), Lit("python3.12")], rel)
    ensures Named(r, NameBelow(Lit("usr/lib/python3.12"), rel))
  {
    var d := PlanIsFinished(host, word, helpers, r);
    LibraryParts();
    WalkReaches(host, Draft(r, d.home), Origin(Parts(LIBRARY), LIBRARY), rel);
    NamedIsHasName(r, NameBelow(LIBRARY, rel));
  }

  // ----- what is planned whatever the host -----

  lemma HelperLit(base: Text)
    ensures HelperName(base) == Lit("usr/libexec/") + base
  {
    assert LIBEXEC + [SLASH] == Lit("usr/libexec/");
  }

  lemma ExtraLit(i: nat)
    requires i < |ExtraLibraries()|
    ensures ExtraName(0) == Lit("lib/x86_64-linux-gnu/librt.so.1")
    ensures ExtraName(1) == Lit("lib/x86_64-linux-gnu/libpthread.so.0")
    ensures ExtraName(2) == Lit("lib/x86_64-linux-gnu/libdl.so.2")
  {
    LitSlash("lib/x86_64-linux-gnu", "librt.so.1", "lib/x86_64-linux-gnu/librt.so.1");
    LitSlash("lib/x86_64-linux-gnu", "libpthread.so.0", "lib/x86_64-linux-gnu/libpthread.so.0");
    LitSlash("lib/x86_64-linux-gnu", "libdl.so.2", "lib/x86_64-linux-gnu/libdl.so.2");
  }

  lemma EmptyFilesAre()
    ensures EmptyFile(SETTINGS) == Entry(Lit("etc/claude-code/managed-settings.json"), 292, File(Data([])))
    ensures EmptyFile(MCP) == Entry(Lit("etc/claude-code/managed-mcp.json"), 292, File(Data([])))
    ensures EmptyFile(EGRESS) == Entry(Lit("vendor-egress.sock"), 292, File(Data([])))
  {
    SettingsLit();
    McpLit();
  }

  lemma LinkIs()
    ensures LINK_ENTRY == Entry(Lit("usr/bin/python3"), 511, Link(Lit("python3.12")))
  {}

  lemma HelperIs(base: Text, data: Text)
    ensures HelperEntry(base, data) == Entry(Lit("usr/libexec/") + base, 292, File(Data(data)))
  {
    HelperLit(base);
  }

  lemma RootIs()
    ensures Entry(HERE, MODE_555, Directory) == Entry(Lit("."), 365, Directory)
  {}

  /** The root, the empty files, the link and the helpers are these entries. */
  lemma FixedEntriesArePlanned(host: HostTree, word: Code -> bool, helpers: Helpers, r: seq<Entry>)
    requires RealHost(host) && helpers.Based() && PlanFor(host, word, helpers) == Some(r)
    ensures r != [] && r[0] == Entry(Lit("."), 365, Directory)
    ensures Entry(Lit("etc/claude-code/managed-settings.json"), 292, File(Data([]))) in r
    ensures Entry(Lit("etc/claude-code/managed-mcp.json"), 292, File(Data([]))) in r
    ensures Entry(Lit("vendor-egress.sock"), 292, File(Data([]))) in r
    ensures Entry(Lit("usr/bin/python3"), 511, Link(Lit("python3.12"))) in r
    ensures Entry(Lit("usr/libexec/") + helpers.supervisor, 292, File(Data(helpers.supervisorData))) in r
    ensures Entry(Lit("usr/libexec/") + helpers.bridge, 292, File(Data(helpers.bridgeData))) in r
    ensures helpers.supervisor != helpers.bridge && |r| <= 20000
  {
    PlanHoldsFixed(host, word, helpers, r);
    RootIs();
    EmptyFilesAre();
    LinkIs();
    HelperIs(helpers.supervisor, helpers.supervisorData);
    HelperIs(helpers.bridge, helpers.bridgeData);
  }

  lemma PlanHoldsFixed(host: HostTree, word: Code -> bool, helpers: Helpers, r: seq<Entry>)
    requires RealHost(host) && helpers.Based() && PlanFor(host, word, helpers) == Some(r)
    ensures r != [] && r[0] == Entry(HERE, MODE_555, Directory)
    ensures HoldsFixed(helpers, r) && helpers.supervisor != helpers.bridge && |r| <= 20000
  {
    var d := PlanIsFinished(host, word, helpers, r);
  }

  /** So are these names. */
  lemma FixedNamesArePlanned(host: HostTree, word: Code -> bool, helpers: Helpers, r: seq<Entry>)
    requires RealHost(host) && helpers.Based() && PlanFor(host, word, helpers) == Some(r)
    ensures Named(r, Lit("proc")) && Named(r, Lit("dev")) && Named(r, Lit("tmp")) && Named(r, Lit("workspace"))
    ensures Named(r, Lit("opt/claude")) && Named(r, Lit("etc/claude-code"))
    ensures Named(r, Lit("lib/x86_64-linux-gnu/librt.so.1")) && Named(r, Lit("lib/x86_64-linux-gnu/libpthread.so.0"))
    ensures Named(r, Lit("lib/x86_64-linux-gnu/libdl.so.2"))
  {
    PlanHoldsFixed(host, word, helpers, r);
    MountsNamed(r);
    ExtraLit(0);
    assert HasName(r, ExtraName(0)) && HasName(r, ExtraName(1)) && HasName(r, ExtraName(2));
    NamedIsHasName(r, ExtraName(0));
    NamedIsHasName(r, ExtraName(1));
    NamedIsHasName(r, ExtraName(2));
  }

  lemma MountsNamed(r: seq<Entry>)
    requires AllNamed(r, MountPoints())
    ensures Named(r, Lit("proc")) && Named(r, Lit("dev")) && Named(r, Lit("tmp")) && Named(r, Lit("workspace"))
    ensures Named(r, Lit("opt/claude")) && Named(r, Lit("etc/claude-code"))
  {
    var m := MountPoints();
    assert m[0] in m && m[1] in m && m[2] in m && m[3] in m && m[4] in m && m[5] in m;
    NamedIsHasName(r, m[0]);
    NamedIsHasName(r, m[1]);
    NamedIsHasName(r, m[2]);
    NamedIsHasName(r, m[3]);
    NamedIsHasName(r, m[4]);
    NamedIsHasName(r, m[5]);
  }

  // ----- and nothing else -----

  /** One of the script's own entries: an empty file, the link, or a helper with its reviewed bytes. */
  ghost predicate OwnEntryOf(helpers: Helpers, e: Entry) {
    || (EmptyOrLink(e.name) && e.name != Lit("usr/bin/python3") && e.mode == 292 && e.body == File(Data([])))
    || e == Entry(Lit("usr/bin/python3"), 511, Link(Lit("python3.12")))
    || e == Entry(Lit("usr/libexec/") + helpers.supervisor, 292, File(Data(helpers.supervisorData)))
    || e == Entry(Lit("usr/libexec/") + helpers.bridge, 292, File(Data(helpers.bridgeData)))
  }

  ghost predicate AskedAt(host: HostTree, p: Path) { exists name :: AskedFor(host, name) && p == Parts(name) }

  ghost predicate InLibrary(host: HostTree, p: Path) {
    exists rel :: ListedBelow(host, [Lit("usr"), Lit("lib"), Lit("python3.12")], rel)
      && p == [Lit("usr"), Lit("lib"), Lit("python3.12")] + rel
  }

  predicate ExtraLibrary(n: Text) { n == Lit("librt.so.1") || n == Lit("libpthread.so.0") || n == Lit("libdl.so.2") }

  /** A host file within 64 MiB, at a path asked for or listed in the library tree, or one of the extra libraries. */
  ghost predicate HostEntryOf(host: HostTree, e: Entry) {
    exists p :: FileFrom(host, p, e.name, e) && host.file(p).value.size <= 67108864
      && ((p == Parts(e.name) && (AskedAt(host, p) || InLibrary(host, p)))
          || exists n :: p == [Lit("usr"), Lit("lib"), Lit("x86_64-linux-gnu"), n] && e.name == Lit("lib/x86_64-linux-gnu/") + n
               && ExtraLibrary(n))
  }

  lemma OneListed(host: HostTree, q: Path, isDirectory: bool, rest: Path)
    requires ListedAt(host, q, isDirectory) && (rest != [] ==> isDirectory && ListedBelow(host, q, rest))
    ensures ListedBelow(host, Parent(q), [q[|q| - 1]] + rest)
  {
    var rel := [q[|q| - 1]] + rest;
    assert rel[1..] == rest && Parent(q) + [rel[0]] == q;
  }

  /** What a walk comes to is listed step by step. */
  lemma {:induction false} ReachedIsListed(host: HostTree, base: Path, q: Path, rest: Path)
    requires Reached(host, base, q) && ListedBelow(host, q, rest)
    ensures ListedBelow(host, base, q[|base|..] + rest)
    decreases |q|
  {
    if q == base {
      assert q[|base|..] + rest == rest;
    } else {
      OneListed(host, q, true, rest);
      ReachedIsListed(host, base, Parent(q), [q[|q| - 1]] + rest);
      assert Parent(q)[|base|..] + ([q[|q| - 1]] + rest) == q[|base|..] + rest;
    }
  }

  lemma ReachedBelow(host: HostTree, base: Path, q: Path) returns (rel: Path)
    requires ReachedFile(host, base, q) || (Reached(host, base, q) && q != base)
    ensures ListedBelow(host, base, rel) && q == base + rel
  {
    var last := q[|q| - 1];
    var isDirectory := !ReachedFile(host, base, q);
    OneListed(host, q, isDirectory, []);
    assert [last] + [] == [last];
    ReachedIsListed(host, base, Parent(q), [last]);
    rel := Parent(q)[|base|..] + [last];
    assert base + rel == q;
  }

  lemma ReachedInLibrary(host: HostTree, base: Path, q: Path)
    requires base == [Lit("usr"), Lit("lib"), Lit("python3.12")]
    requires ReachedFile(host, base, q) || (Reached(host, base, q) && q != base)
    ensures InLibrary(host, q)
  {
    var rel := ReachedBelow(host, base, q);
  }

  lemma HostLibParts()
    ensures Parts(HOST_LIB) == [Lit("usr"), Lit("lib"), Lit("x86_64-linux-gnu")]
  {
    ThreeLits("usr", "lib", "x86_64-linux-gnu", "usr/lib/x86_64-linux-gnu");
  }

  lemma ExtraPathIs(i: nat)
    requires i < |ExtraLibraries()|
    ensures ExtraPath(i) == [Lit("usr"), Lit("lib"), Lit("x86_64-linux-gnu"), ExtraLibraries()[i]]
    ensures ExtraName(i) == Lit("lib/x86_64-linux-gnu/") + ExtraLibraries()[i]
  {
    HostLibParts();
    assert MULTIARCH + [SLASH] == Lit("lib/x86_64-linux-gnu/");
  }

  lemma ExtraIsHostEntry(host: HostTree, e: Entry)
    requires IsExtraEntry(host, e)
    ensures HostEntryOf(host, e)
  {
    var i :| 0 <= i < |ExtraLibraries()| && ExtraEntry(host, i, e);
    ExtraPathIs(i);
    FromExtra(host, e, ExtraPath(i), ExtraLibraries()[i]);
  }

  lemma FromExtra(host: HostTree, e: Entry, p: Path, n: Text)
    requires Usable(host, p, false) && e == FileEntry(e.name, host.file(p).value)
    requires p == [Lit("usr"), Lit("lib"), Lit("x86_64-linux-gnu"), n] && e.name == Lit("lib/x86_64-linux-gnu/") + n
    requires ExtraLibrary(n)
    ensures HostEntryOf(host, e)
  {
    assert FileFrom(host, p, e.name, e);
  }

  lemma EarlyIsHostEntry(host: HostTree, helpers: set<Text>, e: Entry)
    requires EarlyEntry(BasisOf(host, helpers), e) && !e.body.Directory?
    ensures HostEntryOf(host, e)
  {
    var p := Parts(e.name);
    assert FileFrom(host, p, e.name, e);
    if RequestedAt(host, p) {
      var name :| Requested(host, name) && p == Parts(name);
      RequestedIs(host, name);
      assert AskedAt(host, p);
    } else {
      LibraryParts();
      ReachedInLibrary(host, Parts(LIBRARY), p);
    }
  }

  lemma PlaceholderIsOwn(helpers: Helpers, e: Entry)
    requires IsPlaceholderEntry(e)
    ensures OwnEntryOf(helpers, e)
  {
    EmptyFilesAre();
    LinkIs();
    if e == LINK_ENTRY { return; }
    NotTheLink();
  }

  lemma NotTheLink()
    ensures Lit("etc/claude-code/managed-settings.json") != Lit("usr/bin/python3")
    ensures Lit("etc/claude-code/managed-mcp.json") != Lit("usr/bin/python3") && Lit("vendor-egress.sock") != Lit("usr/bin/python3")
  {
    assert Lit("usr/bin/python3")[0] == 117 && Lit("vendor-egress.sock")[0] == 118;
    assert Lit("etc/claude-code/managed-settings.json")[0] == 101 && Lit("etc/claude-code/managed-mcp.json")[0] == 101;
  }

  lemma HelperIsOwn(helpers: Helpers, e: Entry)
    requires IsHelperEntry(helpers, e)
    ensures OwnEntryOf(helpers, e)
  {
    HelperIs(helpers.supervisor, helpers.supervisorData);
    HelperIs(helpers.bridge, helpers.bridgeData);
  }

  // ----- why a directory is planned -----

  predicate OwnName(helpers: Helpers, name: Text) {
    || EmptyOrLink(name) || name == Lit("usr/libexec/") + helpers.supervisor || name == Lit("usr/libexec/") + helpers.bridge
    || name == Lit("lib/x86_64-linux-gnu/librt.so.1") || name == Lit("lib/x86_64-linux-gnu/libpthread.so.0")
    || name == Lit("lib/x86_64-linux-gnu/libdl.so.2")
  }

  predicate MountPoint(name: Text) {
    || name == Lit("proc") || name == Lit("dev") || name == Lit("tmp") || name == Lit("workspace")
    || name == Lit("opt/claude") || name == Lit("etc/claude-code")
  }

  /** It leads to something asked for, into or through the library tree, to a file of the script's own, or to a mount point. */
  ghost predicate LeadsSomewhere(host: HostTree, helpers: Helpers, parts: Path) {
    || (exists q :: AskedAt(host, q) && parts < q)
    || (exists q :: InLibrary(host, q) && parts <= q)
    || parts <= [Lit("usr"), Lit("lib"), Lit("python3.12")]
    || (exists n :: OwnName(helpers, n) && parts < Parts(n))
    || (exists n :: MountPoint(n) && parts <= Parts(n))
  }

  lemma FixedFileIsOwn(helpers: Helpers, name: Text)
    requires FixedFile(helpers, name)
    ensures OwnName(helpers, name)
  {
    PlaceholderIs(name);
    HelperLit(helpers.supervisor);
    HelperLit(helpers.bridge);
    ExtraLit(0);
    if IsExtraName(name) {
      var i :| 0 <= i < |ExtraLibraries()| && name == ExtraName(i);
      assert i == 0 || i == 1 || i == 2;
    }
  }

  lemma MountIs(name: Text)
    requires name in MountPoints()
    ensures MountPoint(name)
  {}

  lemma FixedLeadsSomewhere(host: HostTree, helpers: Helpers, parts: Path, n: Text)
    requires LeadsInto(helpers, n, parts)
    ensures LeadsSomewhere(host, helpers, parts)
  {
    if FixedFile(helpers, n) { FixedFileIsOwn(helpers, n); } else { MountIs(n); }
  }

  lemma TowardsSomewhere(host: HostTree, helpers: Helpers, parts: Path, base: Path)
    requires Towards(BasisOf(host, helpers.Names()), parts) && base == Parts(LIBRARY)
    requires base == [Lit("usr"), Lit("lib"), Lit("python3.12")]
    ensures LeadsSomewhere(host, helpers, parts)
  {
    var b := BasisOf(host, helpers.Names());
    if q :| q in b.asked && parts < q {
      AskedOrListed(host, helpers.Names(), base, q);
    } else {
      var q :| q in b.walks && parts <= q;
      if q != base { ReachedInLibrary(host, base, q); }
    }
  }

  lemma AskedOrListed(host: HostTree, helpers: set<Text>, base: Path, q: Path)
    requires base == Parts(LIBRARY) && base == [Lit("usr"), Lit("lib"), Lit("python3.12")]
    requires q in BasisOf(host, helpers).asked
    ensures AskedAt(host, q) || InLibrary(host, q)
  {
    if RequestedAt(host, q) {
      var name :| Requested(host, name) && q == Parts(name);
      RequestedIs(host, name);
    } else {
      ReachedInLibrary(host, base, q);
    }
  }

  lemma DirectoryIsKnown(host: HostTree, helpers: Helpers, e: Entry)
    requires PlanEntry(host, helpers, e) && e.body.Directory?
    ensures e.mode == 365 && LeadsSomewhere(host, helpers, Parts(e.name))
  {
    EntryKinds(host, helpers, e);
    LibraryParts();
    var parts := Parts(e.name);
    if EarlyEntry(BasisOf(host, helpers.Names()), e) {
      TowardsSomewhere(host, helpers, parts, Parts(LIBRARY));
    } else {
      NotAFile(host, helpers, e);
      var n :| LeadsInto(helpers, n, parts);
      FixedLeadsSomewhere(host, helpers, parts, n);
    }
  }

  lemma NotAFile(host: HostTree, helpers: Helpers, e: Entry)
    requires PlanEntry(host, helpers, e) && e.body.Directory? && !EarlyEntry(BasisOf(host, helpers.Names()), e)
    ensures LeadsToFixed(helpers, Parts(e.name))
  {}

  lemma KnownKind(host: HostTree, helpers: Helpers, e: Entry)
    requires PlanEntry(host, helpers, e)
    ensures KnownEntry(host, helpers, e)
  {
    if e.body.Directory? { DirectoryIsKnown(host, helpers, e); }
    else if IsExtraEntry(host, e) { ExtraIsHostEntry(host, e); }
    else if EarlyEntry(BasisOf(host, helpers.Names()), e) { EarlyIsHostEntry(host, helpers.Names(), e); }
    else if IsPlaceholderEntry(e) { PlaceholderIsOwn(helpers, e); }
    else { HelperIsOwn(helpers, e); }
  }

  /** A directory of mode 0o555 that leads somewhere, a host file, or one of the script's own entries. */
  ghost predicate KnownEntry(host: HostTree, helpers: Helpers, e: Entry) {
    || (e.body.Directory? && e.mode == 365 && LeadsSomewhere(host, helpers, Parts(e.name)))
    || HostEntryOf(host, e) || OwnEntryOf(helpers, e)
  }

  /** There is a reason for every entry of a plan. */
  lemma EntriesAreKnown(host: HostTree, word: Code -> bool, helpers: Helpers, r: seq<Entry>, e: Entry)
    requires RealHost(host) && helpers.Based() && PlanFor(host, word, helpers) == Some(r) && e in r
    ensures KnownEntry(host, helpers, e)
  {
    var d := PlanIsFinished(host, word, helpers, r);
    KnownKind(host, helpers, e);
  }
}
