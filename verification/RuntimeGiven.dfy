/** What suffices for the script to give a runtime plan (scripts/claude_host_artifacts.py, runtime_plan). */
module RuntimeGiven {
  import opened Texts
  import opened Wrappers
  import opened Sorting
  import opened PathParts
  import opened ArtifactInventory
  import opened FileSystem
  import opened Materialize
  import opened RuntimeShape
  import opened RuntimeNames
  import opened RuntimePlan
  import opened RuntimeContents
  import opened RuntimeWritable
  import opened RuntimeManifest

  // ----- one host file -----

  /** A part of a planned name: word characters and . + - but neither "." nor "..". */
  predicate NamePart(t: Text, word: Code -> bool) {
    && t != [] && t != Lit(".") && t != Lit("..")
    && forall i | 0 <= i < |t| :: t[i] != 47 && (word(t[i]) || t[i] == 46 || t[i] == 43 || t[i] == 45)
  }

  /** A path of such parts. */
  ghost predicate PathName(name: Text, parts: Path, word: Code -> bool) {
    parts != [] && name == Join(parts, 47) && forall p | p in parts :: NamePart(p, word)
  }

  /** The host's regular file here, of so many bytes at least and 64 MiB at most. */
  predicate RegularFile(host: HostTree, p: Path, least: nat) {
    host.file(p).Some? && host.file(p).value.regular && least <= host.file(p).value.size <= 67108864
  }

  lemma PieceIsPart(t: Text, word: Code -> bool)
    requires SLASH !in t
    ensures PlainPiece(t, word) && t != HERE && t != DOTDOT <==> NamePart(t, word)
  {
    assert Lit(".") == HERE && Lit("..") == DOTDOT;
    assert Lit(".+-") == [46, 43, 45];
    forall i | 0 <= i < |t| ensures t[i] != SLASH { assert t[i] in t; }
  }

  lemma PathIsPlain(name: Text, parts: Path, word: Code -> bool)
    requires PathName(name, parts, word)
    ensures PlainName(name, word) && Parts(name) == parts && Canonical(name)
  {
    forall p | p in parts ensures SLASH !in p && PlainPiece(p, word) && p != HERE && p != DOTDOT {
      assert NamePart(p, word);
      PieceIsPart(p, word);
    }
    SplitJoin(parts, SLASH);
    PlainNameCanonical(name, word);
  }

  /** The pattern for a name in the plan: parts between slashes. */
  lemma PlainNameIff(name: Text, word: Code -> bool)
    ensures PlainName(name, word) <==> exists parts :: PathName(name, parts, word)
  {
    if PlainName(name, word) {
      var parts := Split(name, SLASH);
      SplitIsClean(name, SLASH);
      JoinSplit(name, SLASH);
      forall p | p in parts ensures NamePart(p, word) { PieceIsPart(p, word); }
      assert PathName(name, parts, word);
    }
    forall parts | PathName(name, parts, word) ensures PlainName(name, word) { PathIsPlain(name, parts, word); }
  }

  lemma DirectoryWithin(entries: seq<Entry>, e: Entry)
    ensures AddedUnder(entries, e).Some? <==> |Parent(Parts(e.name))| <= 32
  {}

  /** host_file: a name is admitted exactly when it is a path, and planned already or a bounded regular file not too deep. */
  lemma HostFileIff(host: HostTree, word: Code -> bool, entries: seq<Entry>, name: Text, source: Path, allowEmpty: bool)
    ensures AddedFile(host, word, entries, name, source, allowEmpty).Some? <==> exists parts ::
      PathName(name, parts, word)
      && (RuntimeManifest.Named(entries, name) || (RegularFile(host, source, if allowEmpty then 0 else 1) && |parts| <= 33))
  {
    PlainNameIff(name, word);
    NamedIsHasName(entries, name);
    forall parts | PathName(name, parts, word) ensures parts == Parts(name) { PathIsPlain(name, parts, word); }
    if host.file(source).Some? { DirectoryWithin(entries, FileEntry(name, host.file(source).value)); }
  }

  // ----- the library tree -----

  lemma IgnoredIs(name: Text)
    ensures Ignored(name) <==> PassedOver(name)
  {}

  /** Children under different names. */
  predicate NamedApart(children: seq<Child>) {
    forall i, j | 0 <= i < j < |children| :: children[i].name != children[j].name
  }

  /** A directory that the walk can go through: a fixed one not too deep, its files bounded and named as they may be. */
  ghost predicate OpenAt(host: HostTree, word: Code -> bool, q: Path) {
    && host.directory(q).Some? && host.directory(q).value in host.children && host.fixed(host.directory(q).value) && |q| <= 32
    && NamedApart(host.children[host.directory(q).value])
    && forall c | c in host.children[host.directory(q).value] && !PassedOver(c.name) && !c.isDirectory ::
         RegularFile(host, q + [c.name], 0) && forall p | p in q + [c.name] :: NamePart(p, word)
  }

  /** Every directory that the walk comes to is open, and none is come to on two ways. */
  ghost predicate OpenTree(host: HostTree, word: Code -> bool, base: Path) {
    (forall q | Reached(host, base, q) :: OpenAt(host, word, q)) && OneWay(host, base)
  }

  ghost predicate OneWay(host: HostTree, base: Path) {
    forall p, q | Reached(host, base, p) && Reached(host, base, q) && host.directory(p) == host.directory(q) :: p == q
  }

  /** Each visited directory was come to where it says. */
  ghost predicate Homes(host: HostTree, base: Path, home: map<Path, Origin>) {
    forall p | p in home :: Reached(host, base, home[p].source) && host.directory(home[p].source) == Some(p)
  }

  /** Nothing at or below this path has been visited. */
  ghost predicate Unvisited(home: map<Path, Origin>, q: Path) { forall p | p in home :: !(q <= home[p].source) }

  /** Only what is at or below this path has been visited meanwhile. */
  ghost predicate VisitedBelow(a: map<Path, Origin>, b: map<Path, Origin>, q: Path) {
    forall p | p in b :: (p in a && b[p] == a[p]) || q <= b[p].source
  }

  lemma DistinctWhenApart(children: seq<Child>)
    requires NamedApart(children)
    ensures forall i, j | 0 <= i < j < |children| :: children[i] != children[j]
  {}

  lemma SameNameSameChild(children: seq<Child>, c: Child, e: Child)
    requires NamedApart(children) && c in children && e in children && c.name == e.name
    ensures c == e
  {}

  lemma ScanIsApart(children: seq<Child>, r: seq<Child>)
    requires NamedApart(children) && r == Sort(children, (c: Child) => c.name)
    ensures NamedApart(r) && forall c :: c in r <==> c in children
  {
    SortElements(children, (c: Child) => c.name);
    forall i, j | 0 <= i < j < |r| ensures r[i].name != r[j].name {
      assert r[i] in r && r[j] in r;
      if r[i].name == r[j].name {
        SameNameSameChild(children, r[i], r[j]);
        TwiceIn(r, i, j);
        DistinctWhenApart(children);
        OnceIn(children, r[i]);
      }
    }
  }

  lemma FileGiven(host: HostTree, word: Code -> bool, entries: seq<Entry>, name: Text, source: Path, dest: Text, child: Text)
    requires Canonical(name) && name != HERE && source == Parts(name) && OrdinaryName(child) && dest == name + [SLASH] + child
    requires |source| <= 32 && RegularFile(host, source + [child], 0) && forall p | p in source + [child] :: NamePart(p, word)
    ensures AddedFile(host, word, entries, dest, source + [child], true).Some?
  {
    ChildName(name, child);
    CanonicalOrdinary(dest);
    assert dest == Join(source + [child], SLASH);
    assert PathName(dest, source + [child], word);
    HostFileIff(host, word, entries, dest, source + [child], true);
  }

  lemma NotYet(host: HostTree, base: Path, home: map<Path, Origin>, source: Path, place: Path)
    requires OneWay(host, base) && Reached(host, base, source) && host.directory(source) == Some(place)
    requires Homes(host, base, home) && Unvisited(home, source)
    ensures place !in home
  {}

  /** One directory more below a path. */
  lemma Deeper(a: Path, c: Text, q: Path)
    ensures a + [c] <= q ==> a <= q && |q| > |a| && q[|a|] == c
  {
    if a + [c] <= q { assert (a + [c])[|a|] == q[|a|]; }
  }

  lemma StartUnvisited(a: map<Path, Origin>, b: map<Path, Origin>, source: Path, place: Path, name: Text, c: Text)
    requires Unvisited(a, source) && b == a[place := Origin(source, name)]
    ensures Unvisited(b, source + [c])
  {
    forall p | p in b ensures !(source + [c] <= b[p].source) { Deeper(source, c, b[p].source); }
  }

  /** The walk may come to this path under this name. */
  ghost predicate Walkable(host: HostTree, word: Code -> bool, base: Path, source: Path, name: Text) {
    && RealHost(host) && OpenTree(host, word, base) && Reached(host, base, source)
    && Canonical(name) && name != HERE && source == Parts(name)
  }

  /** A walk that succeeds, and visits nothing but what is at or below this path. */
  ghost predicate Succeeds(host: HostTree, base: Path, before: map<Path, Origin>, r: Option<Draft>, at: Path) {
    r.Some? && Homes(host, base, r.value.home) && VisitedBelow(before, r.value.home, at)
  }

  lemma EnterGiven(host: HostTree, word: Code -> bool, base: Path, d: Draft, source: Path, name: Text)
    returns (next: Draft, children: seq<Child>)
    requires Walkable(host, word, base, source, name) && Homes(host, base, d.home) && Unvisited(d.home, source)
    ensures Scanned(host, source, children) && NamedApart(children) && Homes(host, base, next.home)
    ensures forall c | c in children :: Unvisited(next.home, source + [c.name])
    ensures host.children.Keys - next.home.Keys < host.children.Keys - d.home.Keys
    ensures VisitedBelow(d.home, next.home, source)
    ensures WalkTree(host, word, d, source, name) == WalkChildren(host, word, next, source, name, children)
  {
    assert OpenAt(host, word, source);
    var place := host.directory(source).value;
    NotYet(host, base, d.home, source, place);
    var home := d.home[place := Origin(source, name)];
    next := Draft(AddedDirectory(d.entries, Parts(name)).value, home);
    assert place in host.children.Keys - d.home.Keys && place !in host.children.Keys - home.Keys;
    children := Scan(host, place);
    ScanIsApart(host.children[place], children);
    forall c | c in children ensures Unvisited(home, source + [c.name]) { StartUnvisited(d.home, home, source, place, name, c.name); }
  }

  lemma {:induction false} TreeGiven(host: HostTree, word: Code -> bool, base: Path, d: Draft, source: Path, name: Text)
    requires Walkable(host, word, base, source, name) && Homes(host, base, d.home) && Unvisited(d.home, source)
    ensures Succeeds(host, base, d.home, WalkTree(host, word, d, source, name), source)
    decreases host.children.Keys - d.home.Keys, 0, 0
  {
    var next, children := EnterGiven(host, word, base, d, source, name);
    ChildrenGiven(host, word, base, next, source, name, children);
    var r := WalkChildren(host, word, next, source, name, children);
    BelowBelow(d.home, next.home, r.value.home, source, source);
  }

  lemma FirstChild(host: HostTree, word: Code -> bool, d: Draft, source: Path, name: Text, children: seq<Child>, next: Draft)
    requires children != [] && WalkChild(host, word, d, source, name, children[0]) == Some(next)
    ensures WalkChildren(host, word, d, source, name, children) == WalkChildren(host, word, next, source, name, children[1..])
    ensures d.home.Keys <= next.home.Keys
  {}

  lemma RestUnvisited(host: HostTree, source: Path, children: seq<Child>, a: map<Path, Origin>, b: map<Path, Origin>)
    requires children != [] && Scanned(host, source, children) && NamedApart(children)
    requires (forall c | c in children :: Unvisited(a, source + [c.name])) && VisitedBelow(a, b, source + [children[0].name])
    ensures Scanned(host, source, children[1..]) && NamedApart(children[1..])
    ensures forall c | c in children[1..] :: Unvisited(b, source + [c.name])
  {
    assert children == [children[0]] + children[1..];
    forall e | e in children[1..] ensures Unvisited(b, source + [e.name]) {
      NextUnvisited(a, b, source, children[0].name, e.name);
    }
  }

  lemma FirstScanned(host: HostTree, source: Path, children: seq<Child>, a: map<Path, Origin>)
    requires children != [] && Scanned(host, source, children) && forall c | c in children :: Unvisited(a, source + [c.name])
    ensures Scanned(host, source, [children[0]]) && Unvisited(a, source + [children[0].name])
  {
    assert children[0] in children;
  }

  lemma {:induction false} ChildrenGiven(host: HostTree, word: Code -> bool, base: Path, d: Draft, source: Path, name: Text,
                                         children: seq<Child>)
    requires Walkable(host, word, base, source, name) && Homes(host, base, d.home)
    requires Scanned(host, source, children) && NamedApart(children)
    requires forall c | c in children :: Unvisited(d.home, source + [c.name])
    ensures Succeeds(host, base, d.home, WalkChildren(host, word, d, source, name, children), source)
    decreases host.children.Keys - d.home.Keys, |children|, 2
  {
    if children != [] {
      var at := source + [children[0].name];
      FirstScanned(host, source, children, d.home);
      ChildGiven(host, word, base, d, source, name, children[0]);
      var next := WalkChild(host, word, d, source, name, children[0]).value;
      FirstChild(host, word, d, source, name, children, next);
      RestUnvisited(host, source, children, d.home, next.home);
      ChildrenGiven(host, word, base, next, source, name, children[1..]);
      var r := WalkChildren(host, word, next, source, name, children[1..]);
      BelowBelow(d.home, next.home, r.value.home, source, at);
    }
  }

  lemma NextUnvisited(a: map<Path, Origin>, b: map<Path, Origin>, source: Path, c: Text, e: Text)
    requires Unvisited(a, source + [e]) && VisitedBelow(a, b, source + [c]) && c != e
    ensures Unvisited(b, source + [e])
  {
    forall p | p in b ensures !(source + [e] <= b[p].source) {
      Deeper(source, e, b[p].source);
      Deeper(source, c, b[p].source);
    }
  }

  lemma PrefixOfPrefix(a: Path, b: Path, q: Path)
    requires a <= b
    ensures b <= q ==> a <= q
  {}

  lemma BelowBelow(a: map<Path, Origin>, b: map<Path, Origin>, c: map<Path, Origin>, source: Path, deeper: Path)
    requires VisitedBelow(a, b, deeper) && VisitedBelow(b, c, source) && source <= deeper
    ensures VisitedBelow(a, c, source)
  {
    forall p | p in c ensures (p in a && c[p] == a[p]) || source <= c[p].source {
      PrefixOfPrefix(source, deeper, c[p].source);
    }
  }

  lemma {:induction false} ChildGiven(host: HostTree, word: Code -> bool, base: Path, d: Draft, source: Path, name: Text, c: Child)
    requires Walkable(host, word, base, source, name) && Homes(host, base, d.home)
    requires Scanned(host, source, [c]) && Unvisited(d.home, source + [c.name])
    ensures Succeeds(host, base, d.home, WalkChild(host, word, d, source, name, c), source + [c.name])
    decreases host.children.Keys - d.home.Keys, 0, 1
  {
    assert c in [c] && OpenAt(host, word, source);
    IgnoredIs(c.name);
    if !Ignored(c.name) {
      var dest, path := name + [SLASH] + c.name, source + [c.name];
      ChildName(name, c.name);
      HereHasNoParts();
      ChildReached(host, base, source, [c], c);
      if c.isDirectory {
        TreeGiven(host, word, base, d, path, dest);
      } else {
        FileGiven(host, word, d.entries, name, source, dest, c.name);
      }
    }
  }

  // ----- what is asked for -----

  /** A path not too deep, at which the host has a bounded regular file that is not empty. */
  ghost predicate Admitted(host: HostTree, word: Code -> bool, name: Text) {
    exists parts :: PathName(name, parts, word) && |parts| <= 33 && RegularFile(host, parts, 1)
  }

  lemma AdmittedIsAdded(host: HostTree, word: Code -> bool, entries: seq<Entry>, name: Text)
    requires Admitted(host, word, name)
    ensures AddedFile(host, word, entries, name, Parts(name), false).Some?
  {
    var parts :| PathName(name, parts, word) && |parts| <= 33 && RegularFile(host, parts, 1);
    PathIsPlain(name, parts, word);
    HostFileIff(host, word, entries, name, parts, false);
  }

  lemma {:induction false} FilesGiven(host: HostTree, word: Code -> bool, entries: seq<Entry>, names: seq<Text>)
    requires forall n | n in names :: Admitted(host, word, n)
    ensures AddedFiles(host, word, entries, names).Some?
    decreases |names|
  {
    if names != [] {
      AdmittedIsAdded(host, word, entries, names[0]);
      FilesGiven(host, word, AddedFile(host, word, entries, names[0], Parts(names[0]), false).value, names[1..]);
    }
  }

  ghost predicate Answered(host: HostTree, word: Code -> bool, y: Path) {
    && host.dependencies(y).Some?
    && forall n | n in Stripped(host.dependencies(y).value) :: Admitted(host, word, n)
  }

  lemma {:induction false} DependenciesGiven(host: HostTree, word: Code -> bool, entries: seq<Entry>, binaries: seq<Path>)
    requires forall y | y in binaries :: Answered(host, word, y)
    ensures AddedDependencies(host, word, entries, binaries).Some?
    decreases |binaries|
  {
    if binaries != [] {
      assert Answered(host, word, binaries[0]);
      var names := Stripped(host.dependencies(binaries[0]).value);
      FilesGiven(host, word, entries, names);
      DependenciesGiven(host, word, AddedFiles(host, word, entries, names).value, binaries[1..]);
    }
  }

  /** Each binary gets an answer, and every name asked for is that of an admitted file. */
  ghost predicate Answering(host: HostTree, word: Code -> bool) {
    && (forall y | IsBinary(host, y) :: host.dependencies(y).Some?)
    && forall name | AskedFor(host, name) :: Admitted(host, word, name)
  }

  lemma AskedAnswers(host: HostTree, word: Code -> bool)
    requires Answering(host, word)
    ensures forall y | y in Binaries(host) :: Answered(host, word, y)
    ensures forall n | n in HostNames() :: Admitted(host, word, n)
  {
    forall y | y in Binaries(host) ensures Answered(host, word, y) {
      BinariesAre(host, y);
      forall n | n in Stripped(host.dependencies(y).value) ensures Admitted(host, word, n) {
        ListedForIs(host, y, n);
        assert AskedFor(host, n);
      }
    }
    forall n | n in HostNames() ensures Admitted(host, word, n) { HostNamesAre(n); }
  }

  lemma HostGiven(host: HostTree, word: Code -> bool)
    requires RealHost(host) && Answering(host, word) && OpenTree(host, word, [Lit("usr"), Lit("lib"), Lit("python3.12")])
    ensures FromHost(host, word).Some?
  {
    AskedAnswers(host, word);
    LibraryParts();
    FilesGiven(host, word, [ROOT_ENTRY], HostNames());
    var files := AddedFiles(host, word, [ROOT_ENTRY], HostNames()).value;
    assert Reached(host, Parts(LIBRARY), Parts(LIBRARY));
    TreeGiven(host, word, Parts(LIBRARY), Draft(files, map[]), Parts(LIBRARY), LIBRARY);
    var walked := WalkTree(host, word, Draft(files, map[]), Parts(LIBRARY), LIBRARY).value;
    DependenciesGiven(host, word, walked.entries, Binaries(host));
  }

  // ----- the extra libraries -----

  /** The host has the three extra libraries, and their names may be planned. */
  ghost predicate HasExtras(host: HostTree, word: Code -> bool) {
    forall n | ExtraLibrary(n) ::
      && RegularFile(host, [Lit("usr"), Lit("lib"), Lit("x86_64-linux-gnu"), n], 1)
      && PathName(Lit("lib/x86_64-linux-gnu/") + n, [Lit("lib"), Lit("x86_64-linux-gnu"), n], word)
  }

  lemma ExtraGiven(host: HostTree, word: Code -> bool, entries: seq<Entry>, i: nat)
    requires HasExtras(host, word) && i < |ExtraLibraries()|
    ensures AddedExtra(host, word, entries, i).Some?
  {
    ExtraPathIs(i);
    var n := ExtraLibraries()[i];
    assert ExtraLibrary(n);
    HostFileIff(host, word, entries, ExtraName(i), ExtraPath(i), false);
  }

  /** What is added under a name adds that name and those of directories with the same first character. */
  ghost predicate AddsOnly(a: seq<Entry>, b: seq<Entry>, first: Code) {
    forall m | HasName(b, m) :: HasName(a, m) || (m != [] && m[0] == first)
  }

  lemma DefaultAdds(entries: seq<Entry>, e: Entry, m: Text)
    ensures HasName(SetDefault(entries, e), m) ==> HasName(entries, m) || m == e.name
  {
    var r := SetDefault(entries, e);
    if HasName(r, m) {
      var i :| 0 <= i < |r| && r[i].name == m;
      if i < |entries| { assert entries[i].name == m; }
    }
  }

  lemma PrefixStarts(parts: Path, k: nat)
    requires OrdinaryParts(parts) && 0 < k <= |parts|
    ensures Render(Above(parts, k)) != [] && Render(Above(parts, k))[0] == parts[0][0]
  {
    var up := Above(parts, k);
    assert up[0] == parts[0] && OrdinaryName(parts[0]);
  }

  lemma {:induction false} PrefixesAdd(entries: seq<Entry>, parts: Path, n: nat, m: Text)
    requires OrdinaryParts(parts) && n <= |parts| && HasName(WithPrefixes(entries, parts, n), m)
    ensures HasName(entries, m) || (m != [] && parts != [] && m[0] == parts[0][0])
    decreases n
  {
    if n > 0 {
      PrefixStarts(parts, n);
      DefaultAdds(WithPrefixes(entries, parts, n - 1), Entry(Render(Above(parts, n)), MODE_555, Directory), m);
      if HasName(WithPrefixes(entries, parts, n - 1), m) { PrefixesAdd(entries, parts, n - 1, m); }
    }
  }

  lemma {:induction false} PutAdds(entries: seq<Entry>, e: Entry, m: Text)
    requires HasName(Put(entries, e), m)
    ensures HasName(entries, m) || m == e.name
  {
    var r := Put(entries, e);
    var i :| 0 <= i < |r| && r[i].name == m;
    if entries != [] && entries[0].name != e.name {
      if i == 0 {
        assert entries[0].name == m;
      } else {
        assert Put(entries[1..], e)[i - 1].name == m;
        PutAdds(entries[1..], e, m);
        if HasName(entries[1..], m) {
          var j :| 0 <= j < |entries[1..]| && entries[1..][j].name == m;
          assert entries[j + 1].name == m;
        }
      }
    } else if entries != [] && i > 0 {
      assert r[i] == entries[i];
    }
  }

  lemma UnderAdds(entries: seq<Entry>, e: Entry, r: seq<Entry>, first: Code)
    requires AddedUnder(entries, e) == Some(r) && OrdinaryParts(Parts(e.name)) && |Parts(e.name)| > 1
    requires Parts(e.name)[0][0] == first && e.name != [] && e.name[0] == first
    ensures AddsOnly(entries, r, first)
  {
    var up := Parent(Parts(e.name));
    var more := WithPrefixes(entries, up, |up|);
    assert up[0] == Parts(e.name)[0];
    forall m | HasName(r, m) ensures HasName(entries, m) || (m != [] && m[0] == first) {
      PutAdds(more, e, m);
      if HasName(more, m) { PrefixesAdd(entries, up, |up|, m); }
    }
  }

  lemma ExtraAdds(host: HostTree, word: Code -> bool, entries: seq<Entry>, i: nat, r: seq<Entry>)
    requires i < |ExtraLibraries()| && AddedExtra(host, word, entries, i) == Some(r)
    ensures AddsOnly(entries, r, 108)
  {
    if !HasName(entries, ExtraName(i)) {
      ExtraParts(i);
      CanonicalOrdinary(ExtraName(i));
      assert Lit("lib")[0] == 108 && ExtraName(i)[0] == MULTIARCH[0] == 108;
      UnderAdds(entries, FileEntry(ExtraName(i), host.file(ExtraPath(i)).value), r, 108);
    }
  }

  lemma {:induction false} ExtrasGiven(host: HostTree, word: Code -> bool, entries: seq<Entry>, i: nat)
    requires HasExtras(host, word) && i <= |ExtraLibraries()|
    ensures AddedExtras(host, word, entries, i).Some? && AddsOnly(entries, AddedExtras(host, word, entries, i).value, 108)
    decreases |ExtraLibraries()| - i
  {
    if i < |ExtraLibraries()| {
      ExtraGiven(host, word, entries, i);
      var more := AddedExtra(host, word, entries, i).value;
      ExtraAdds(host, word, entries, i, more);
      ExtrasGiven(host, word, more, i + 1);
    }
  }

  // ----- the helpers -----

  /** Nothing is asked for at a helper's place or under it. */
  ghost predicate Clear(host: HostTree, base: Text) {
    forall q | AskedAt(host, q) :: !([Lit("usr"), Lit("libexec"), base] <= q)
  }

  lemma HelperIsBeside(base: Text, q: Path)
    ensures !([Lit("usr"), Lit("libexec"), base] <= q && [Lit("usr"), Lit("lib"), Lit("python3.12")] <= q)
  {
    var a, b := [Lit("usr"), Lit("libexec"), base], [Lit("usr"), Lit("lib"), Lit("python3.12")];
    assert |Lit("libexec")| == 7 && |Lit("lib")| == 3;
    assert a[1] != b[1];
  }

  lemma ClearOfAsked(host: HostTree, helpers: set<Text>, base: Text, library: Path, parts: Path)
    requires Clear(host, base) && library == Parts(LIBRARY) && library == [Lit("usr"), Lit("lib"), Lit("python3.12")]
    requires parts == [Lit("usr"), Lit("libexec"), base]
    ensures forall q | q in BasisOf(host, helpers).asked || q in BasisOf(host, helpers).walks :: !(parts <= q)
  {
    forall q | q in BasisOf(host, helpers).asked || q in BasisOf(host, helpers).walks ensures !(parts <= q) {
      HelperIsBeside(base, q);
      if q in BasisOf(host, helpers).asked && RequestedAt(host, q) {
        var name :| Requested(host, name) && q == Parts(name);
        RequestedIs(host, name);
        assert AskedAt(host, q);
      }
    }
  }

  lemma NotEarly(b: Basis, e: Entry, parts: Path)
    requires EarlyEntry(b, e) && forall q | q in b.asked || q in b.walks :: !(parts <= q)
    ensures Parts(e.name) != parts
  {}

  /** A helper's name is not planned from the host. */
  lemma HelperIsNew(host: HostTree, word: Code -> bool, base: Text, d: Draft)
    requires RealHost(host) && HelperBase(base) && Clear(host, base) && FromHost(host, word) == Some(d)
    ensures !HasName(d.entries, HelperName(base))
  {
    var b := BasisOf(host, {});
    FromHostGathers(host, word, {}, d);
    HelperCanonical(base);
    LibraryParts();
    if HasName(d.entries, HelperName(base)) {
      var x := HasEntry(d.entries, HelperName(base));
      assert EarlyEntry(b, x) && Canonical(x.name);
      ClearOfAsked(host, {}, base, Parts(LIBRARY), Parts(HelperName(base)));
      NotEarly(b, x, Parts(HelperName(base)));
    }
  }

  lemma HelperStarts(base: Text)
    ensures HelperName(base) != [] && HelperName(base)[0] == 117
  {
    assert HelperName(base)[0] == LIBEXEC[0] == Lit("usr/libexec")[0];
  }

  lemma OneHelperGiven(entries: seq<Entry>, base: Text, data: Text)
    requires HelperBase(base) && !HasName(entries, HelperName(base))
    ensures AddedHelper(entries, base, data).Some?
  {
    HelperCanonical(base);
    DirectoryWithin(entries, HelperEntry(base, data));
  }

  lemma SecondIsNew(entries: seq<Entry>, base: Text, data: Text, other: Text, r: seq<Entry>)
    requires HelperBase(base) && HelperBase(other) && base != other && AddedHelper(entries, base, data) == Some(r)
    requires !HasName(entries, HelperName(other))
    ensures !HasName(r, HelperName(other))
  {
    var e, m := HelperEntry(base, data), HelperName(other);
    var up := Parent(Parts(e.name));
    var more := WithPrefixes(entries, up, |up|);
    NamesDiffer(base, other);
    if HasName(r, m) {
      PutAdds(more, e, m);
      HelperUpNames(entries, base, m);
    }
  }

  lemma NamesDiffer(base: Text, other: Text)
    requires base != other
    ensures HelperName(base) != HelperName(other)
  {
    var k := |LIBEXEC| + 1;
    assert HelperName(base)[k..] == base && HelperName(other)[k..] == other;
  }

  /** The directories above a helper are no helper's names. */
  lemma HelperUpNames(entries: seq<Entry>, base: Text, m: Text)
    requires HelperBase(base) && |m| > |LIBEXEC|
    requires var up := Parent(Parts(HelperName(base))); HasName(WithPrefixes(entries, up, |up|), m)
    ensures HasName(entries, m)
  {
    HelperCanonical(base);
    var up := Parent(Parts(HelperName(base)));
    assert up == [Lit("usr")] || up == [Lit("usr"), Lit("libexec")];
    UpShort(up);
    ShortPrefixes(entries, up, |up|, m);
  }

  lemma UpShort(up: Path)
    requires up == [Lit("usr")] || up == [Lit("usr"), Lit("libexec")]
    ensures forall k | 0 < k <= |up| :: |Render(Above(up, k))| <= 11
    ensures |LIBEXEC| == 11
  {
    forall k | 0 < k <= |up| ensures |Render(Above(up, k))| <= 11 {
      var a := Above(up, k);
      if k == 1 {
        assert a == [Lit("usr")];
      } else {
        assert a == [Lit("usr"), Lit("libexec")] && a[1..] == [Lit("libexec")];
        assert Join(a[1..], SLASH) == Lit("libexec");
      }
    }
  }

  lemma {:induction false} ShortPrefixes(entries: seq<Entry>, up: Path, n: nat, m: Text)
    requires n <= |up| && HasName(WithPrefixes(entries, up, n), m)
    requires forall k | 0 < k <= |up| :: |Render(Above(up, k))| < |m|
    ensures HasName(entries, m)
    decreases n
  {
    if n > 0 {
      DefaultAdds(WithPrefixes(entries, up, n - 1), Entry(Render(Above(up, n)), MODE_555, Directory), m);
      ShortPrefixes(entries, up, n - 1, m);
    }
  }

  lemma HelpersGiven(entries: seq<Entry>, helpers: Helpers)
    requires helpers.Based() && helpers.supervisor != helpers.bridge
    requires !HasName(entries, HelperName(helpers.supervisor)) && !HasName(entries, HelperName(helpers.bridge))
    ensures AddedHelpers(entries, helpers).Some?
  {
    OneHelperGiven(entries, helpers.supervisor, helpers.supervisorData);
    var one := AddedHelper(entries, helpers.supervisor, helpers.supervisorData).value;
    SecondIsNew(entries, helpers.supervisor, helpers.supervisorData, helpers.bridge, one);
    OneHelperGiven(one, helpers.bridge, helpers.bridgeData);
  }

  // ----- the placeholders -----

  lemma {:induction false} DirectoriesGiven(entries: seq<Entry>, names: seq<Text>)
    requires forall n | n in names :: |Parts(n)| <= DEPTH
    ensures AddedDirectories(entries, names).Some?
    decreases |names|
  {
    if names != [] {
      assert names[0] in names;
      DirectoriesGiven(AddedDirectory(entries, Parts(names[0])).value, names[1..]);
    }
  }

  lemma PlaceholdersGiven(entries: seq<Entry>)
    ensures AddedPlaceholders(entries).Some?
  {
    forall n | n in MountPoints() ensures |Parts(n)| <= DEPTH {
      var i :| 0 <= i < |MountPoints()| && MountPoints()[i] == n;
      MountParts(i);
    }
    DirectoriesGiven(entries, MountPoints());
    LinkParts();
  }

  // ----- the plan -----

  /** All that the script needs of a host. */
  ghost predicate Serves(host: HostTree, word: Code -> bool, helpers: Helpers) {
    && Answering(host, word) && OpenTree(host, word, [Lit("usr"), Lit("lib"), Lit("python3.12")]) && HasExtras(host, word)
    && Clear(host, helpers.supervisor) && Clear(host, helpers.bridge)
  }

  /** A plan is given for a host that serves and two different helpers, if it has at most 20000 entries. */
  lemma PlanIsGiven(host: HostTree, word: Code -> bool, helpers: Helpers) returns (d: Draft)
    requires RealHost(host) && helpers.Based() && helpers.supervisor != helpers.bridge && Serves(host, word, helpers)
    ensures Drafted(host, word, helpers) == Some(d)
    ensures PlanFor(host, word, helpers).Some? <==> |d.entries| <= 20000
  {
    HostGiven(host, word);
    var early := FromHost(host, word).value;
    HelperIsNew(host, word, helpers.supervisor, early);
    HelperIsNew(host, word, helpers.bridge, early);
    ExtrasGiven(host, word, early.entries, 0);
    var extra := AddedExtras(host, word, early.entries, 0).value;
    HelperStarts(helpers.supervisor);
    HelperStarts(helpers.bridge);
    HelpersGiven(extra, helpers);
    PlaceholdersGiven(AddedHelpers(extra, helpers).value);
    d := Drafted(host, word, helpers).value;
  }

  // ----- what every planned host has of this -----

  /** Whatever is listed step by step from a walked directory was walked. */
  lemma {:induction false} ReachedIsWalked(host: HostTree, d: Draft, base: Path, q: Path, o: Origin) returns (name: Text)
    requires Walked(host, {}, d) && WalkedFrom(host, d.home, o) && o.source == base && Reached(host, base, q)
    ensures WalkedFrom(host, d.home, Origin(q, name))
    decreases |q|
  {
    if q == base {
      name := o.name;
    } else {
      var up := Parent(q);
      var n := ReachedIsWalked(host, d, base, up, o);
      var place := host.directory(up).value;
      assert WalkedAt(host, d, place);
      var c :| c in host.children[place] && c.name == q[|q| - 1] && c.isDirectory && !Ignored(c.name);
      assert ChildCovered(host, d.entries, d.home, Origin(up, n), c);
      name := n + [SLASH] + c.name;
      assert up + [c.name] == q;
    }
  }

  /** A plan is given only if the walk comes to every directory of the library on one way. */
  lemma PlannedIsOneWay(host: HostTree, word: Code -> bool, helpers: Helpers, r: seq<Entry>)
    requires RealHost(host) && helpers.Based() && PlanFor(host, word, helpers) == Some(r)
    ensures OneWay(host, [Lit("usr"), Lit("lib"), Lit("python3.12")])
    ensures forall q | Reached(host, [Lit("usr"), Lit("lib"), Lit("python3.12")], q) ::
      host.directory(q).Some? && host.directory(q).value in host.children
  {
    var d := PlanIsFinished(host, word, helpers, r);
    LibraryParts();
    WalkedIsOneWay(host, Draft(r, d.home), Parts(LIBRARY), Origin(Parts(LIBRARY), LIBRARY));
  }

  lemma WalkedIsOneWay(host: HostTree, d: Draft, base: Path, o: Origin)
    requires Walked(host, {}, d) && WalkedFrom(host, d.home, o) && o.source == base
    ensures OneWay(host, base)
    ensures forall q | Reached(host, base, q) :: host.directory(q).Some? && host.directory(q).value in host.children
  {
    forall q | Reached(host, base, q) ensures host.directory(q).Some? && host.directory(q).value in host.children {
      var n := ReachedIsWalked(host, d, base, q, o);
      assert WalkedAt(host, d, host.directory(q).value);
    }
    forall p, q | Reached(host, base, p) && Reached(host, base, q) && host.directory(p) == host.directory(q) ensures p == q {
      var m := ReachedIsWalked(host, d, base, p, o);
      var n := ReachedIsWalked(host, d, base, q, o);
    }
  }
}
