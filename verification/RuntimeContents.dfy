/** What a finished runtime plan holds (scripts/claude_host_artifacts.py, runtime_plan). */
module RuntimeContents {
  import opened Texts
  import opened Wrappers
  import opened Sorting
  import opened PathParts
  import opened ArtifactInventory
  import opened FileSystem
  import opened Materialize
  import opened RuntimeShape
  import opened RuntimeNames
  import opened RuntimePlan

  // ----- the host -----

  predicate RegularAt(host: HostTree, p: Path) { host.file(p).Some? && host.file(p).value.regular }

  /**
    What holds of every tree of files: a directory lists ordinary names, the root is no regular file, and a
    regular file is no directory and has nothing below it.
   */
  ghost predicate RealHost(host: HostTree) {
    && (forall d | d in host.children :: OrdinaryChildren(host.children[d]))
    && !RegularAt(host, [])
    && (forall p | RegularAt(host, p) :: host.directory(p).None?)
    && (forall p, q | RegularAt(host, p) && ProperlyAbove(p, q) :: host.file(q).None? && host.directory(q).None?)
  }

  predicate OrdinaryChildren(children: seq<Child>) { forall c | c in children :: OrdinaryName(c.name) }

  /** Nothing above the path is a regular file. */
  predicate FreeAbove(host: HostTree, parts: Path) {
    forall k | 0 <= k < |parts| :: !RegularAt(host, Above(parts, k))
  }

  /** Nothing at or above the path is a regular file. */
  predicate FreeTo(host: HostTree, parts: Path) { FreeAbove(host, parts) && !RegularAt(host, parts) }

  lemma ResolvedIsFree(host: HostTree, p: Path)
    requires RealHost(host) && (host.file(p).Some? || host.directory(p).Some?)
    ensures FreeAbove(host, p) && (host.directory(p).Some? ==> FreeTo(host, p))
  {
    forall k | 0 <= k < |p| ensures !RegularAt(host, Above(p, k)) { assert ProperlyAbove(Above(p, k), p); }
  }

  lemma FreePrefix(host: HostTree, parts: Path, k: nat)
    requires FreeTo(host, parts) && k <= |parts|
    ensures FreeTo(host, Above(parts, k))
  {
    assert Above(parts, |parts|) == parts;
    forall m | 0 <= m < k ensures !RegularAt(host, Above(Above(parts, k), m)) {
      assert Above(Above(parts, k), m) == Above(parts, m);
    }
  }

  lemma FreeParent(host: HostTree, parts: Path)
    requires FreeAbove(host, parts) && parts != []
    ensures FreeTo(host, Parent(parts))
  {
    var up := Parent(parts);
    forall m | 0 <= m < |up| ensures !RegularAt(host, Above(up, m)) { assert Above(up, m) == Above(parts, m); }
  }

  // ----- entries added to a plan -----

  ghost predicate Includes(a: seq<Entry>, b: seq<Entry>) { forall x | x in a :: x in b }

  lemma IncludesKeeps(a: seq<Entry>, b: seq<Entry>)
    requires Includes(a, b)
    ensures Keeps(a, b)
  {
    forall n | HasName(a, n) ensures HasName(b, n) {
      var i :| 0 <= i < |a| && a[i].name == n;
      assert a[i] in b;
      var j :| 0 <= j < |b| && b[j] == a[i];
    }
  }

  lemma PrefixIncludes(a: seq<Entry>, b: seq<Entry>)
    requires a <= b
    ensures Includes(a, b) && Keeps(a, b)
  {
    forall x | x in a ensures x in b {
      var i :| 0 <= i < |a| && a[i] == x;
      assert b[i] == x;
    }
    IncludesKeeps(a, b);
  }

  lemma HasEntry(entries: seq<Entry>, n: Text) returns (x: Entry)
    requires HasName(entries, n)
    ensures x in entries && x.name == n
  {
    var i :| 0 <= i < |entries| && entries[i].name == n;
    x := entries[i];
  }

  lemma EntryHas(entries: seq<Entry>, x: Entry)
    requires x in entries
    ensures HasName(entries, x.name)
  {
    var i :| 0 <= i < |entries| && entries[i] == x;
  }

  lemma PutOthers(entries: seq<Entry>, e: Entry)
    requires Unique(entries)
    ensures e in Put(entries, e) && forall x | x in entries && x.name != e.name :: x in Put(entries, e)
    ensures forall x | x in Put(entries, e) :: x == e || x in entries
  {
    PutAt(entries, e);
    PutKeeps(entries, e);
    forall x | x in entries && x.name != e.name ensures x in Put(entries, e) {
      var i :| 0 <= i < |entries| && entries[i] == x;
      assert Put(entries, e)[i] == x;
    }
  }

  /** The first `count` prefixes of a path are planned. */
  ghost predicate PrefixesPlanned(entries: seq<Entry>, parts: seq<Text>, count: nat)
    requires count <= |parts|
  {
    forall k | 0 < k <= count :: HasName(entries, Render(Above(parts, k)))
  }

  lemma AncestorsOfPrefix(entries: seq<Entry>, parts: seq<Text>, index: nat)
    requires 0 < index <= |parts| && PrefixesPlanned(entries, parts, index - 1)
    ensures AncestorsPlanned(entries, Above(parts, index))
    ensures OrdinaryParts(parts) ==> OrdinaryParts(Above(parts, index))
  {
    forall k | 0 < k < index ensures HasName(entries, Render(Above(Above(parts, index), k))) {
      assert Above(Above(parts, index), k) == Above(parts, k);
    }
  }

  /** With all prefixes of the parent planned, so are the ancestors. */
  lemma AncestorsOfChild(entries: seq<Entry>, parts: seq<Text>)
    requires parts != [] && PrefixesPlanned(entries, Parent(parts), |parts| - 1)
    ensures AncestorsPlanned(entries, parts)
  {
    var up := Parent(parts);
    forall k | 0 < k < |parts| ensures HasName(entries, Render(Above(parts, k))) { assert Above(up, k) == Above(parts, k); }
  }

  lemma AllPrefixes(entries: seq<Entry>, parts: seq<Text>)
    requires PrefixesPlanned(entries, parts, |parts|) && parts != []
    ensures AncestorsPlanned(entries, parts) && HasName(entries, Render(parts))
  {
    assert Above(parts, |parts|) == parts;
    assert HasName(entries, Render(Above(parts, |parts|)));
  }

  lemma PrefixesStay(a: seq<Entry>, b: seq<Entry>, parts: seq<Text>, count: nat)
    requires count <= |parts| && PrefixesPlanned(a, parts, count) && Keeps(a, b)
    ensures PrefixesPlanned(b, parts, count)
  {}

  // ----- what is planned from the host -----

  /** What one of the binaries is linked to. */
  predicate ListedFor(host: HostTree, binary: Path, name: Text) {
    host.dependencies(binary).Some? && name in Stripped(host.dependencies(binary).value)
  }

  predicate Listed(host: HostTree, name: Text) {
    exists i | 0 <= i < |Binaries(host)| :: ListedFor(host, Binaries(host)[i], name)
  }

  /** The names asked for by name. */
  predicate Requested(host: HostTree, name: Text) { name in HostNames() || Listed(host, name) }

  /**
    Where plans start from: the host, the helpers' names, the paths at which a file is asked for, and the
    directories that a walk may come to.
   */
  datatype Basis = Basis(host: HostTree, helpers: set<Text>, asked: iset<Path>, walks: iset<Path>)

  /** A path's last part is listed in the directory above it, as a directory or not, and is not passed over. */
  ghost predicate ListedAt(host: HostTree, q: Path, isDirectory: bool) {
    && q != [] && host.directory(Parent(q)).Some? && host.directory(Parent(q)).value in host.children
    && exists c :: c in host.children[host.directory(Parent(q)).value] && c.name == q[|q| - 1]
         && c.isDirectory == isDirectory && !Ignored(c.name)
  }

  /** Directories listed step by step from a base. */
  ghost predicate Reached(host: HostTree, base: Path, q: Path)
    decreases |q|
  {
    base <= q && (q == base || (|base| < |q| && Reached(host, base, Parent(q)) && ListedAt(host, q, true)))
  }

  /** A file in one of them. */
  ghost predicate ReachedFile(host: HostTree, base: Path, q: Path) {
    base < q && Reached(host, base, Parent(q)) && ListedAt(host, q, false)
  }

  /** Files are asked for by name and by the walk of the library tree, which comes to directories of that tree alone. */
  ghost function BasisOf(host: HostTree, helpers: set<Text>): Basis {
    Basis(host, helpers,
          iset q: Path | RequestedAt(host, q) || ReachedFile(host, Parts(LIBRARY), q),
          iset q: Path | Reached(host, Parts(LIBRARY), q))
  }

  ghost predicate RequestedAt(host: HostTree, q: Path) { exists name :: Requested(host, name) && q == Parts(name) }

  /** The path is above one at which a file is asked for, or at or above a directory that may be walked. */
  ghost predicate Towards(b: Basis, parts: Path) {
    (exists q :: q in b.asked && parts < q) || (exists q :: q in b.walks && parts <= q)
  }

  lemma TowardsPrefix(b: Basis, parts: Path, k: nat)
    requires Towards(b, parts) && k <= |parts|
    ensures Towards(b, Above(parts, k))
  {
    if q :| q in b.asked && parts < q {
      assert Above(parts, k) < q;
    } else {
      var q :| q in b.walks && parts <= q;
      assert Above(parts, k) <= q;
    }
  }

  function OwnEntry(host: HostTree, name: Text): Entry
    requires host.file(Parts(name)).Some?
  {
    FileEntry(name, host.file(Parts(name)).value)
  }

  /**
    An entry planned from the host: a directory that leads to something asked for, where the host has no regular
    file, or the usable host file at the path of its own name.
   */
  ghost predicate EarlyEntry(b: Basis, e: Entry) {
    var parts := Parts(e.name);
    && Canonical(e.name) && FreeAbove(b.host, parts)
    && (if e.body.Directory? then e.mode == MODE_555 && !RegularAt(b.host, parts) && Towards(b, parts)
        else parts in b.asked && Usable(b.host, parts, true) && e == OwnEntry(b.host, e.name))
  }

  ghost predicate Early(b: Basis, entries: seq<Entry>) {
    Valid(entries, b.helpers) && forall x | x in entries :: EarlyEntry(b, x)
  }

  lemma EarlyStart(b: Basis, q: Path)
    requires RealHost(b.host) && q in b.asked && q != []
    ensures Early(b, [ROOT_ENTRY])
  {
    StartValid(b.helpers);
    HereHasNoParts();
    assert Canonical(HERE) && Parts(HERE) < q;
  }

  lemma EarlyDefault(b: Basis, entries: seq<Entry>, up: Path)
    requires Early(b, entries) && OrdinaryParts(up) && AncestorsPlanned(entries, up)
    requires FreeTo(b.host, up) && Towards(b, up)
    ensures var r := SetDefault(entries, Entry(Render(up), MODE_555, Directory));
      Early(b, r) && HasName(r, Render(up)) && Keeps(entries, r)
  {
    var e := Entry(Render(up), MODE_555, Directory);
    OrdinaryRender(up);
    DefaultValid(entries, b.helpers, e);
    DefaultKeeps(entries, e);
    assert EarlyEntry(b, e);
  }

  /** One prefix more. */
  lemma EarlyPrefix(b: Basis, entries: seq<Entry>, parts: Path, n: nat)
    requires Early(b, entries) && OrdinaryParts(parts) && 0 < n <= |parts|
    requires FreeTo(b.host, parts) && Towards(b, parts) && PrefixesPlanned(entries, parts, n - 1)
    ensures var r := SetDefault(entries, Entry(Render(Above(parts, n)), MODE_555, Directory));
      Early(b, r) && PrefixesPlanned(r, parts, n)
  {
    AncestorsOfPrefix(entries, parts, n);
    FreePrefix(b.host, parts, n);
    TowardsPrefix(b, parts, n);
    EarlyDefault(b, entries, Above(parts, n));
  }

  lemma {:induction false} EarlyPrefixes(b: Basis, entries: seq<Entry>, parts: Path, n: nat, r: seq<Entry>)
    requires Early(b, entries) && OrdinaryParts(parts) && n <= |parts|
    requires FreeTo(b.host, parts) && Towards(b, parts) && r == WithPrefixes(entries, parts, n)
    ensures Early(b, r) && PrefixesPlanned(r, parts, n)
    decreases n
  {
    if n > 0 {
      var before := WithPrefixes(entries, parts, n - 1);
      EarlyPrefixes(b, entries, parts, n - 1, before);
      EarlyPrefix(b, before, parts, n);
    }
  }

  lemma EarlyPut(b: Basis, entries: seq<Entry>, e: Entry)
    requires Early(b, entries) && EarlyEntry(b, e) && e.name != HERE
    requires AncestorsPlanned(entries, Parts(e.name))
    ensures Early(b, Put(entries, e)) && e in Put(entries, e)
    ensures forall x | x in entries && x.name != e.name :: x in Put(entries, e)
  {
    PutValid(entries, b.helpers, e);
    PutOthers(entries, e);
  }

  lemma EarlyUnder(b: Basis, entries: seq<Entry>, e: Entry, r: seq<Entry>)
    requires Early(b, entries) && EarlyEntry(b, e) && !e.body.Directory? && Parts(e.name) != []
    requires !HasName(entries, e.name) && AddedUnder(entries, e) == Some(r)
    ensures Early(b, r) && Includes(entries, r) && e in r
  {
    var parts := Parts(e.name);
    var up := Parent(parts);
    CanonicalOrdinary(e.name);
    HereHasNoParts();
    FreeParent(b.host, parts);
    assert up < parts;
    var more := WithPrefixes(entries, up, |up|);
    EarlyPrefixes(b, entries, up, |up|, more);
    PrefixIncludes(entries, more);
    AncestorsOfChild(more, parts);
    EarlyPut(b, more, e);
    forall x | x in entries ensures x in r { EntryHas(entries, x); }
  }

  /** A file planned at its own path. */
  lemma EarlyFile(b: Basis, word: Code -> bool, entries: seq<Entry>, name: Text, allowEmpty: bool, r: seq<Entry>)
    requires RealHost(b.host) && Early(b, entries)
    requires b.host.file(Parts(name)).Some? ==> Parts(name) in b.asked
    requires AddedFile(b.host, word, entries, name, Parts(name), allowEmpty) == Some(r)
    ensures Early(b, r) && Includes(entries, r) && HasName(r, name)
    ensures !HasName(entries, name) ==> RegularAt(b.host, Parts(name)) && OwnEntry(b.host, name) in r
  {
    PlainNameCanonical(name, word);
    if !HasName(entries, name) {
      var e := OwnEntry(b.host, name);
      ResolvedIsFree(b.host, Parts(name));
      assert EarlyEntry(b, e);
      EarlyUnder(b, entries, e, r);
      EntryHas(r, e);
    }
  }

  /** Where the host has a regular file under a planned name, that file is what is planned. */
  lemma EarlyStands(b: Basis, entries: seq<Entry>, name: Text)
    requires Early(b, entries) && HasName(entries, name) && RegularAt(b.host, Parts(name))
    ensures OwnEntry(b.host, name) in entries
  {
    var x := HasEntry(entries, name);
    assert EarlyEntry(b, x);
  }

  ghost predicate AllNamed(entries: seq<Entry>, names: seq<Text>) {
    forall n | n in names :: HasName(entries, n)
  }

  lemma {:induction false} EarlyFiles(b: Basis, word: Code -> bool, entries: seq<Entry>, names: seq<Text>, r: seq<Entry>)
    requires RealHost(b.host) && Early(b, entries)
    requires forall n | n in names :: Parts(n) in b.asked
    requires AddedFiles(b.host, word, entries, names) == Some(r)
    ensures Early(b, r) && Includes(entries, r) && AllNamed(r, names)
    decreases |names|
  {
    if names != [] {
      var more := AddedFile(b.host, word, entries, names[0], Parts(names[0]), false).value;
      EarlyFile(b, word, entries, names[0], false, more);
      EarlyFiles(b, word, more, names[1..], r);
      IncludesKeeps(more, r);
    }
  }

  /** The loader answers for the binary, and all it lists is planned. */
  ghost predicate Linked(host: HostTree, entries: seq<Entry>, binary: Path) {
    host.dependencies(binary).Some? && AllNamed(entries, Stripped(host.dependencies(binary).value))
  }

  lemma {:induction false} EarlyDependencies(b: Basis, word: Code -> bool, entries: seq<Entry>,
                                             binaries: seq<Path>, r: seq<Entry>)
    requires RealHost(b.host) && Early(b, entries)
    requires forall y, n | y in binaries && ListedFor(b.host, y, n) :: Parts(n) in b.asked
    requires AddedDependencies(b.host, word, entries, binaries) == Some(r)
    ensures Early(b, r) && Includes(entries, r)
    ensures forall y | y in binaries :: Linked(b.host, r, y)
    decreases |binaries|
  {
    if binaries != [] {
      var names := Stripped(b.host.dependencies(binaries[0]).value);
      var more := AddedFiles(b.host, word, entries, names).value;
      assert forall n | n in names :: ListedFor(b.host, binaries[0], n);
      EarlyFiles(b, word, entries, names, more);
      EarlyDependencies(b, word, more, binaries[1..], r);
      IncludesKeeps(more, r);
    }
  }

  // ----- the walk -----

  ghost predicate Kept(a: map<Path, Origin>, b: map<Path, Origin>) {
    forall p | p in a :: p in b && b[p] == a[p]
  }

  /** The directory looked up at a source was walked from there, under this name. */
  ghost predicate WalkedFrom(host: HostTree, home: map<Path, Origin>, o: Origin) {
    host.directory(o.source).Some? && host.directory(o.source).value in home && home[host.directory(o.source).value] == o
  }

  /** One child of a walked directory is planned, and walked if it is a directory. */
  ghost predicate ChildCovered(host: HostTree, entries: seq<Entry>, home: map<Path, Origin>, o: Origin, c: Child) {
    Ignored(c.name)
    || (HasName(entries, o.name + [SLASH] + c.name)
        && (c.isDirectory ==> WalkedFrom(host, home, Origin(o.source + [c.name], o.name + [SLASH] + c.name))))
  }

  ghost predicate AllCovered(host: HostTree, entries: seq<Entry>, home: map<Path, Origin>, o: Origin, children: seq<Child>) {
    forall c | c in children :: ChildCovered(host, entries, home, o, c)
  }

  lemma CoveredGrows(host: HostTree, a: seq<Entry>, b: seq<Entry>, v: map<Path, Origin>, w: map<Path, Origin>, o: Origin,
                     children: seq<Child>)
    requires AllCovered(host, a, v, o, children) && Keeps(a, b) && Kept(v, w)
    ensures AllCovered(host, b, w, o, children)
  {
    forall c | c in children ensures ChildCovered(host, b, w, o, c) { assert ChildCovered(host, a, v, o, c); }
  }

  /** A visited directory was walked to the end from where the plan met it. */
  ghost predicate WalkedAt(host: HostTree, d: Draft, p: Path)
    requires p in d.home
  {
    p in host.children && AllCovered(host, d.entries, d.home, d.home[p], host.children[p])
  }

  ghost predicate Walked(host: HostTree, before: set<Path>, d: Draft) {
    forall p | p in d.home && p !in before :: WalkedAt(host, d, p)
  }

  /** What was planned and visited stays so. */
  ghost predicate Onwards(a: Draft, b: Draft) { Includes(a.entries, b.entries) && Kept(a.home, b.home) }

  lemma OnwardsTwice(a: Draft, b: Draft, c: Draft)
    requires Onwards(a, b) && Onwards(b, c)
    ensures Onwards(a, c)
  {}

  lemma WalkedMore(host: HostTree, before: set<Path>, a: Draft, b: Draft)
    requires Walked(host, before, a) && Onwards(a, b) && Walked(host, a.home.Keys, b)
    ensures Walked(host, before, b)
  {
    IncludesKeeps(a.entries, b.entries);
    forall p | p in b.home && p !in before ensures WalkedAt(host, b, p) {
      if p in a.home {
        assert WalkedAt(host, a, p);
        CoveredGrows(host, a.entries, b.entries, a.home, b.home, a.home[p], host.children[p]);
      }
    }
  }

  /** All files that a walk comes to are asked for, and all directories may be walked. */
  ghost predicate AsksBelow(b: Basis, base: Path) {
    (forall q | ReachedFile(b.host, base, q) :: q in b.asked) && (forall q | Reached(b.host, base, q) :: q in b.walks)
  }

  /** These children are listed in the directory looked up at the source. */
  ghost predicate Scanned(host: HostTree, source: Path, children: seq<Child>) {
    && host.directory(source).Some? && host.directory(source).value in host.children
    && forall c | c in children :: c in host.children[host.directory(source).value]
  }

  lemma ChildReached(host: HostTree, base: Path, source: Path, children: seq<Child>, c: Child)
    requires Reached(host, base, source) && Scanned(host, source, children) && c in children && !Ignored(c.name)
    ensures if c.isDirectory then Reached(host, base, source + [c.name]) else ReachedFile(host, base, source + [c.name])
  {
    var q := source + [c.name];
    assert Parent(q) == source && q[|q| - 1] == c.name;
    assert ListedAt(host, q, c.isDirectory);
  }

  lemma {:induction false} TreeWalked(b: Basis, word: Code -> bool, base: Path, d: Draft, source: Path, name: Text, r: Draft)
    requires RealHost(b.host) && Early(b, d.entries) && AsksBelow(b, base)
    requires Canonical(name) && name != HERE && source == Parts(name) && Reached(b.host, base, source)
    requires WalkTree(b.host, word, d, source, name) == Some(r)
    ensures Early(b, r.entries) && Onwards(d, r) && Walked(b.host, d.home.Keys, r) && HasName(r.entries, name)
    ensures WalkedFrom(b.host, r.home, Origin(source, name))
    decreases b.host.children.Keys - d.home.Keys, 0, 0
  {
    var place := b.host.directory(source).value;
    var entries := AddedDirectory(d.entries, source).value;
    var next := Draft(entries, d.home[place := Origin(source, name)]);
    assert place in b.host.children.Keys - d.home.Keys && place !in b.host.children.Keys - next.home.Keys;
    ResolvedIsFree(b.host, source);
    CanonicalOrdinary(name);
    assert source in b.walks && source <= source;
    EarlyPrefixes(b, d.entries, source, |source|, entries);
    HereHasNoParts();
    AllPrefixes(entries, source);
    PrefixIncludes(d.entries, entries);
    var children := Scan(b.host, place);
    SortElements(b.host.children[place], (c: Child) => c.name);
    ChildrenWalked(b, word, base, next, source, name, children, r);
    IncludesKeeps(entries, r.entries);
    assert WalkedAt(b.host, r, place);
    OnwardsTwice(d, next, r);
  }

  lemma FirstCovered(host: HostTree, next: Draft, r: Draft, o: Origin, children: seq<Child>)
    requires children != [] && ChildCovered(host, next.entries, next.home, o, children[0]) && Onwards(next, r)
    requires AllCovered(host, r.entries, r.home, o, children[1..])
    ensures AllCovered(host, r.entries, r.home, o, children)
  {
    IncludesKeeps(next.entries, r.entries);
    assert children == [children[0]] + children[1..];
  }

  lemma {:induction false} ChildrenWalked(b: Basis, word: Code -> bool, base: Path, d: Draft, source: Path, name: Text,
                                          children: seq<Child>, r: Draft)
    requires RealHost(b.host) && Early(b, d.entries) && AsksBelow(b, base)
    requires Canonical(name) && name != HERE && source == Parts(name) && OrdinaryChildren(children)
    requires Reached(b.host, base, source) && Scanned(b.host, source, children)
    requires WalkChildren(b.host, word, d, source, name, children) == Some(r)
    ensures Early(b, r.entries) && Onwards(d, r) && Walked(b.host, d.home.Keys, r)
    ensures AllCovered(b.host, r.entries, r.home, Origin(source, name), children)
    decreases b.host.children.Keys - d.home.Keys, |children|, 2
  {
    if children != [] {
      var next := WalkChild(b.host, word, d, source, name, children[0]).value;
      ChildWalked(b, word, base, d, source, name, children[0], next);
      ChildrenWalked(b, word, base, next, source, name, children[1..], r);
      WalkedMore(b.host, d.home.Keys, next, r);
      OnwardsTwice(d, next, r);
      FirstCovered(b.host, next, r, Origin(source, name), children);
    }
  }

  lemma {:induction false} ChildWalked(b: Basis, word: Code -> bool, base: Path, d: Draft, source: Path, name: Text,
                                       child: Child, r: Draft)
    requires RealHost(b.host) && Early(b, d.entries) && AsksBelow(b, base)
    requires Canonical(name) && name != HERE && source == Parts(name) && OrdinaryName(child.name)
    requires Reached(b.host, base, source) && Scanned(b.host, source, [child])
    requires WalkChild(b.host, word, d, source, name, child) == Some(r)
    ensures Early(b, r.entries) && Onwards(d, r) && Walked(b.host, d.home.Keys, r)
    ensures ChildCovered(b.host, r.entries, r.home, Origin(source, name), child)
    decreases b.host.children.Keys - d.home.Keys, 0, 1
  {
    if !Ignored(child.name) {
      var dest, path := name + [SLASH] + child.name, source + [child.name];
      ChildName(name, child.name);
      HereHasNoParts();
      ChildReached(b.host, base, source, [child], child);
      if child.isDirectory {
        TreeWalked(b, word, base, d, path, dest, r);
      } else {
        EarlyFile(b, word, d.entries, dest, true, r.entries);
      }
    }
  }

  // ----- what is added whatever the host -----

  function ExtraPath(i: nat): Path
    requires i < |ExtraLibraries()|
  {
    Parts(HOST_LIB) + [ExtraLibraries()[i]]
  }

  /** An extra library from its host directory. */
  predicate ExtraEntry(host: HostTree, i: nat, e: Entry)
    requires i < |ExtraLibraries()|
  {
    Usable(host, ExtraPath(i), false) && e == FileEntry(ExtraName(i), host.file(ExtraPath(i)).value)
  }

  predicate IsExtraEntry(host: HostTree, e: Entry) { exists i | 0 <= i < |ExtraLibraries()| :: ExtraEntry(host, i, e) }

  predicate IsHelperEntry(helpers: Helpers, e: Entry) {
    e == HelperEntry(helpers.supervisor, helpers.supervisorData) || e == HelperEntry(helpers.bridge, helpers.bridgeData)
  }

  predicate IsPlaceholderEntry(e: Entry) {
    e == EmptyFile(SETTINGS) || e == EmptyFile(MCP) || e == EmptyFile(EGRESS) || e == LINK_ENTRY
  }

  /** The path is above a fixed file, or at or above a mount point. */
  predicate LeadsInto(helpers: Helpers, name: Text, parts: Path) {
    if FixedFile(helpers, name) then parts < Parts(name) else name in MountPoints() && parts <= Parts(name)
  }

  ghost predicate LeadsToFixed(helpers: Helpers, parts: Path) { exists n :: LeadsInto(helpers, n, parts) }

  /** An entry added to what was planned early; only placeholders replace anything. */
  ghost predicate LateEntry(host: HostTree, helpers: Helpers, early: seq<Entry>, e: Entry) {
    if e.body.Directory? then e.mode == MODE_555 && LeadsToFixed(helpers, Parts(e.name))
    else IsPlaceholderEntry(e) || (!HasName(early, e.name) && (IsExtraEntry(host, e) || IsHelperEntry(helpers, e)))
  }

  /** The host and the helpers, what was planned early, what may be added to it, and which names may be replaced. */
  datatype Ground = Ground(host: HostTree, helpers: Helpers, early: seq<Entry>, late: iset<Entry>, replaced: set<Text>)

  ghost function GroundOf(host: HostTree, helpers: Helpers, early: seq<Entry>): Ground {
    Ground(host, helpers, early, iset e: Entry | LateEntry(host, helpers, early, e), {SETTINGS, MCP, EGRESS, PYTHON_LINK})
  }

  ghost predicate Grounded(g: Ground) {
    && g.helpers.Based() && (forall e :: e in g.late <==> LateEntry(g.host, g.helpers, g.early, e))
    && forall n :: n in g.replaced <==> Placeholder(n)
  }

  /** The directories on the way to a path may be added. */
  ghost predicate Leading(g: Ground, parts: Path) {
    forall k | 0 < k <= |parts| :: Entry(Render(Above(parts, k)), MODE_555, Directory) in g.late
  }

  lemma FixedLeads(g: Ground, parts: Path, name: Text)
    requires Grounded(g) && LeadsInto(g.helpers, name, parts) && OrdinaryParts(parts)
    ensures Leading(g, parts)
  {
    forall k | 0 < k <= |parts| ensures Entry(Render(Above(parts, k)), MODE_555, Directory) in g.late {
      OrdinaryRender(Above(parts, k));
      assert Above(parts, k) <= parts && LeadsInto(g.helpers, name, Above(parts, k));
    }
  }

  ghost predicate Late(g: Ground, entries: seq<Entry>) {
    && Valid(entries, g.helpers.Names()) && Keeps(g.early, entries)
    && (forall x | x in entries :: x in g.early || x in g.late)
    && (forall x | x in g.early :: x in entries || x.name in g.replaced)
  }

  lemma LateFirst(g: Ground)
    requires Valid(g.early, g.helpers.Names())
    ensures Late(g, g.early)
  {}

  lemma LatePrefix(g: Ground, entries: seq<Entry>, parts: Path, n: nat)
    requires Late(g, entries) && OrdinaryParts(parts) && 0 < n <= |parts|
    requires Leading(g, parts) && PrefixesPlanned(entries, parts, n - 1)
    ensures var r := SetDefault(entries, Entry(Render(Above(parts, n)), MODE_555, Directory));
      Late(g, r) && PrefixesPlanned(r, parts, n)
  {
    var e := Entry(Render(Above(parts, n)), MODE_555, Directory);
    AncestorsOfPrefix(entries, parts, n);
    OrdinaryRender(Above(parts, n));
    DefaultValid(entries, g.helpers.Names(), e);
    DefaultKeeps(entries, e);
    PrefixIncludes(entries, SetDefault(entries, e));
  }

  lemma {:induction false} LatePrefixes(g: Ground, entries: seq<Entry>, parts: Path, n: nat, r: seq<Entry>)
    requires Late(g, entries) && OrdinaryParts(parts) && n <= |parts|
    requires Leading(g, parts) && r == WithPrefixes(entries, parts, n)
    ensures Late(g, r) && PrefixesPlanned(r, parts, n)
    decreases n
  {
    if n > 0 {
      var before := WithPrefixes(entries, parts, n - 1);
      LatePrefixes(g, entries, parts, n - 1, before);
      LatePrefix(g, before, parts, n);
    }
  }

  /** What is under any other name stays. */
  ghost predicate OthersStay(a: seq<Entry>, b: seq<Entry>, name: Text) {
    Keeps(a, b) && forall x | x in a && x.name != name :: x in b
  }

  lemma LatePut(g: Ground, entries: seq<Entry>, e: Entry)
    requires Late(g, entries) && e in g.late && !e.body.Directory?
    requires Named(e.name, g.helpers.Names()) && e.name != HERE && AncestorsPlanned(entries, Parts(e.name))
    requires HasName(g.early, e.name) ==> e.name in g.replaced
    ensures Late(g, Put(entries, e)) && e in Put(entries, e) && OthersStay(entries, Put(entries, e), e.name)
  {
    PutValid(entries, g.helpers.Names(), e);
    PutKeeps(entries, e);
    PutOthers(entries, e);
    forall x | x in g.early ensures x in Put(entries, e) || x.name in g.replaced {
      EntryHas(g.early, x);
    }
  }

  /** The file or link may be added, with the directories above it, and replaces nothing it may not. */
  ghost predicate MayAdd(g: Ground, e: Entry) {
    && e in g.late && !e.body.Directory? && Named(e.name, g.helpers.Names()) && e.name != HERE
    && Parts(e.name) != [] && OrdinaryParts(Parent(Parts(e.name))) && Leading(g, Parent(Parts(e.name)))
    && (HasName(g.early, e.name) ==> e.name in g.replaced)
  }

  lemma LateUnder(g: Ground, entries: seq<Entry>, e: Entry, r: seq<Entry>)
    requires Late(g, entries) && MayAdd(g, e) && AddedUnder(entries, e) == Some(r)
    ensures Late(g, r) && e in r && OthersStay(entries, r, e.name)
  {
    var up := Parent(Parts(e.name));
    var more := WithPrefixes(entries, up, |up|);
    LatePrefixes(g, entries, up, |up|, more);
    PrefixIncludes(entries, more);
    AncestorsOfChild(more, Parts(e.name));
    LatePut(g, more, e);
  }

  lemma ExtraMayAdd(g: Ground, i: nat, e: Entry)
    requires Grounded(g) && i < |ExtraLibraries()| && ExtraEntry(g.host, i, e) && !HasName(g.early, ExtraName(i))
    ensures MayAdd(g, e)
  {
    assert IsExtraName(e.name);
    ExtraParts(i);
    CanonicalOrdinary(ExtraName(i));
    FixedLeads(g, Parent(Parts(ExtraName(i))), ExtraName(i));
  }

  lemma LateExtra(g: Ground, word: Code -> bool, entries: seq<Entry>, i: nat, r: seq<Entry>)
    requires Grounded(g) && Late(g, entries) && i < |ExtraLibraries()| && AddedExtra(g.host, word, entries, i) == Some(r)
    ensures Late(g, r) && Keeps(entries, r) && HasName(r, ExtraName(i))
  {
    if !HasName(entries, ExtraName(i)) {
      var e := FileEntry(ExtraName(i), g.host.file(ExtraPath(i)).value);
      ExtraMayAdd(g, i, e);
      LateUnder(g, entries, e, r);
      EntryHas(r, e);
    }
  }

  /** The extra libraries from number i on are planned. */
  ghost predicate ExtrasNamed(entries: seq<Entry>, i: nat) {
    forall k | i <= k < |ExtraLibraries()| :: HasName(entries, ExtraName(k))
  }

  lemma OneExtraMore(a: seq<Entry>, b: seq<Entry>, i: nat)
    requires i < |ExtraLibraries()| && HasName(a, ExtraName(i)) && Keeps(a, b) && ExtrasNamed(b, i + 1)
    ensures ExtrasNamed(b, i)
  {}

  lemma {:induction false} LateExtras(g: Ground, word: Code -> bool, entries: seq<Entry>, i: nat, r: seq<Entry>)
    requires Grounded(g) && Late(g, entries) && i <= |ExtraLibraries()| && AddedExtras(g.host, word, entries, i) == Some(r)
    ensures Late(g, r) && Keeps(entries, r) && ExtrasNamed(r, i)
    decreases |ExtraLibraries()| - i
  {
    if i < |ExtraLibraries()| {
      var more := AddedExtra(g.host, word, entries, i).value;
      LateExtra(g, word, entries, i, more);
      LateExtras(g, word, more, i + 1, r);
      OneExtraMore(more, r, i);
    }
  }

  lemma HelperMayAdd(g: Ground, base: Text, data: Text)
    requires Grounded(g) && HelperBase(base) && IsHelperEntry(g.helpers, HelperEntry(base, data))
    requires !HasName(g.early, HelperName(base))
    ensures MayAdd(g, HelperEntry(base, data))
  {
    HelperCanonical(base);
    HelperParent(base);
    FixedLeads(g, Parent(Parts(HelperName(base))), HelperName(base));
  }

  lemma LateHelper(g: Ground, entries: seq<Entry>, base: Text, data: Text, r: seq<Entry>)
    requires Grounded(g) && Late(g, entries) && HelperBase(base) && IsHelperEntry(g.helpers, HelperEntry(base, data))
    requires AddedHelper(entries, base, data) == Some(r)
    ensures Late(g, r) && HelperEntry(base, data) in r && Includes(entries, r)
    ensures !HasName(entries, HelperName(base)) && HasName(r, HelperName(base))
  {
    var e := HelperEntry(base, data);
    HelperMayAdd(g, base, data);
    LateUnder(g, entries, e, r);
    forall x | x in entries ensures x in r { EntryHas(entries, x); }
    EntryHas(r, e);
  }

  lemma HelperParent(base: Text)
    requires HelperBase(base)
    ensures OrdinaryParts(Parent(Parts(HelperName(base))))
  {
    HelperCanonical(base);
    LibexecParts();
    CanonicalOrdinary(LIBEXEC);
    var up := Parent(Parts(HelperName(base)));
    forall i | 0 <= i < |up| ensures OrdinaryName(up[i]) { assert up[i] == Parts(LIBEXEC)[i]; }
  }

  lemma LateHelpers(g: Ground, entries: seq<Entry>, r: seq<Entry>)
    requires Grounded(g) && Late(g, entries) && g.helpers.Based() && AddedHelpers(entries, g.helpers) == Some(r)
    ensures Late(g, r) && Includes(entries, r) && g.helpers.supervisor != g.helpers.bridge
    ensures HelperEntry(g.helpers.supervisor, g.helpers.supervisorData) in r && HelperEntry(g.helpers.bridge, g.helpers.bridgeData) in r
  {
    var one := AddedHelper(entries, g.helpers.supervisor, g.helpers.supervisorData).value;
    LateHelper(g, entries, g.helpers.supervisor, g.helpers.supervisorData, one);
    LateHelper(g, one, g.helpers.bridge, g.helpers.bridgeData, r);
  }

  /** The name and everything above it are planned. */
  ghost predicate Mounted(entries: seq<Entry>, name: Text) { PrefixesPlanned(entries, Parts(name), |Parts(name)|) }

  lemma {:induction false} LateDirectories(g: Ground, entries: seq<Entry>, names: seq<Text>, r: seq<Entry>)
    requires Late(g, entries) && AddedDirectories(entries, names) == Some(r)
    requires forall n | n in names :: Leading(g, Parts(n)) && OrdinaryParts(Parts(n))
    ensures Late(g, r) && Includes(entries, r) && forall n | n in names :: Mounted(r, n)
    decreases |names|
  {
    if names != [] {
      var parts := Parts(names[0]);
      var more := WithPrefixes(entries, parts, |parts|);
      LatePrefixes(g, entries, parts, |parts|, more);
      PrefixIncludes(entries, more);
      LateDirectories(g, more, names[1..], r);
      IncludesKeeps(more, r);
      PrefixesStay(more, r, parts, |parts|);
    }
  }

  lemma MountedName(entries: seq<Entry>, name: Text)
    requires Canonical(name) && name != HERE && Mounted(entries, name)
    ensures HasName(entries, name)
  {
    CanonicalOrdinary(name);
    AllPrefixes(entries, Parts(name));
  }

  lemma LateMounts(g: Ground, entries: seq<Entry>, r: seq<Entry>)
    requires Grounded(g) && Late(g, entries) && AddedDirectories(entries, MountPoints()) == Some(r)
    ensures Late(g, r) && Includes(entries, r)
    ensures AllNamed(r, MountPoints()) && Mounted(r, ETC_CLAUDE)
  {
    forall n | n in MountPoints() ensures Leading(g, Parts(n)) && OrdinaryParts(Parts(n)) && Canonical(n) && n != HERE {
      var i :| 0 <= i < |MountPoints()| && MountPoints()[i] == n;
      MountParts(i);
      CanonicalOrdinary(n);
      MountIsNoFile(g.helpers, n);
      FixedLeads(g, Parts(n), n);
    }
    LateDirectories(g, entries, MountPoints(), r);
    forall n | n in MountPoints() ensures HasName(r, n) { MountedName(r, n); }
    assert MountPoints()[5] == ETC_CLAUDE;
  }

  /** The directory above a name is planned. */
  ghost predicate Housed(entries: seq<Entry>, name: Text) {
    Parts(name) != [] && PrefixesPlanned(entries, Parent(Parts(name)), |Parts(name)| - 1)
  }

  lemma HousedStays(a: seq<Entry>, b: seq<Entry>, name: Text)
    requires Housed(a, name) && Keeps(a, b)
    ensures Housed(b, name)
  {
    PrefixesStay(a, b, Parent(Parts(name)), |Parts(name)| - 1);
  }

  ghost predicate MayReplace(g: Ground, e: Entry) {
    e in g.late && e.name in g.replaced && Placeholder(e.name) && !e.body.Directory?
  }

  /** An empty file put where the directory above it is planned. */
  lemma LatePlaceholder(g: Ground, entries: seq<Entry>, e: Entry)
    requires Late(g, entries) && MayReplace(g, e) && Housed(entries, e.name)
    ensures Late(g, Put(entries, e)) && e in Put(entries, e) && OthersStay(entries, Put(entries, e), e.name)
  {
    PlaceholderParts(e.name);
    AncestorsOfChild(entries, Parts(e.name));
    LatePut(g, entries, e);
  }

  /** Three placeholders of different names, one after the other. */
  lemma LateThree(g: Ground, entries: seq<Entry>, a: Entry, b: Entry, c: Entry, r: seq<Entry>)
    requires Late(g, entries) && MayReplace(g, a) && MayReplace(g, b) && MayReplace(g, c)
    requires Housed(entries, a.name) && Housed(entries, b.name) && Housed(entries, c.name)
    requires a.name != b.name && a.name != c.name && b.name != c.name && r == Put(Put(Put(entries, a), b), c)
    ensures Late(g, r) && Keeps(entries, r) && a in r && b in r && c in r
    ensures forall x | x in entries && x.name !in g.replaced :: x in r
  {
    var one, two := Put(entries, a), Put(Put(entries, a), b);
    LatePlaceholder(g, entries, a);
    HousedStays(entries, one, b.name);
    HousedStays(entries, one, c.name);
    LatePlaceholder(g, one, b);
    HousedStays(one, two, c.name);
    LatePlaceholder(g, two, c);
  }

  lemma EmptyParents(entries: seq<Entry>)
    requires Mounted(entries, ETC_CLAUDE)
    ensures Housed(entries, SETTINGS) && Housed(entries, MCP) && Housed(entries, EGRESS)
  {
    EtcClaudeParts();
    SettingsParts();
    McpParts();
    EgressParts();
    assert Parent(Parts(SETTINGS)) == Parts(ETC_CLAUDE) && Parent(Parts(MCP)) == Parts(ETC_CLAUDE);
  }

  lemma LateEmpty(g: Ground, entries: seq<Entry>, r: seq<Entry>)
    requires Grounded(g) && Late(g, entries) && Mounted(entries, ETC_CLAUDE)
    requires r == Put(Put(Put(entries, EmptyFile(SETTINGS)), EmptyFile(MCP)), EmptyFile(EGRESS))
    ensures Late(g, r) && Keeps(entries, r)
    ensures EmptyFile(SETTINGS) in r && EmptyFile(MCP) in r && EmptyFile(EGRESS) in r
    ensures forall x | x in entries && !Placeholder(x.name) :: x in r
  {
    PlaceholdersDiffer();
    EmptyParents(entries);
    LateThree(g, entries, EmptyFile(SETTINGS), EmptyFile(MCP), EmptyFile(EGRESS), r);
  }

  lemma LinkMayAdd(g: Ground)
    requires Grounded(g)
    ensures MayAdd(g, LINK_ENTRY)
  {
    LinkParts();
    CanonicalOrdinary(PYTHON_LINK);
    FixedLeads(g, Parent(Parts(PYTHON_LINK)), PYTHON_LINK);
  }

  lemma LateLink(g: Ground, entries: seq<Entry>, r: seq<Entry>)
    requires Grounded(g) && Late(g, entries) && AddedUnder(entries, LINK_ENTRY) == Some(r)
    ensures Late(g, r) && LINK_ENTRY in r && OthersStay(entries, r, PYTHON_LINK)
  {
    LinkMayAdd(g);
    LateUnder(g, entries, LINK_ENTRY, r);
  }

  lemma LatePlaceholders(g: Ground, entries: seq<Entry>, r: seq<Entry>)
    requires Grounded(g) && Late(g, entries) && AddedPlaceholders(entries) == Some(r)
    ensures Late(g, r) && Keeps(entries, r) && AllNamed(r, MountPoints())
    ensures EmptyFile(SETTINGS) in r && EmptyFile(MCP) in r && EmptyFile(EGRESS) in r && LINK_ENTRY in r
    ensures forall x | x in entries && !Placeholder(x.name) :: x in r
  {
    PlaceholdersDiffer();
    var mounted := AddedDirectories(entries, MountPoints()).value;
    var emptied := Put(Put(Put(mounted, EmptyFile(SETTINGS)), EmptyFile(MCP)), EmptyFile(EGRESS));
    LateMounts(g, entries, mounted);
    IncludesKeeps(entries, mounted);
    LateEmpty(g, mounted, emptied);
    LateLink(g, emptied, r);
  }

  /** Every fixed name is planned, the helpers and placeholders as what they are. */
  ghost predicate HoldsFixed(helpers: Helpers, r: seq<Entry>) {
    && ExtrasNamed(r, 0) && AllNamed(r, MountPoints())
    && HelperEntry(helpers.supervisor, helpers.supervisorData) in r && HelperEntry(helpers.bridge, helpers.bridgeData) in r
    && EmptyFile(SETTINGS) in r && EmptyFile(MCP) in r && EmptyFile(EGRESS) in r && LINK_ENTRY in r
  }

  lemma CompletedIsLate(g: Ground, word: Code -> bool, r: seq<Entry>)
    requires Grounded(g) && Valid(g.early, g.helpers.Names()) && Completed(g.host, word, g.helpers, g.early) == Some(r)
    ensures Late(g, r) && HoldsFixed(g.helpers, r) && g.helpers.supervisor != g.helpers.bridge
  {
    var extra := AddedExtras(g.host, word, g.early, 0).value;
    var helped := AddedHelpers(extra, g.helpers).value;
    LateFirst(g);
    LateExtras(g, word, g.early, 0, extra);
    LateHelpers(g, extra, helped);
    IncludesKeeps(extra, helped);
    LatePlaceholders(g, helped, r);
    HelperNotPlaceholder(g.helpers.supervisor);
    HelperNotPlaceholder(g.helpers.bridge);
  }

  lemma FixedIsNamed(helpers: Helpers, r: seq<Entry>, name: Text)
    requires HoldsFixed(helpers, r) && FixedName(helpers, name)
    ensures HasName(r, name)
  {
    EntryHas(r, HelperEntry(helpers.supervisor, helpers.supervisorData));
    EntryHas(r, HelperEntry(helpers.bridge, helpers.bridgeData));
    EntryHas(r, EmptyFile(SETTINGS));
    EntryHas(r, EmptyFile(MCP));
    EntryHas(r, EmptyFile(EGRESS));
    EntryHas(r, LINK_ENTRY);
  }
}
