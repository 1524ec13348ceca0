/** Planning the runtime tree from the host (scripts/claude_host_artifacts.py, runtime_plan). */
module RuntimePlan {
  import opened Texts
  import opened Wrappers
  import opened Sorting
  import opened PathParts
  import opened ArtifactInventory
  import opened FileSystem
  import opened Materialize
  import opened RuntimeShape
  import opened RuntimeNames

  /** What source_path and stat say of a host file. */
  datatype HostFileInfo = HostFileInfo(place: Path, regular: bool, size: nat, executable: bool)

  datatype Child = Child(name: Text, isDirectory: bool)

  /**
    The host: `file` and `directory` resolve a lookup path when root holds every step of it,
    `children` are the real directories with what a scan of each lists, and `dependencies`
    is the trusted loader's answer for a binary.
   */
  datatype HostTree = HostTree(
    file: Path -> Option<HostFileInfo>, directory: Path -> Option<Path>, fixed: Path -> bool,
    children: map<Path, seq<Child>>, dependencies: Path -> Option<seq<Text>>)

  /** The real directories at or below a place. */
  function Below(host: HostTree, place: Path): set<Path> { set p | p in host.children && place <= p }

  predicate EndsWith(name: Text, suffix: Text) { |suffix| <= |name| && name[|name| - |suffix|..] == suffix }

  lemma BelowShrinks(host: HostTree, place: Path, name: Text)
    requires place in host.children
    ensures Below(host, place + [name]) < Below(host, place)
  {
    assert place in Below(host, place) && place !in Below(host, place + [name]);
    forall p | p in Below(host, place + [name]) ensures p in Below(host, place) { assert place <= place + [name] <= p; }
  }

  /** rglob("*.so") of a real directory looked up at `source`: it goes through real directories, ignored ones too. */
  function SharedIn(host: HostTree, place: Path, source: Path, children: seq<Child>): seq<Path>
    requires place in host.children
    decreases Below(host, place), |children|
  {
    if children == [] then []
    else
      var name := children[0].name;
      BelowShrinks(host, place, name);
      (if EndsWith(name, SHARED_SUFFIX) then [source + [name]] else [])
      + (if place + [name] in host.children
         then SharedIn(host, place + [name], source + [name], host.children[place + [name]]) else [])
      + SharedIn(host, place, source, children[1..])
  }

  /** sorted((host_root / LIBRARY).rglob("*.so")) */
  function Libraries(host: HostTree): seq<Path> {
    match host.directory(Parts(LIBRARY))
    case None => []
    case Some(place) =>
      if place in host.children
      then Sort(SharedIn(host, place, Parts(LIBRARY), host.children[place]), (p: Path) => PartsKey(p)) else []
  }

  function Binaries(host: HostTree): seq<Path> { [Parts(PYTHON), Parts(GIT_BINARY), Parts(SHELL)] + Libraries(host) }

  /** The source resolves to a bounded regular file, not empty unless that is allowed. */
  predicate Usable(host: HostTree, source: Path, allowEmpty: bool) {
    && host.file(source).Some? && host.file(source).value.regular
    && (allowEmpty || host.file(source).value.size > 0) && host.file(source).value.size <= FILE_BYTES
  }

  // ----- planning as functions, without the bound on the number of entries -----

  const ROOT_ENTRY := Entry(HERE, MODE_555, Directory)

  function FileEntry(name: Text, f: HostFileInfo): Entry {
    Entry(name, if f.executable then MODE_555 else MODE_444, File(HostFile(f.place)))
  }

  function EmptyFile(name: Text): Entry { Entry(name, MODE_444, File(Data([]))) }

  function HelperEntry(base: Text, data: Text): Entry { Entry(HelperName(base), MODE_444, File(Data(data))) }

  const LINK_ENTRY := Entry(PYTHON_LINK, MODE_777, Link(PYTHON_NAME))

  /** The first n prefixes of a path planned as directories, unless their names were planned. */
  function WithPrefixes(entries: seq<Entry>, parts: seq<Text>, n: nat): (r: seq<Entry>)
    requires n <= |parts|
    ensures entries <= r
  {
    if n == 0 then entries
    else SetDefault(WithPrefixes(entries, parts, n - 1), Entry(Render(Above(parts, n)), MODE_555, Directory))
  }

  /** directory(name) */
  function AddedDirectory(entries: seq<Entry>, parts: seq<Text>): (r: Option<seq<Entry>>)
    ensures r.Some? ==> entries <= r.value
  {
    if |parts| > DEPTH then None else Some(WithPrefixes(entries, parts, |parts|))
  }

  /** directory(parent of the name), then entries[name] = e. */
  function AddedUnder(entries: seq<Entry>, e: Entry): (r: Option<seq<Entry>>)
    ensures r.Some? ==> |entries| <= |r.value|
    ensures r.Some? && !HasName(entries, e.name) ==> |entries| < |r.value|
  {
    var more :- AddedDirectory(entries, Parent(Parts(e.name)));
    assert |more| == |entries| ==> more == entries;
    Some(Put(more, e))
  }

  /** host_file(name, source, allow_empty=...) */
  function AddedFile(host: HostTree, word: Code -> bool, entries: seq<Entry>, name: Text, source: Path, allowEmpty: bool)
    : (r: Option<seq<Entry>>)
    ensures r.Some? ==> |entries| <= |r.value|
    ensures r.Some? && !HasName(entries, name) ==> |entries| < |r.value|
  {
    if !PlainName(name, word) then None
    else if HasName(entries, name) then Some(entries)
    else if !Usable(host, source, allowEmpty) then None
    else AddedUnder(entries, FileEntry(name, host.file(source).value))
  }

  /** Where a real directory was walked from. */
  datatype Origin = Origin(source: Path, name: Text)

  /** The entries planned so far, and the directories visited with where each was walked from. */
  datatype Draft = Draft(entries: seq<Entry>, home: map<Path, Origin>)

  ghost predicate Grows(d: Draft, r: Option<Draft>) {
    r.Some? ==> |d.entries| <= |r.value.entries| && d.home.Keys <= r.value.home.Keys
  }

  function Scan(host: HostTree, place: Path): seq<Child>
    requires place in host.children
  {
    Sort(host.children[place], (c: Child) => c.name)
  }

  /** tree(source, name): a directory already visited is refused, so a cycle of links ends the walk. */
  function WalkTree(host: HostTree, word: Code -> bool, d: Draft, source: Path, name: Text): (r: Option<Draft>)
    decreases host.children.Keys - d.home.Keys, 0, 0
    ensures Grows(d, r)
  {
    var place :- host.directory(source);
    if place in d.home || place !in host.children || !host.fixed(place) then None
    else
      var entries :- AddedDirectory(d.entries, Parts(name));
      var home := d.home[place := Origin(source, name)];
      assert place in host.children.Keys - d.home.Keys && place !in host.children.Keys - home.Keys;
      WalkChildren(host, word, Draft(entries, home), source, name, Scan(host, place))
  }

  /** The loop over a sorted scan. */
  function WalkChildren(host: HostTree, word: Code -> bool, d: Draft, source: Path, name: Text, children: seq<Child>)
    : (r: Option<Draft>)
    decreases host.children.Keys - d.home.Keys, |children|, 2
    ensures Grows(d, r)
  {
    if children == [] then Some(d)
    else
      var next :- WalkChild(host, word, d, source, name, children[0]);
      WalkChildren(host, word, next, source, name, children[1..])
  }

  /** One directory entry: passed over, walked, or planned as a file. */
  function WalkChild(host: HostTree, word: Code -> bool, d: Draft, source: Path, name: Text, child: Child): (r: Option<Draft>)
    decreases host.children.Keys - d.home.Keys, 0, 1
    ensures Grows(d, r)
  {
    var dest, path := name + [SLASH] + child.name, source + [child.name];
    if Ignored(child.name) then Some(d)
    else if child.isDirectory then WalkTree(host, word, d, path, dest)
    else
      var entries :- AddedFile(host, word, d.entries, dest, path, true);
      Some(Draft(entries, d.home))
  }

  /** host_file of each name at its own path, which may not be empty. */
  function AddedFiles(host: HostTree, word: Code -> bool, entries: seq<Entry>, names: seq<Text>): (r: Option<seq<Entry>>)
    decreases |names|
    ensures r.Some? ==> |entries| <= |r.value|
  {
    if names == [] then Some(entries)
    else
      var more :- AddedFile(host, word, entries, names[0], Parts(names[0]), false);
      AddedFiles(host, word, more, names[1..])
  }

  /** host_file of everything the trusted loader lists for each binary. */
  function AddedDependencies(host: HostTree, word: Code -> bool, entries: seq<Entry>, binaries: seq<Path>)
    : (r: Option<seq<Entry>>)
    decreases |binaries|
    ensures r.Some? ==> |entries| <= |r.value|
  {
    if binaries == [] then Some(entries)
    else
      var found :- host.dependencies(binaries[0]);
      var more :- AddedFiles(host, word, entries, Stripped(found));
      AddedDependencies(host, word, more, binaries[1..])
  }

  function AddedExtra(host: HostTree, word: Code -> bool, entries: seq<Entry>, i: nat): Option<seq<Entry>>
    requires i < |ExtraLibraries()|
  {
    AddedFile(host, word, entries, ExtraName(i), Parts(HOST_LIB) + [ExtraLibraries()[i]], false)
  }

  /** The extra libraries from number i on, looked up in their host directory. */
  function AddedExtras(host: HostTree, word: Code -> bool, entries: seq<Entry>, i: nat): (r: Option<seq<Entry>>)
    requires i <= |ExtraLibraries()|
    decreases |ExtraLibraries()| - i
    ensures r.Some? ==> |entries| <= |r.value|
  {
    if i == |ExtraLibraries()| then Some(entries)
    else
      var more :- AddedExtra(host, word, entries, i);
      AddedExtras(host, word, more, i + 1)
  }

  /** A helper from the reviewed sources, which may replace nothing. */
  function AddedHelper(entries: seq<Entry>, base: Text, data: Text): (r: Option<seq<Entry>>)
    ensures r.Some? ==> |entries| <= |r.value|
  {
    if HasName(entries, HelperName(base)) then None else AddedUnder(entries, HelperEntry(base, data))
  }

  function AddedDirectories(entries: seq<Entry>, names: seq<Text>): (r: Option<seq<Entry>>)
    decreases |names|
    ensures r.Some? ==> entries <= r.value
  {
    if names == [] then Some(entries)
    else
      var more :- AddedDirectory(entries, Parts(names[0]));
      AddedDirectories(more, names[1..])
  }

  /** The mount points, the empty files on them, and the python3 link. */
  function AddedPlaceholders(entries: seq<Entry>): (r: Option<seq<Entry>>)
    ensures r.Some? ==> |entries| <= |r.value|
  {
    var mounted :- AddedDirectories(entries, MountPoints());
    AddedUnder(Put(Put(Put(mounted, EmptyFile(SETTINGS)), EmptyFile(MCP)), EmptyFile(EGRESS)), LINK_ENTRY)
  }

  /** Host files, a tree and what binaries link to. */
  function CollectedFrom(host: HostTree, word: Code -> bool, names: seq<Text>, source: Path, name: Text, binaries: seq<Path>)
    : Option<Draft>
  {
    var files :- AddedFiles(host, word, [ROOT_ENTRY], names);
    var walked :- WalkTree(host, word, Draft(files, map[]), source, name);
    var linked :- AddedDependencies(host, word, walked.entries, binaries);
    Some(Draft(linked, walked.home))
  }

  /** The host names, the library tree and what the binaries link to. */
  function FromHost(host: HostTree, word: Code -> bool): Option<Draft> {
    CollectedFrom(host, word, HostNames(), Parts(LIBRARY), LIBRARY, Binaries(host))
  }

  function AddedHelpers(entries: seq<Entry>, helpers: Helpers): (r: Option<seq<Entry>>)
    ensures r.Some? ==> |entries| <= |r.value|
  {
    var one :- AddedHelper(entries, helpers.supervisor, helpers.supervisorData);
    AddedHelper(one, helpers.bridge, helpers.bridgeData)
  }

  /** What is added after that, whatever the host. */
  function Completed(host: HostTree, word: Code -> bool, helpers: Helpers, entries: seq<Entry>): (r: Option<seq<Entry>>)
    ensures r.Some? ==> |entries| <= |r.value|
  {
    var extra :- AddedExtras(host, word, entries, 0);
    var helped :- AddedHelpers(extra, helpers);
    AddedPlaceholders(helped)
  }

  function Drafted(host: HostTree, word: Code -> bool, helpers: Helpers): Option<Draft> {
    var d :- FromHost(host, word);
    var all :- Completed(host, word, helpers, d.entries);
    Some(Draft(all, d.home))
  }

  /** The plan: what is drafted without regard to the bound, in order, if it is within the bound. */
  function PlanFor(host: HostTree, word: Code -> bool, helpers: Helpers): Option<seq<Entry>> {
    var d :- Drafted(host, word, helpers);
    if |d.entries| > RUNTIME_LIMIT then None else Some(Sort(d.entries, EntryKey))
  }

  // ----- the planner -----

  /** A step is refused, or leads over the bound. */
  predicate Refused(r: Option<seq<Entry>>) { r.None? || |r.value| > RUNTIME_LIMIT }

  predicate RefusedDraft(r: Option<Draft>) { r.None? || |r.value.entries| > RUNTIME_LIMIT }

  /** A draft is refused with what it is completed from, or with its completion. */
  lemma DraftedIn(host: HostTree, word: Code -> bool, helpers: Helpers, early: Option<Draft>)
    requires early == FromHost(host, word)
    ensures RefusedDraft(early) ==> RefusedDraft(Drafted(host, word, helpers))
    ensures early.Some? ==>
      var all := Completed(host, word, helpers, early.value.entries);
      Drafted(host, word, helpers) == if all.None? then None else Some(Draft(all.value, early.value.home))
  {}

  ghost predicate Distinct(scans: seq<Path>) {
    forall i, j | 0 <= i < j < |scans| :: scans[i] != scans[j]
  }

  class Planner {
    var entries: seq<Entry>
    var visited: set<Path>
    ghost var scans: seq<Path>         // every directory scanned, in order
    ghost var home: map<Path, Origin>  // where each was walked from
    const host: HostTree
    const word: Code -> bool

    ghost predicate Ok()
      reads this
    {
      && visited == home.Keys && visited <= host.children.Keys
      && Distinct(scans) && forall p :: p in scans <==> p in visited
    }

    ghost function Now(): Draft
      reads this
    {
      Draft(entries, home)
    }

    constructor (host: HostTree, word: Code -> bool)
      ensures Ok() && this.host == host && this.word == word
      ensures Now() == Draft([ROOT_ENTRY], map[])
    {
      this.host, this.word := host, word;
      entries := [ROOT_ENTRY];
      visited, scans, home := {}, [], map[];
    }

    /** directory(name): refused exactly beyond 32 parts. */
    method AddDirectory(name: Text) returns (ok: bool)
      modifies this`entries
      ensures ok == (|Parts(name)| <= DEPTH)
      ensures AddedDirectory(old(entries), Parts(name)) == if ok then Some(entries) else None
    {
      ok := AddParts(Parts(name));
    }

    method AddParts(parts: seq<Text>) returns (ok: bool)
      modifies this`entries
      ensures ok == (|parts| <= DEPTH)
      ensures AddedDirectory(old(entries), parts) == if ok then Some(entries) else None
    {
      if |parts| > DEPTH {
        return false;
      }
      for index := 1 to |parts| + 1
        invariant entries == WithPrefixes(old(entries), parts, index - 1)
      {
        entries := SetDefault(entries, Entry(Render(Above(parts, index)), MODE_555, Directory));
      }
      ok := true;
    }

    /** The directory above a name, then the name itself. */
    method AssignUnder(e: Entry) returns (ok: bool)
      modifies this`entries
      ensures ok == (|Parts(e.name)| <= DEPTH + 1)
      ensures ok ==> AddedUnder(old(entries), e) == Some(entries)
      ensures !ok ==> AddedUnder(old(entries), e) == None
    {
      ok := AddParts(Parent(Parts(e.name)));
      if ok {
        entries := Put(entries, e);
      }
    }

    /** host_file(name, source, allow_empty=...) */
    method AddHostFile(name: Text, source: Path, allowEmpty: bool) returns (ok: bool)
      modifies this`entries
      ensures ok == (PlainName(name, word)
                     && (HasName(old(entries), name)
                         || (|old(entries)| < RUNTIME_LIMIT && Usable(host, source, allowEmpty) && |Parts(name)| <= DEPTH + 1)))
      ensures ok ==> AddedFile(host, word, old(entries), name, source, allowEmpty) == Some(entries)
      ensures !ok ==> Refused(AddedFile(host, word, old(entries), name, source, allowEmpty))
    {
      if !PlainName(name, word) {
        return false;
      }
      if HasName(entries, name) {
        return true;
      }
      if |entries| >= RUNTIME_LIMIT || !Usable(host, source, allowEmpty) {
        return false;
      }
      ok := AssignUnder(FileEntry(name, host.file(source).value));
    }

    /** tree(source, name): a directory already visited is refused. */
    method AddTree(source: Path, name: Text) returns (ok: bool)
      requires Ok()
      modifies this
      decreases host.children.Keys - visited, 0
      ensures Ok() && old(visited) <= visited
      ensures ok ==> WalkTree(host, word, old(Now()), source, name) == Some(Now())
      ensures !ok ==> RefusedDraft(WalkTree(host, word, old(Now()), source, name))
      ensures host.directory(source).Some? && host.directory(source).value in old(visited) ==> !ok
    {
      var resolved := host.directory(source);
      if resolved.None? || resolved.value in visited || resolved.value !in host.children || !host.fixed(resolved.value) {
        return false;
      }
      var place := resolved.value;
      Visit(place, Origin(source, name));
      ok := AddDirectory(name);
      if !ok {
        return;
      }
      ok := AddChildren(source, name, Sort(host.children[place], (c: Child) => c.name));
    }

    /** The loop over a sorted scan. */
    method AddChildren(source: Path, name: Text, children: seq<Child>) returns (ok: bool)
      requires Ok()
      modifies this
      decreases host.children.Keys - visited, 2
      ensures Ok() && old(visited) <= visited
      ensures ok ==> WalkChildren(host, word, old(Now()), source, name, children) == Some(Now())
      ensures !ok ==> RefusedDraft(WalkChildren(host, word, old(Now()), source, name, children))
    {
      ghost var all := WalkChildren(host, word, Now(), source, name, children);
      for i := 0 to |children|
        invariant Ok() && old(visited) <= visited
        invariant all == WalkChildren(host, word, Now(), source, name, children[i..])
      {
        assert children[i..][0] == children[i] && children[i..][1..] == children[i + 1..];
        ok := AddChild(source, name, children[i]);
        if !ok {
          return;
        }
      }
      assert children[|children|..] == [];
      ok := true;
    }

    /** One directory entry: passed over, walked, or planned as a file. */
    method AddChild(source: Path, name: Text, child: Child) returns (ok: bool)
      requires Ok()
      modifies this
      decreases host.children.Keys - visited, 1
      ensures Ok() && old(visited) <= visited
      ensures ok ==> WalkChild(host, word, old(Now()), source, name, child) == Some(Now())
      ensures !ok ==> RefusedDraft(WalkChild(host, word, old(Now()), source, name, child))
    {
      if Ignored(child.name) {
        return true;
      }
      var dest, path := name + [SLASH] + child.name, source + [child.name];
      if child.isDirectory {
        ok := AddTree(path, dest);
      } else {
        ok := AddHostFile(dest, path, true);
      }
    }

    /** visited_directories.add(place), and the scan of it. */
    method Visit(place: Path, ghost o: Origin)
      requires Ok() && place in host.children && place !in visited
      modifies this`visited, this`scans, this`home
      ensures Ok() && visited == old(visited) + {place} && home == old(home)[place := o]
    {
      visited := visited + {place};
      scans := scans + [place];
      home := home[place := o];
    }

    // ----- the fixed parts of the plan -----

    /** host_file of each name under the host's root. */
    method AddHostFiles(names: seq<Text>) returns (ok: bool)
      modifies this`entries
      ensures ok ==> AddedFiles(host, word, old(entries), names) == Some(entries)
      ensures !ok ==> Refused(AddedFiles(host, word, old(entries), names))
    {
      ghost var all := AddedFiles(host, word, entries, names);
      for i := 0 to |names|
        invariant all == AddedFiles(host, word, entries, names[i..])
      {
        assert names[i..][0] == names[i] && names[i..][1..] == names[i + 1..];
        ok := AddHostFile(names[i], Parts(names[i]), false);
        if !ok {
          return;
        }
      }
      assert names[|names|..] == [];
      ok := true;
    }

    /** host_file of everything the trusted loader lists for each binary. */
    method AddDependencies(binaries: seq<Path>) returns (ok: bool)
      modifies this`entries
      ensures ok ==> AddedDependencies(host, word, old(entries), binaries) == Some(entries)
      ensures !ok ==> Refused(AddedDependencies(host, word, old(entries), binaries))
    {
      ghost var all := AddedDependencies(host, word, entries, binaries);
      for i := 0 to |binaries|
        invariant all == AddedDependencies(host, word, entries, binaries[i..])
      {
        assert binaries[i..][0] == binaries[i] && binaries[i..][1..] == binaries[i + 1..];
        var found := host.dependencies(binaries[i]);
        if found.None? {
          return false;
        }
        ok := AddHostFiles(Stripped(found.value));
        if !ok {
          return;
        }
      }
      assert binaries[|binaries|..] == [];
      ok := true;
    }

    method AddExtraLibraries() returns (ok: bool)
      modifies this`entries
      ensures ok ==> AddedExtras(host, word, old(entries), 0) == Some(entries)
      ensures !ok ==> Refused(AddedExtras(host, word, old(entries), 0))
    {
      ghost var all := AddedExtras(host, word, entries, 0);
      for i := 0 to |ExtraLibraries()|
        invariant all == AddedExtras(host, word, entries, i)
      {
        ok := AddHostFile(ExtraName(i), Parts(HOST_LIB) + [ExtraLibraries()[i]], false);
        if !ok {
          return;
        }
      }
      ok := true;
    }

    /** A helper from the reviewed sources is refused exactly when its name is planned or too deep. */
    method AddHelper(base: Text, data: Text) returns (ok: bool)
      modifies this`entries
      ensures ok == (!HasName(old(entries), HelperName(base)) && |Parts(HelperName(base))| <= DEPTH + 1)
      ensures AddedHelper(old(entries), base, data) == if ok then Some(entries) else None
    {
      if HasName(entries, HelperName(base)) {
        return false;
      }
      ok := AssignUnder(HelperEntry(base, data));
    }

    method AddDirectories(names: seq<Text>) returns (ok: bool)
      modifies this`entries
      ensures ok ==> AddedDirectories(old(entries), names) == Some(entries)
      ensures !ok ==> AddedDirectories(old(entries), names) == None
    {
      ghost var all := AddedDirectories(entries, names);
      for i := 0 to |names|
        invariant all == AddedDirectories(entries, names[i..])
      {
        assert names[i..][0] == names[i] && names[i..][1..] == names[i + 1..];
        ok := AddDirectory(names[i]);
        if !ok {
          return;
        }
      }
      assert names[|names|..] == [];
      ok := true;
    }

    /** The mount points, the empty files on them, and the python3 link. */
    method AddPlaceholders() returns (ok: bool)
      modifies this`entries
      ensures ok ==> AddedPlaceholders(old(entries)) == Some(entries)
      ensures !ok ==> AddedPlaceholders(old(entries)) == None
    {
      ok := AddDirectories(MountPoints());
      if !ok {
        return;
      }
      entries := Put(entries, EmptyFile(SETTINGS));
      entries := Put(entries, EmptyFile(MCP));
      entries := Put(entries, EmptyFile(EGRESS));
      ok := AssignUnder(LINK_ENTRY);
    }

    /** Host files, a tree and what binaries link to. */
    method Gather(names: seq<Text>, source: Path, name: Text, binaries: seq<Path>) returns (ok: bool)
      requires Ok() && Now() == Draft([ROOT_ENTRY], map[])
      modifies this
      ensures Ok()
      ensures ok ==> CollectedFrom(host, word, names, source, name, binaries) == Some(Now())
      ensures !ok ==> RefusedDraft(CollectedFrom(host, word, names, source, name, binaries))
    {
      ok := AddHostFiles(names);
      if !ok {
        return;
      }
      ok := AddTree(source, name);
      if !ok {
        return;
      }
      ok := AddDependencies(binaries);
    }

    /** Both helpers. */
    method AddHelpers(helpers: Helpers) returns (ok: bool)
      modifies this`entries
      ensures ok ==> AddedHelpers(old(entries), helpers) == Some(entries)
      ensures !ok ==> AddedHelpers(old(entries), helpers) == None
    {
      ok := AddHelper(helpers.supervisor, helpers.supervisorData);
      if ok {
        ok := AddHelper(helpers.bridge, helpers.bridgeData);
      }
    }

    /** The extra libraries, the helpers and the placeholders. */
    method Complete(helpers: Helpers) returns (ok: bool)
      requires Ok()
      modifies this`entries
      ensures Ok()
      ensures ok ==> Completed(host, word, helpers, old(entries)) == Some(entries)
      ensures !ok ==> Refused(Completed(host, word, helpers, old(entries)))
    {
      ok := AddExtraLibraries();
      if !ok {
        return;
      }
      ok := AddHelpers(helpers);
      if !ok {
        return;
      }
      ok := AddPlaceholders();
    }

    /** All that comes from the host. */
    method GatherHost() returns (ok: bool)
      requires Ok() && Now() == Draft([ROOT_ENTRY], map[])
      modifies this
      ensures Ok()
      ensures ok ==> FromHost(host, word) == Some(Now())
      ensures !ok ==> RefusedDraft(FromHost(host, word))
    {
      ok := Gather(HostNames(), Parts(LIBRARY), LIBRARY, Binaries(host));
    }

    /** Everything up to the last check of the bound. */
    method GatherAll(helpers: Helpers) returns (ok: bool)
      requires Ok() && Now() == Draft([ROOT_ENTRY], map[])
      modifies this
      ensures Ok()
      ensures ok ==> Drafted(host, word, helpers) == Some(Now())
      ensures !ok ==> RefusedDraft(Drafted(host, word, helpers))
    {
      ok := GatherHost();
      DraftedIn(host, word, helpers, FromHost(host, word));
      if ok {
        ok := Complete(helpers);
      }
    }
  }

  /**
    runtime_plan(): the plan is given exactly when planning without regard to the bound succeeds and its result
    is within the bound, so the check before each file refuses nothing that the last one would admit.  No
    directory is scanned twice, whatever the links in the host tree.
   */
  method Plan(host: HostTree, word: Code -> bool, helpers: Helpers) returns (r: Option<seq<Entry>>, ghost scans: seq<Path>)
    ensures r == PlanFor(host, word, helpers)
    ensures Distinct(scans) && forall p | p in scans :: p in host.children
    ensures r.Some? ==> forall p :: p in scans <==> p in Drafted(host, word, helpers).value.home
  {
    var planner := new Planner(host, word);
    var ok := planner.GatherAll(helpers);
    scans := planner.scans;
    if !ok || |planner.entries| > RUNTIME_LIMIT {
      return None, scans;
    }
    r := Some(Sort(planner.entries, EntryKey));
  }
}
