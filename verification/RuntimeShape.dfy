/**
  The dict of planned runtime entries and what every insertion keeps: unique names, and
  every ancestor of a planned name planned as well (scripts/claude_host_artifacts.py).
 */
module RuntimeShape {
  import opened Texts
  import opened Wrappers
  import opened Sorting
  import opened PathParts
  import opened ArtifactInventory
  import opened FileSystem
  import opened Materialize

  // ----- a dict as its values in insertion order -----

  predicate HasName(entries: seq<Entry>, n: Text) {
    exists i | 0 <= i < |entries| :: entries[i].name == n
  }

  predicate Unique(entries: seq<Entry>) {
    forall i, j | 0 <= i < j < |entries| :: entries[i].name != entries[j].name
  }

  /** entries.setdefault(e.name, e) */
  function SetDefault(entries: seq<Entry>, e: Entry): seq<Entry> {
    if HasName(entries, e.name) then entries else entries + [e]
  }

  /** entries[e.name] = e: an old value is replaced where it stands. */
  function Put(entries: seq<Entry>, e: Entry): (r: seq<Entry>)
    ensures |r| == if HasName(entries, e.name) then |entries| else |entries| + 1
  {
    if entries == [] then [e]
    else if entries[0].name == e.name then
      assert HasName(entries, e.name);
      [e] + entries[1..]
    else
      assert HasName(entries[1..], e.name) <==> HasName(entries, e.name) by { NameInTail(entries, e.name); }
      [entries[0]] + Put(entries[1..], e)
  }

  lemma NameInTail(entries: seq<Entry>, n: Text)
    requires entries != [] && entries[0].name != n
    ensures HasName(entries[1..], n) <==> HasName(entries, n)
  {
    if HasName(entries, n) {
      var i :| 0 <= i < |entries| && entries[i].name == n;
      assert entries[1..][i - 1].name == n;
    }
    if HasName(entries[1..], n) {
      var i :| 0 <= i < |entries[1..]| && entries[1..][i].name == n;
      assert entries[i + 1].name == n;
    }
  }

  /** Every old position keeps its name, and its value unless the name is e's; e is there. */
  lemma {:induction false} PutAt(entries: seq<Entry>, e: Entry)
    requires Unique(entries)
    ensures var r := Put(entries, e);
      && |entries| <= |r| <= |entries| + 1
      && (forall i | 0 <= i < |entries| :: r[i] == if entries[i].name == e.name then e else entries[i])
      && (|r| > |entries| ==> r[|entries|] == e && !HasName(entries, e.name))
      && (exists i | 0 <= i < |r| :: r[i] == e)
  {
    if entries != [] {
      var rest := entries[1..];
      PutAt(rest, e);
      var r := Put(entries, e);
      if entries[0].name != e.name {
        NameInTail(entries, e.name);
        var i :| 0 <= i < |Put(rest, e)| && Put(rest, e)[i] == e;
        assert r[i + 1] == e;
      } else {
        assert r[0] == e;
      }
    }
  }

  lemma PutKeeps(entries: seq<Entry>, e: Entry)
    requires Unique(entries)
    ensures Unique(Put(entries, e)) && Keeps(entries, Put(entries, e)) && HasName(Put(entries, e), e.name)
    ensures forall i | 0 <= i < |Put(entries, e)| :: Put(entries, e)[i] == e || Put(entries, e)[i] in entries
  {
    PutAt(entries, e);
    var r := Put(entries, e);
    forall n | HasName(entries, n) ensures HasName(r, n) {
      var i :| 0 <= i < |entries| && entries[i].name == n;
      assert r[i].name == n;
    }
  }

  ghost predicate Keeps(a: seq<Entry>, b: seq<Entry>) {
    forall n | HasName(a, n) :: HasName(b, n)
  }

  lemma DefaultKeeps(entries: seq<Entry>, e: Entry)
    requires Unique(entries)
    ensures var r := SetDefault(entries, e); Unique(r) && entries <= r && Keeps(entries, r) && HasName(r, e.name)
  {
    var r := SetDefault(entries, e);
    if !HasName(entries, e.name) { assert r[|entries|] == e; }
    forall n | HasName(entries, n) ensures HasName(r, n) {
      var i :| 0 <= i < |entries| && entries[i].name == n;
      assert r[i].name == n;
    }
  }

  // ----- ancestors -----

  /** Every proper ancestor of the path but the root is planned. */
  predicate AncestorsPlanned(entries: seq<Entry>, parts: seq<Text>) {
    forall k | 0 < k < |parts| :: HasName(entries, Render(Above(parts, k)))
  }

  /** A name is in canonical form, unless it is one of the helpers' names, taken from a source constant. */
  predicate Named(name: Text, helpers: set<Text>) {
    Canonical(name) || (name in helpers && Relative(name))
  }

  predicate Planned(entries: seq<Entry>, helpers: set<Text>, e: Entry) {
    Named(e.name, helpers) && AncestorsPlanned(entries, Parts(e.name))
  }

  ghost predicate Valid(entries: seq<Entry>, helpers: set<Text>) {
    && Unique(entries)
    && entries != [] && entries[0] == Entry(HERE, MODE_555, Directory)
    && forall i | 0 <= i < |entries| :: Planned(entries, helpers, entries[i])
  }

  lemma AncestorsStay(a: seq<Entry>, b: seq<Entry>, parts: seq<Text>)
    requires AncestorsPlanned(a, parts) && Keeps(a, b)
    ensures AncestorsPlanned(b, parts)
  {}

  lemma DefaultValid(entries: seq<Entry>, helpers: set<Text>, e: Entry)
    requires Valid(entries, helpers) && Planned(entries, helpers, e)
    ensures Valid(SetDefault(entries, e), helpers)
  {
    var r := SetDefault(entries, e);
    DefaultKeeps(entries, e);
    forall i | 0 <= i < |r| ensures Planned(r, helpers, r[i]) {
      var kept := if i < |entries| then entries[i] else e;
      assert r[i] == kept && Planned(entries, helpers, kept);
      AncestorsStay(entries, r, Parts(r[i].name));
    }
  }

  lemma PutValid(entries: seq<Entry>, helpers: set<Text>, e: Entry)
    requires Valid(entries, helpers) && Planned(entries, helpers, e) && e.name != HERE
    ensures Valid(Put(entries, e), helpers)
  {
    var r := Put(entries, e);
    PutAt(entries, e);
    PutKeeps(entries, e);
    forall i | 0 <= i < |r| ensures Planned(r, helpers, r[i]) {
      assert Planned(entries, helpers, r[i]);
      AncestorsStay(entries, r, Parts(r[i].name));
    }
  }

  lemma StartValid(helpers: set<Text>)
    ensures Valid([Entry(HERE, MODE_555, Directory)], helpers)
  {
    HereHasNoParts();
    assert Canonical(HERE);
  }

  // ----- names -----

  predicate OrdinaryParts(parts: seq<Text>) {
    forall i | 0 <= i < |parts| :: OrdinaryName(parts[i])
  }

  lemma OrdinaryRender(parts: seq<Text>)
    requires OrdinaryParts(parts)
    ensures Canonical(Render(parts)) && Parts(Render(parts)) == parts
  {
    assert PlainParts(parts);
    PartsOfRender(parts);
  }

  lemma CanonicalOrdinary(name: Text)
    requires Canonical(name)
    ensures OrdinaryParts(Parts(name)) && Render(Parts(name)) == name
  {
    PartsPlain(name);
    forall i | 0 <= i < |Parts(name)| ensures OrdinaryName(Parts(name)[i]) { assert Parts(name)[i] in Parts(name); }
  }

  lemma {:induction false} JoinSnoc(parts: seq<Text>, last: Text)
    requires parts != []
    ensures Join(parts + [last], SLASH) == Join(parts, SLASH) + [SLASH] + last
  {
    var all := parts + [last];
    assert all[1..] == parts[1..] + [last];
    if |parts| > 1 {
      JoinSnoc(parts[1..], last);
      var j := Join(parts[1..], SLASH);
      ConcatAssociative(parts[0] + [SLASH], j, [SLASH]);
      ConcatAssociative(parts[0] + [SLASH], j + [SLASH], last);
    } else {
      assert Join(all[1..], SLASH) == last;
    }
  }

  /** f"{name}/{child}" */
  lemma ChildName(name: Text, child: Text)
    requires Canonical(name) && name != HERE && OrdinaryName(child)
    ensures Canonical(name + [SLASH] + child) && Parts(name + [SLASH] + child) == Parts(name) + [child]
  {
    CanonicalOrdinary(name);
    var parts := Parts(name);
    assert parts != [];
    JoinSnoc(parts, child);
    OrdinaryRender(parts + [child]);
  }

  // ----- the sorted result -----

  predicate EarlierName(r: seq<Entry>, i: nat, n: Text)
    requires i < |r|
  {
    exists j | 0 <= j < i :: r[j].name == n
  }

  /** Every ancestor of entry i stands before it. */
  predicate AncestorsFirst(r: seq<Entry>, i: nat)
    requires i < |r|
  {
    var parts := Parts(r[i].name);
    forall k | 0 < k < |parts| :: EarlierName(r, i, Render(Above(parts, k)))
  }

  /** The root first, no name twice, every ancestor before what is under it. */
  ghost predicate Shape(r: seq<Entry>, helpers: set<Text>) {
    && r != [] && r[0] == Entry(HERE, MODE_555, Directory) && Unique(r)
    && (forall i | 0 <= i < |r| :: Named(r[i].name, helpers) && AncestorsFirst(r, i))
  }

  lemma AncestorKeyLess(parts: seq<Text>, k: nat)
    requires k < |parts|
    ensures Less(PartsKey(Above(parts, k)), PartsKey(parts))
  {
    assert parts == Above(parts, k) + parts[k..];
    PartsKeyAppend(Above(parts, k), parts[k..]);
    assert PartsKey(parts[k..]) != [];
    PrefixLess(PartsKey(Above(parts, k)), PartsKey(parts[k..]));
  }

  lemma SortUnique(entries: seq<Entry>)
    requires Unique(entries)
    ensures Unique(Sort(entries, EntryKey))
  {
    var r := Sort(entries, EntryKey);
    SortElements(entries, EntryKey);
    forall i, j | 0 <= i < j < |entries| ensures entries[i] != entries[j] {}
    forall i, j | 0 <= i < j < |r| ensures r[i].name != r[j].name {
      if r[i].name == r[j].name {
        assert r[i] in entries && r[j] in entries;
        assert r[i] == r[j];
        TwiceIn(r, i, j);
        OnceIn(entries, r[i]);
      }
    }
  }

  /** Names of entries are relative, so their parts are plain. */
  lemma PartsArePlain(name: Text, helpers: set<Text>)
    requires Named(name, helpers)
    ensures PlainParts(Parts(name))
  {
    PartsPlain(name);
  }

  /** An element of a smaller key than r[i] stands before it. */
  lemma SmallerIsEarlier(r: seq<Entry>, i: nat, x: Entry)
    requires i < |r| && x in r && Ascending(r, EntryKey) && Less(EntryKey(x), EntryKey(r[i]))
    ensures EarlierName(r, i, x.name)
  {
    var j :| 0 <= j < |r| && r[j] == x;
    if j == i { LessIrreflexive(EntryKey(x)); }
    assert j < i;
  }

  lemma NamedAncestor(entries: seq<Entry>, r: seq<Entry>, i: nat, k: nat)
    requires i < |r| && 0 < k < |Parts(r[i].name)| && Ascending(r, EntryKey)
    requires forall e | e in entries :: e in r
    requires HasName(entries, Render(Above(Parts(r[i].name), k)))
    requires PlainParts(Parts(r[i].name))
    ensures EarlierName(r, i, Render(Above(Parts(r[i].name), k)))
  {
    var parts := Parts(r[i].name);
    var up := Above(parts, k);
    assert forall p | p in up :: p in parts;
    PartsOfRender(up);
    AncestorKeyLess(parts, k);
    var m :| 0 <= m < |entries| && entries[m].name == Render(up);
    SmallerIsEarlier(r, i, entries[m]);
  }

  lemma AncestorsInOrder(entries: seq<Entry>, r: seq<Entry>, i: nat)
    requires i < |r| && Ascending(r, EntryKey) && forall e | e in entries :: e in r
    requires AncestorsPlanned(entries, Parts(r[i].name)) && PlainParts(Parts(r[i].name))
    ensures AncestorsFirst(r, i)
  {
    var parts := Parts(r[i].name);
    forall k | 0 < k < |parts| ensures EarlierName(r, i, Render(Above(parts, k))) { NamedAncestor(entries, r, i, k); }
  }

  lemma RootStaysFirst(entries: seq<Entry>, r: seq<Entry>)
    requires r != [] && entries != [] && entries[0] in r && entries[0].name == HERE && Ascending(r, EntryKey)
    requires forall i | 0 <= i < |r| && Parts(r[i].name) == [] :: r[i].name == HERE
    requires Unique(r)
    ensures r[0] == entries[0]
  {
    HereHasNoParts();
    var j :| 0 <= j < |r| && r[j] == entries[0];
    assert EntryKey(r[j]) == [];
    assert j > 0 ==> EntryKey(r[0]) == [];
  }

  lemma EntriesPlanned(entries: seq<Entry>, helpers: set<Text>, e: Entry)
    requires Valid(entries, helpers) && e in entries
    ensures Planned(entries, helpers, e)
  {
    var m :| 0 <= m < |entries| && entries[m] == e;
  }

  /** Sorting by parts puts the root first and every ancestor before what is under it. */
  lemma SortedShape(entries: seq<Entry>, helpers: set<Text>)
    requires Valid(entries, helpers) && forall h | h in helpers :: Parts(h) != []
    ensures Shape(Sort(entries, EntryKey), helpers)
  {
    var r := Sort(entries, EntryKey);
    SortElements(entries, EntryKey);
    SortStable(entries, EntryKey);
    SortUnique(entries);
    forall i | 0 <= i < |r|
      ensures Named(r[i].name, helpers) && AncestorsFirst(r, i)
      ensures Parts(r[i].name) == [] ==> r[i].name == HERE
    {
      EntriesPlanned(entries, helpers, r[i]);
      PartsArePlain(r[i].name, helpers);
      AncestorsInOrder(entries, r, i);
    }
    assert entries[0] in entries;
    RootStaysFirst(entries, r);
  }

  // ----- when the shape can be written -----

  /** Whatever is planned above another entry is a directory. */
  ghost predicate AncestorsAreDirectories(r: seq<Entry>) {
    forall x, y | x in r && y in r && ProperlyAbove(Parts(x.name), Parts(y.name)) :: x.body.Directory?
  }

  ghost predicate AllNamesCanonical(names: set<Text>) {
    forall n | n in names :: Canonical(n)
  }

  /** The entry planned just above entry i. */
  lemma ShapeAbove(r: seq<Entry>, helpers: set<Text>, i: nat) returns (j: nat)
    requires Shape(r, helpers) && 1 <= i < |r| && Parts(r[i].name) != []
    ensures j < i && IsChild(Parts(r[i].name), Parts(r[j].name)) && ProperlyAbove(Parts(r[j].name), Parts(r[i].name))
  {
    var parts := Parts(r[i].name);
    assert Named(r[i].name, helpers);
    PartsArePlain(r[i].name, helpers);
    var up := Above(parts, |parts| - 1);
    HereHasNoParts();
    j := 0;
    if up != [] {
      assert AncestorsFirst(r, i);
      assert EarlierName(r, i, Render(Above(parts, |up|)));
      j :| 0 <= j < i && r[j].name == Render(up);
      assert forall p | p in up :: p in parts;
      PartsOfRender(up);
    }
  }

  /** A shape of canonical names in which only directories stand above others is well formed. */
  lemma ShapeWellFormed(r: seq<Entry>, helpers: set<Text>)
    requires Shape(r, helpers) && AncestorsAreDirectories(r) && AllNamesCanonical(helpers)
    ensures WellFormed(r)
  {
    HereHasNoParts();
    forall i | 0 <= i < |r| ensures Canonical(r[i].name) { assert Named(r[i].name, helpers); }
    forall i | 1 <= i < |r| ensures HasPlannedParent(r, i) {
      assert Canonical(r[i].name) && r[i].name != r[0].name;
      var j := ShapeAbove(r, helpers, i);
      assert r[j].body.Directory?;
    }
  }

  /**
    A sorted plan that is placeable goes into every free place, as PlaceableCompletes says; any other whose
    links lead to planned files goes nowhere: materialize refuses it on every disk, at every destination and
    whatever the host holds.
   */
  lemma ShapePlaceableOrNever(r: seq<Entry>, helpers: set<Text>, base: Tree, when: nat -> Host, dest: Path, user: int)
    requires Shape(r, helpers) && LinksToFiles(r) && !Placeable(r)
    ensures !(AllAdmissible(r, when, |r|) && Buildable(base, Placed(base, r, when, dest, user), user, |r|))
  {
    if AllAdmissible(r, when, |r|) && Buildable(base, Placed(base, r, when, dest, user), user, |r|) {
      forall i | 0 <= i < |r| ensures NameOk(r[i].name) { assert AdmissibleAt(r, when, i); }
      forall i, j | 0 <= i < j < |r| ensures Parts(r[i].name) != Parts(r[j].name) {
        if Parts(r[i].name) == Parts(r[j].name) { OnePlaceBlocks(base, r, when, dest, user, i, j); }
      }
      HereHasNoParts();
      forall i | 1 <= i < |r| ensures HasPlannedParent(r, i) {
        assert Parts(r[0].name) != Parts(r[i].name);
        var j := ShapeAbove(r, helpers, i);
        if !r[j].body.Directory? { OtherAboveBlocks(base, r, when, dest, user, j, i); }
      }
    }
  }
}
