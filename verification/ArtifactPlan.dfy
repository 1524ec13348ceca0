/**
  The complete plan, its staging form, and the comparison of an observed tree
  with a captured inventory (scripts/claude_host_artifacts.py).
 */
module ArtifactPlan {
  import opened Texts
  import opened Wrappers
  import opened Sorting
  import opened PathParts
  import opened ArtifactInventory
  import opened FileSystem

  const BWRAP := Lit("bwrap")
  const RUNTIME := Lit("runtime")
  const VENDOR := Lit("vendor")
  const CLAUDE := Lit("claude")
  const RUNTIME_JSON := Lit("runtime.json")
  const LAUNCH_CONFIG := Lit("launch-config.json")
  const ARTIFACTS := Lit("constructicon-m8-claude")
  const POLICY_FILE := Lit("constructicon-m8-claude.apparmor")

  /** What plan() gathers before it lays out the tree. */
  datatype Gathered = Gathered(runtime: seq<Entry>, vendor: Text, bwrap: seq<Text>, bwrapSha256: Text,
                               document: Text, config: Text, policy: Text)

  datatype Plan = Plan(entries: seq<Entry>, inventory: seq<Item>, policy: Text, policySha256: Text)

  function VendorEntries(vendor: Text): seq<Entry> {
    [Entry(HERE, MODE_555, Directory), Entry(CLAUDE, MODE_555, File(Data(vendor)))]
  }

  function PlanHead(g: Gathered): seq<Entry> {
    [Entry(HERE, MODE_755, Directory), Entry(BWRAP, MODE_555, File(HostFile(g.bwrap)))]
  }

  function PlanTail(g: Gathered): seq<Entry> {
    [Entry(RUNTIME_JSON, MODE_444, File(Data(g.document))), Entry(LAUNCH_CONFIG, MODE_444, File(Data(g.config)))]
  }

  function PlanEntries(g: Gathered): seq<Entry> {
    PlanHead(g) + PrefixedEntries(RUNTIME, g.runtime) + (PrefixedEntries(VENDOR, VendorEntries(g.vendor)) + PlanTail(g))
  }

  /** The complete inventory, projected from two captured ones. */
  function CapturedInventory(g: Gathered, runtime: seq<Item>, vendor: seq<Item>, h: Host): seq<Item> {
    OrderedInventory(
      [Item(HERE, MODE_755, IsDirectory), Item(BWRAP, MODE_555, Digest(g.bwrapSha256))]
      + PrefixedInventory(RUNTIME, runtime)
      + (PrefixedInventory(VENDOR, vendor)
         + [Item(RUNTIME_JSON, MODE_444, Digest(h.sha256(g.document))),
            Item(LAUNCH_CONFIG, MODE_444, Digest(h.sha256(g.config)))]))
  }

  /** plan(): what was captured is laid out without reading a source again. */
  function MakePlan(g: Gathered, h: Host): (p: Option<Plan>)
    ensures p.Some? ==> p.value.entries == PlanEntries(g) && p.value.policy == g.policy
    ensures p.Some? ==> p.value.policySha256 == h.sha256(g.policy)
    ensures p.Some? ==> Inventory(g.runtime, h).Some? && Inventory(VendorEntries(g.vendor), h).Some?
    ensures p.Some? ==>
      p.value.inventory == CapturedInventory(g, Inventory(g.runtime, h).value, Inventory(VendorEntries(g.vendor), h).value, h)
  {
    var runtime :- Inventory(g.runtime, h);
    var vendor :- Inventory(VendorEntries(g.vendor), h);
    var bwrap :- HostBytes(g.bwrap, h);
    if h.sha256(bwrap) != g.bwrapSha256 then None
    else Some(Plan(PlanEntries(g), CapturedInventory(g, runtime, vendor, h), g.policy, h.sha256(g.policy)))
  }

  function StagingHead(): seq<Entry> { [Entry(HERE, MODE_700, Directory)] }

  function StagingTail(p: Plan): seq<Entry> { [Entry(POLICY_FILE, MODE_444, File(Data(p.policy)))] }

  function StagingEntries(p: Plan): seq<Entry> {
    StagingHead() + PrefixedEntries(ARTIFACTS, p.entries) + StagingTail(p)
  }

  function StagingHeadItems(): seq<Item> { [Item(HERE, MODE_700, IsDirectory)] }

  function StagingTailItems(p: Plan): seq<Item> { [Item(POLICY_FILE, MODE_444, Digest(p.policySha256))] }

  function StagingInventory(p: Plan): seq<Item> {
    OrderedInventory(StagingHeadItems() + PrefixedInventory(ARTIFACTS, p.inventory) + StagingTailItems(p))
  }

  // ----- the projected inventories are the fresh ones -----

  lemma FixedNames()
    ensures IsPart(RUNTIME) && IsPart(VENDOR) && IsPart(ARTIFACTS)
    ensures SLASH !in RUNTIME && SLASH !in VENDOR && SLASH !in ARTIFACTS
    ensures Relative(HERE) && Relative(BWRAP) && Relative(RUNTIME_JSON) && Relative(LAUNCH_CONFIG) && Relative(CLAUDE)
  {
    assert |RUNTIME| == 7 && |VENDOR| == 6 && |ARTIFACTS| == 23;
  }

  lemma VendorReadable(g: Gathered, h: Host)
    ensures Readable(VendorEntries(g.vendor), h) && Readable(PlanTail(g), h)
    ensures forall e | e in VendorEntries(g.vendor) :: Relative(e.name)
  {
    FixedNames();
  }

  /** Sorted captured stretches may stand for their unsorted items. */
  lemma CapturedAgree(prefix: Text, inner: seq<Entry>, h: Host)
    requires IsPart(prefix) && SLASH !in prefix && Readable(inner, h) && forall e | e in inner :: Relative(e.name)
    ensures Inventory(inner, h).Some?
    ensures forall k :: Having(PrefixedInventory(prefix, Inventory(inner, h).value), ItemKey, k)
                     == Having(Items(PrefixedEntries(prefix, inner), h), ItemKey, k)
  {
    InventoryIsOrderedItems(inner, h);
    PrefixedItems(prefix, inner, h);
    SortStable(Items(inner, h), ItemKey);
    SortElements(Items(inner, h), ItemKey);
    forall k { PrefixedAgree(prefix, OrderedInventory(Items(inner, h)), Items(inner, h), k); }
  }

  lemma TwoCaptured(head: seq<Item>, rc: seq<Item>, r: seq<Item>, vc: seq<Item>, v: seq<Item>, tail: seq<Item>)
    requires forall k :: Having(rc, ItemKey, k) == Having(r, ItemKey, k)
    requires forall k :: Having(vc, ItemKey, k) == Having(v, ItemKey, k)
    ensures OrderedInventory(head + rc + (vc + tail)) == OrderedInventory(head + r + (v + tail))
  {
    SortAbsorbs(head, rc, r, vc + tail, ItemKey);
    SortAbsorbs(head + r, vc, v, tail, ItemKey);
    ConcatAssociative(head + r, vc, tail);
    ConcatAssociative(head + r, v, tail);
  }

  lemma PlanItems(g: Gathered, h: Host)
    requires Readable(g.runtime, h) && HostBytes(g.bwrap, h).Some?
    ensures Readable(PlanEntries(g), h)
    ensures Items(PlanEntries(g), h) == Items(PlanHead(g), h) + Items(PrefixedEntries(RUNTIME, g.runtime), h)
      + (Items(PrefixedEntries(VENDOR, VendorEntries(g.vendor)), h) + Items(PlanTail(g), h))
  {
    VendorReadable(g, h);
    var head, r := PlanHead(g), PrefixedEntries(RUNTIME, g.runtime);
    var v, tail := PrefixedEntries(VENDOR, VendorEntries(g.vendor)), PlanTail(g);
    PrefixedItems(RUNTIME, g.runtime, h);
    PrefixedItems(VENDOR, VendorEntries(g.vendor), h);
    ItemsAppend(head, r, h);
    ItemsAppend(v, tail, h);
    ItemsAppend(head + r, v + tail, h);
  }

  /** With stable sources, plan's projected inventory is the inventory of its entries. */
  lemma PlanInventoryIsFresh(g: Gathered, h: Host)
    requires MakePlan(g, h).Some? && forall e | e in g.runtime :: Relative(e.name)
    ensures Readable(PlanEntries(g), h) && Inventory(PlanEntries(g), h) == Some(MakePlan(g, h).value.inventory)
  {
    FixedNames();
    VendorReadable(g, h);
    var vendor := VendorEntries(g.vendor);
    CapturedAgree(RUNTIME, g.runtime, h);
    CapturedAgree(VENDOR, vendor, h);
    PlanItems(g, h);
    HeadItems(g, h);
    TwoCaptured(Items(PlanHead(g), h),
                PrefixedInventory(RUNTIME, Inventory(g.runtime, h).value), Items(PrefixedEntries(RUNTIME, g.runtime), h),
                PrefixedInventory(VENDOR, Inventory(vendor, h).value), Items(PrefixedEntries(VENDOR, vendor), h),
                Items(PlanTail(g), h));
    InventoryIsOrderedItems(PlanEntries(g), h);
  }

  lemma HeadItems(g: Gathered, h: Host)
    requires HostBytes(g.bwrap, h).Some? && h.sha256(HostBytes(g.bwrap, h).value) == g.bwrapSha256
    ensures Items(PlanHead(g), h) == [Item(HERE, MODE_755, IsDirectory), Item(BWRAP, MODE_555, Digest(g.bwrapSha256))]
    ensures Items(PlanTail(g), h) == [Item(RUNTIME_JSON, MODE_444, Digest(h.sha256(g.document))),
                                      Item(LAUNCH_CONFIG, MODE_444, Digest(h.sha256(g.config)))]
  {}

  lemma PlanEntriesRelative(g: Gathered)
    requires forall e | e in g.runtime :: Relative(e.name)
    ensures forall e | e in PlanEntries(g) :: Relative(e.name)
  {
    FixedNames();
    VendorNames(g);
    var r := PrefixedEntries(RUNTIME, g.runtime);
    forall e | e in r ensures Relative(e.name) {
      var i :| 0 <= i < |r| && r[i] == e;
      assert g.runtime[i] in g.runtime;
      PartsUnder(RUNTIME, g.runtime[i].name);
    }
  }

  lemma VendorNames(g: Gathered)
    ensures forall e | e in PrefixedEntries(VENDOR, VendorEntries(g.vendor)) :: Relative(e.name)
  {
    FixedNames();
    PartsUnder(VENDOR, HERE);
    PartsUnder(VENDOR, CLAUDE);
  }

  lemma StagingEnds(p: Plan, h: Host)
    requires p.policySha256 == h.sha256(p.policy)
    ensures Readable(StagingHead(), h) && Items(StagingHead(), h) == StagingHeadItems()
    ensures Readable(StagingTail(p), h) && Items(StagingTail(p), h) == StagingTailItems(p)
  {}

  lemma StagingOfFreshPlan(p: Plan, h: Host)
    requires Readable(p.entries, h) && Inventory(p.entries, h) == Some(p.inventory)
    requires p.policySha256 == h.sha256(p.policy) && forall e | e in p.entries :: Relative(e.name)
    ensures Readable(StagingEntries(p), h) && Inventory(StagingEntries(p), h) == Some(StagingInventory(p))
  {
    FixedNames();
    StagingEnds(p, h);
    CapturedEqualsFresh(StagingHead(), ARTIFACTS, p.entries, StagingTail(p), h);
  }

  /** The staging inventory, projected from the plan's, is the inventory of the staging entries. */
  lemma StagingInventoryIsFresh(g: Gathered, h: Host, p: Plan)
    requires MakePlan(g, h) == Some(p) && forall e | e in g.runtime :: Relative(e.name)
    ensures Readable(StagingEntries(p), h) && Inventory(StagingEntries(p), h) == Some(StagingInventory(p))
  {
    PlanInventoryIsFresh(g, h);
    PlanEntriesRelative(g);
    StagingOfFreshPlan(p, h);
  }

  // ----- the planned directories are open -----

  /** Every directory of the inventory, belonging to the owner, can be listed and searched by the user. */
  predicate OpenItems(items: seq<Item>, owner: int, user: int) {
    forall i | i in items && i.content == IsDirectory :: OpenMode(i.mode, owner, user)
  }

  predicate OpenMode(mode: nat, owner: int, user: int) {
    MayRead(DirNode(mode, owner), user) && MaySearch(DirNode(mode, owner), user)
  }

  /** The planned directories have the one mode that a runtime plan gives. */
  predicate FixedDirectories(entries: seq<Entry>) {
    forall i | 0 <= i < |entries| && entries[i].body.Directory? :: entries[i].mode == MODE_555
  }

  lemma ModesOpen(owner: int, user: int)
    ensures OpenMode(MODE_555, owner, user) && OpenMode(MODE_755, owner, user) && OpenMode(MODE_700, owner, owner)
  {}

  lemma ItemsOpen(entries: seq<Entry>, h: Host, owner: int, user: int)
    requires Readable(entries, h) && OpenMode(MODE_555, owner, user)
    requires forall e | e in entries && e.body.Directory? :: e.mode == MODE_555
    ensures OpenItems(Items(entries, h), owner, user)
  {
    var items := Items(entries, h);
    forall i | i in items && i.content == IsDirectory ensures OpenMode(i.mode, owner, user) {
      var k :| 0 <= k < |items| && items[k] == i;
      assert entries[k] in entries && ItemOf(entries[k], h).Some?;
    }
  }

  lemma InventoryOpens(entries: seq<Entry>, h: Host, owner: int, user: int)
    requires FixedDirectories(entries) && Inventory(entries, h).Some?
    ensures OpenItems(Inventory(entries, h).value, owner, user)
  {
    var sorted := Sort(entries, EntryKey);
    SortElements(entries, EntryKey);
    forall e | e in sorted && e.body.Directory? ensures e.mode == MODE_555 {
      var m :| 0 <= m < |entries| && entries[m] == e;
    }
    ModesOpen(owner, user);
    ItemsOpen(sorted, h, owner, user);
  }

  lemma PrefixedOpens(prefix: Text, items: seq<Item>, owner: int, user: int)
    requires OpenItems(items, owner, user)
    ensures OpenItems(PrefixedInventory(prefix, items), owner, user)
  {
    var r := PrefixedInventory(prefix, items);
    forall i | i in r && i.content == IsDirectory ensures OpenMode(i.mode, owner, user) {
      var k :| 0 <= k < |r| && r[k] == i;
      assert items[k] in items;
    }
  }

  lemma SortedOpens(items: seq<Item>, owner: int, user: int)
    requires OpenItems(items, owner, user)
    ensures OpenItems(OrderedInventory(items), owner, user)
  {
    SortElements(items, ItemKey);
  }

  lemma JoinedOpens(a: seq<Item>, b: seq<Item>, owner: int, user: int)
    requires OpenItems(a, owner, user) && OpenItems(b, owner, user)
    ensures OpenItems(a + b, owner, user)
  {}

  lemma FourOpen(a: seq<Item>, b: seq<Item>, c: seq<Item>, d: seq<Item>, owner: int, user: int)
    requires OpenItems(a, owner, user) && OpenItems(b, owner, user) && OpenItems(c, owner, user) && OpenItems(d, owner, user)
    ensures OpenItems(OrderedInventory(a + b + (c + d)), owner, user)
  {
    JoinedOpens(a, b, owner, user);
    JoinedOpens(c, d, owner, user);
    JoinedOpens(a + b, c + d, owner, user);
    SortedOpens(a + b + (c + d), owner, user);
  }

  lemma TwoOpen(a: Item, b: Item, owner: int, user: int)
    requires a.content == IsDirectory ==> OpenMode(a.mode, owner, user)
    requires b.content == IsDirectory ==> OpenMode(b.mode, owner, user)
    ensures OpenItems([a, b], owner, user)
  {}

  lemma CapturedOpens(g: Gathered, runtime: seq<Item>, vendor: seq<Item>, h: Host, owner: int, user: int)
    requires OpenItems(runtime, owner, user) && OpenItems(vendor, owner, user)
    ensures OpenItems(CapturedInventory(g, runtime, vendor, h), owner, user)
  {
    ModesOpen(owner, user);
    PrefixedOpens(RUNTIME, runtime, owner, user);
    PrefixedOpens(VENDOR, vendor, owner, user);
    var root, bwrap := Item(HERE, MODE_755, IsDirectory), Item(BWRAP, MODE_555, Digest(g.bwrapSha256));
    var document := Item(RUNTIME_JSON, MODE_444, Digest(h.sha256(g.document)));
    var config := Item(LAUNCH_CONFIG, MODE_444, Digest(h.sha256(g.config)));
    TwoOpen(root, bwrap, owner, user);
    TwoOpen(document, config, owner, user);
    FourOpen([root, bwrap], PrefixedInventory(RUNTIME, runtime), PrefixedInventory(VENDOR, vendor), [document, config],
             owner, user);
  }

  lemma VendorFixed(vendor: Text)
    ensures FixedDirectories(VendorEntries(vendor))
  {}

  /** A plan's directories are open to everybody, whoever owns them. */
  lemma PlanOpens(g: Gathered, h: Host, p: Plan, owner: int, user: int)
    requires MakePlan(g, h) == Some(p) && FixedDirectories(g.runtime)
    ensures OpenItems(p.inventory, owner, user)
  {
    var runtime, vendor := Inventory(g.runtime, h).value, Inventory(VendorEntries(g.vendor), h).value;
    VendorFixed(g.vendor);
    InventoryOpens(g.runtime, h, owner, user);
    InventoryOpens(VendorEntries(g.vendor), h, owner, user);
    CapturedOpens(g, runtime, vendor, h, owner, user);
  }

  /** The staging tree's directories are open to the operator who owns it. */
  lemma StagingOpens(p: Plan, user: int)
    requires OpenItems(p.inventory, user, user)
    ensures OpenItems(StagingInventory(p), user, user)
  {
    ModesOpen(user, user);
    PrefixedOpens(ARTIFACTS, p.inventory, user, user);
    JoinedOpens(StagingHeadItems(), PrefixedInventory(ARTIFACTS, p.inventory), user, user);
    JoinedOpens(StagingHeadItems() + PrefixedInventory(ARTIFACTS, p.inventory), StagingTailItems(p), user, user);
    SortedOpens(StagingHeadItems() + PrefixedInventory(ARTIFACTS, p.inventory) + StagingTailItems(p), user, user);
  }

  // ----- differences -----

  /** One row of tree_inventory. */
  datatype Observed = Observed(name: Text, mode: nat, content: Content, uid: int)

  /** The dict of the rows: a later row replaces an earlier one of the same name. */
  function Found(rows: seq<Observed>): (m: map<Text, Observed>)
    ensures forall n | n in m :: m[n] in rows && m[n].name == n
    ensures forall r | r in rows :: r.name in m
  {
    if rows == [] then map[]
    else
      var last := rows[|rows| - 1];
      assert rows == rows[..|rows| - 1] + [last];
      Found(rows[..|rows| - 1])[last.name := last]
  }

  function Wanted(items: seq<Item>): (m: map<Text, Item>)
    ensures forall n | n in m :: m[n] in items && m[n].name == n
    ensures forall i | i in items :: i.name in m
  {
    if items == [] then map[]
    else
      var last := items[|items| - 1];
      assert items == items[..|items| - 1] + [last];
      Wanted(items[..|items| - 1])[last.name := last]
  }

  predicate Differs(found: map<Text, Observed>, wanted: map<Text, Item>, owner: int, n: Text) {
    n !in found || n !in wanted
    || (found[n].mode, found[n].content) != (wanted[n].mode, wanted[n].content) || found[n].uid != owner
  }

  function Differing(names: seq<Text>, found: map<Text, Observed>, wanted: map<Text, Item>, owner: int): seq<Text> {
    if names == [] then []
    else (if Differs(found, wanted, owner, names[0]) then [names[0]] else [])
         + Differing(names[1..], found, wanted, owner)
  }

  function Names(rows: seq<Observed>, items: seq<Item>): seq<Text> {
    seq(|rows|, i requires 0 <= i < |rows| => rows[i].name) + seq(|items|, i requires 0 <= i < |items| => items[i].name)
  }

  function Differences(rows: seq<Observed>, items: seq<Item>, owner: int): seq<Text> {
    Differing(SortDistinct(Names(rows, items), TextKey), Found(rows), Wanted(items), owner)
  }

  lemma {:induction false} DifferingElements(names: seq<Text>, found: map<Text, Observed>, wanted: map<Text, Item>, owner: int)
    ensures forall n :: n in Differing(names, found, wanted, owner) <==> n in names && Differs(found, wanted, owner, n)
  {
    if names != [] {
      DifferingElements(names[1..], found, wanted, owner);
      assert names == [names[0]] + names[1..];
    }
  }

  lemma {:induction false} DifferingAscending(names: seq<Text>, found: map<Text, Observed>, wanted: map<Text, Item>, owner: int)
    requires StrictlyAscending(names, TextKey)
    ensures StrictlyAscending(Differing(names, found, wanted, owner), TextKey)
  {
    if names != [] {
      DifferingAscending(names[1..], found, wanted, owner);
      DifferingElements(names[1..], found, wanted, owner);
      var rest := Differing(names[1..], found, wanted, owner);
      forall j | 0 <= j < |rest| ensures Less(TextKey(names[0]), TextKey(rest[j])) {
        assert rest[j] in rest && rest[j] in names[1..];
        var i :| 0 <= i < |names[1..]| && names[1..][i] == rest[j];
        assert names[i + 1] == rest[j];
      }
    }
  }

  lemma NameSources(rows: seq<Observed>, items: seq<Item>, n: Text)
    requires n in Names(rows, items)
    ensures n in Found(rows) || n in Wanted(items)
  {
    var i :| 0 <= i < |Names(rows, items)| && Names(rows, items)[i] == n;
    if i < |rows| { assert rows[i] in rows; } else { assert items[i - |rows|] in items; }
  }

  lemma FoundNamed(rows: seq<Observed>, items: seq<Item>, n: Text)
    requires n in Found(rows)
    ensures n in Names(rows, items)
  {
    var i :| 0 <= i < |rows| && rows[i] == Found(rows)[n];
    assert Names(rows, items)[i] == n;
  }

  lemma ItemNamed(rows: seq<Observed>, items: seq<Item>, i: nat)
    requires i < |items|
    ensures items[i].name in Names(rows, items)
  {
    assert Names(rows, items)[|rows| + i] == items[i].name;
  }

  lemma WantedNamed(rows: seq<Observed>, items: seq<Item>, n: Text)
    requires n in Wanted(items)
    ensures n in Names(rows, items)
  {
    var x := Wanted(items)[n];
    var i :| 0 <= i < |items| && items[i] == x;
    ItemNamed(rows, items, i);
  }

  lemma NamesElements(rows: seq<Observed>, items: seq<Item>)
    ensures forall n :: n in Names(rows, items) <==> n in Found(rows) || n in Wanted(items)
  {
    forall n ensures n in Names(rows, items) <==> n in Found(rows) || n in Wanted(items) {
      if n in Names(rows, items) { NameSources(rows, items, n); }
      if n in Found(rows) { FoundNamed(rows, items, n); }
      if n in Wanted(items) { WantedNamed(rows, items, n); }
    }
  }

  /** The differences are exactly the names on which the two dicts disagree, in order. */
  lemma DifferencesExact(rows: seq<Observed>, items: seq<Item>, owner: int)
    ensures StrictlyAscending(Differences(rows, items, owner), TextKey)
    ensures forall n :: n in Differences(rows, items, owner) <==>
      (n in Found(rows) || n in Wanted(items)) && Differs(Found(rows), Wanted(items), owner, n)
  {
    SortDistinctOrder(Names(rows, items), TextKey);
    NamesElements(rows, items);
    DifferingElements(SortDistinct(Names(rows, items), TextKey), Found(rows), Wanted(items), owner);
    DifferingAscending(SortDistinct(Names(rows, items), TextKey), Found(rows), Wanted(items), owner);
  }

  /** No difference means the observed tree is the inventory, under the one owner. */
  lemma NoDifferenceIff(rows: seq<Observed>, items: seq<Item>, owner: int)
    ensures Differences(rows, items, owner) == [] <==>
      && Found(rows).Keys == Wanted(items).Keys
      && forall n | n in Wanted(items) ::
           n in Found(rows) && Found(rows)[n] == Observed(n, Wanted(items)[n].mode, Wanted(items)[n].content, owner)
  {
    DifferencesExact(rows, items, owner);
    var d := Differences(rows, items, owner);
    if d != [] { assert d[0] in d; }
  }
}
