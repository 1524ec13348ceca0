/** What a plan and its staging form hold, name by name (scripts/claude_host_artifacts.py). */
module PlanContents {
  import opened Texts
  import opened Wrappers
  import opened Sorting
  import opened PathParts
  import opened ArtifactInventory
  import opened ArtifactPlan

  /** The name of something placed under a prefix: "." is the prefix itself. */
  function Placed(prefix: Text, name: Text): Text { if name == Lit(".") then prefix else prefix + Lit("/") + name }

  /** The row of an entry under another name. */
  ghost predicate RowOf(e: Entry, name: Text, h: Host, i: Item) {
    && i.name == name && i.mode == e.mode
    && (e.body.Directory? ==> i.content == IsDirectory)
    && (e.body.Link? ==> i.content == LinksTo(e.body.target))
    && (e.body.File? && e.body.source.Data? ==> i.content == Digest(h.sha256(e.body.source.bytes)))
    && (e.body.File? && e.body.source.HostFile? ==>
          h.files(e.body.source.path).Some? && i.content == Digest(h.sha256(h.files(e.body.source.path).value)))
  }

  /** The row of one of the entries, under a prefix. */
  ghost predicate UnderRow(prefix: Text, entries: seq<Entry>, h: Host, i: Item) {
    exists e :: e in entries && RowOf(e, Placed(prefix, e.name), h, i)
  }

  // ----- the plan -----

  /** The rows of the plan's inventory: four fixed files, two fixed directories, and the runtime under its prefix. */
  ghost predicate PlanRow(g: Gathered, h: Host, i: Item) {
    || i == Item(Lit("."), 493, IsDirectory)                          // 0o755
    || i == Item(Lit("bwrap"), 365, Digest(g.bwrapSha256))            // 0o555
    || i == Item(Lit("vendor"), 365, IsDirectory)                     // 0o555
    || i == Item(Lit("vendor/claude"), 365, Digest(h.sha256(g.vendor)))
    || i == Item(Lit("runtime.json"), 292, Digest(h.sha256(g.document)))  // 0o444
    || i == Item(Lit("launch-config.json"), 292, Digest(h.sha256(g.config)))
    || UnderRow(Lit("runtime"), g.runtime, h, i)
  }

  lemma UnderIsPlaced(prefix: Text, name: Text)
    ensures Under(prefix, name) == Placed(prefix, name)
  {
    assert Lit(".") == HERE && Lit("/") == [SLASH];
  }

  lemma RowIsItem(prefix: Text, e: Entry, h: Host, i: Item)
    requires ItemOf(e, h).Some?
    ensures RowOf(e, Placed(prefix, e.name), h, i) <==> i == PrefixedItem(prefix, ItemFor(e, h))
  {
    UnderIsPlaced(prefix, e.name);
  }

  lemma ItemsHold(prefix: Text, entries: seq<Entry>, h: Host, i: Item)
    requires Readable(entries, h)
    ensures i in PrefixedInventory(prefix, Items(entries, h)) <==> UnderRow(prefix, entries, h, i)
  {
    var r := PrefixedInventory(prefix, Items(entries, h));
    if i in r {
      var k :| 0 <= k < |r| && r[k] == i;
      assert entries[k] in entries;
      RowIsItem(prefix, entries[k], h, i);
    }
    if e :| e in entries && RowOf(e, Placed(prefix, e.name), h, i) {
      var k :| 0 <= k < |entries| && entries[k] == e;
      RowIsItem(prefix, e, h, i);
      assert r[k] == i;
    }
  }

  lemma SameUnder(prefix: Text, a: seq<Entry>, b: seq<Entry>, h: Host, i: Item)
    requires forall e :: e in a <==> e in b
    ensures UnderRow(prefix, a, h, i) <==> UnderRow(prefix, b, h, i)
  {}

  /** The captured rows of some entries, under a prefix. */
  lemma CapturedRows(prefix: Text, entries: seq<Entry>, h: Host, i: Item)
    requires Readable(entries, h)
    ensures Inventory(entries, h).Some?
    ensures i in PrefixedInventory(prefix, Inventory(entries, h).value) <==> UnderRow(prefix, entries, h, i)
  {
    var sorted := Sort(entries, EntryKey);
    SortElements(entries, EntryKey);
    ItemsHold(prefix, sorted, h, i);
    SameUnder(prefix, entries, sorted, h, i);
  }

  lemma FixedLits()
    ensures HERE == Lit(".") && VENDOR == Lit("vendor") && RUNTIME == Lit("runtime") && BWRAP == Lit("bwrap")
    ensures Placed(VENDOR, HERE) == Lit("vendor") && Placed(VENDOR, CLAUDE) == Lit("vendor/claude")
  {
    assert |CLAUDE| == 6;
  }

  lemma VendorRows(g: Gathered, h: Host, i: Item)
    ensures UnderRow(VENDOR, VendorEntries(g.vendor), h, i) <==>
      i == Item(Lit("vendor"), 365, IsDirectory) || i == Item(Lit("vendor/claude"), 365, Digest(h.sha256(g.vendor)))
  {
    FixedLits();
    var v := VendorEntries(g.vendor);
    assert v[0] in v && v[1] in v;
    RowIsItem(VENDOR, v[0], h, i);
    RowIsItem(VENDOR, v[1], h, i);
    UnderIsPlaced(VENDOR, HERE);
    UnderIsPlaced(VENDOR, CLAUDE);
  }

  lemma JoinedRows(a: seq<Item>, b: seq<Item>, c: seq<Item>, d: seq<Item>, i: Item)
    ensures i in OrderedInventory(a + b + (c + d)) <==> i in a || i in b || i in c || i in d
  {
    SortElements(a + b + (c + d), ItemKey);
  }

  /** The plan's inventory is these rows and no others, in the order of their paths. */
  lemma PlanHoldsRows(g: Gathered, h: Host, p: Plan)
    requires MakePlan(g, h) == Some(p)
    ensures forall i :: i in p.inventory <==> PlanRow(g, h, i)
    ensures Ascending(p.inventory, ItemKey) && |p.inventory| == |g.runtime| + 6
  {
    forall i ensures i in p.inventory <==> PlanRow(g, h, i) { PlanHoldsRow(g, h, p, i); }
    PlanIsOrdered(g, h, p);
  }

  lemma PlanIsOrdered(g: Gathered, h: Host, p: Plan)
    requires MakePlan(g, h) == Some(p)
    ensures Ascending(p.inventory, ItemKey) && |p.inventory| == |g.runtime| + 6
  {
    var runtime, vendor := Inventory(g.runtime, h).value, Inventory(VendorEntries(g.vendor), h).value;
    SortStable([Item(HERE, MODE_755, IsDirectory), Item(BWRAP, MODE_555, Digest(g.bwrapSha256))]
               + PrefixedInventory(RUNTIME, runtime)
               + (PrefixedInventory(VENDOR, vendor)
                  + [Item(RUNTIME_JSON, MODE_444, Digest(h.sha256(g.document))),
                     Item(LAUNCH_CONFIG, MODE_444, Digest(h.sha256(g.config)))]), ItemKey);
  }

  lemma CapturedHolds(g: Gathered, runtime: seq<Item>, vendor: seq<Item>, h: Host, i: Item)
    ensures i in CapturedInventory(g, runtime, vendor, h) <==>
      || i == Item(HERE, 493, IsDirectory) || i == Item(BWRAP, 365, Digest(g.bwrapSha256))
      || i in PrefixedInventory(RUNTIME, runtime) || i in PrefixedInventory(VENDOR, vendor)
      || i == Item(RUNTIME_JSON, 292, Digest(h.sha256(g.document)))
      || i == Item(LAUNCH_CONFIG, 292, Digest(h.sha256(g.config)))
  {
    JoinedRows([Item(HERE, MODE_755, IsDirectory), Item(BWRAP, MODE_555, Digest(g.bwrapSha256))],
               PrefixedInventory(RUNTIME, runtime), PrefixedInventory(VENDOR, vendor),
               [Item(RUNTIME_JSON, MODE_444, Digest(h.sha256(g.document))),
                Item(LAUNCH_CONFIG, MODE_444, Digest(h.sha256(g.config)))], i);
  }

  lemma PlanHoldsRow(g: Gathered, h: Host, p: Plan, i: Item)
    requires MakePlan(g, h) == Some(p)
    ensures i in p.inventory <==> PlanRow(g, h, i)
  {
    FixedLits();
    VendorReadable(g, h);
    CapturedRows(RUNTIME, g.runtime, h, i);
    CapturedRows(VENDOR, VendorEntries(g.vendor), h, i);
    VendorRows(g, h, i);
    CapturedHolds(g, Inventory(g.runtime, h).value, Inventory(VendorEntries(g.vendor), h).value, h, i);
  }

  lemma FourParts<T>(a: seq<T>, b: seq<T>, c: seq<T>, d: seq<T>, s: seq<T>)
    requires s == a + b + (c + d)
    ensures |s| == |a| + |b| + |c| + |d|
    ensures
      && (forall k | 0 <= k < |a| :: s[k] == a[k]) && (forall k | 0 <= k < |b| :: s[|a| + k] == b[k])
      && (forall k | 0 <= k < |c| :: s[|a| + |b| + k] == c[k])
      && (forall k | 0 <= k < |d| :: s[|a| + |b| + |c| + k] == d[k])
  {}

  /** The k-th runtime entry under its prefix. */
  lemma RuntimeEntry(runtime: seq<Entry>, k: nat)
    requires k < |runtime|
    ensures PrefixedEntries(RUNTIME, runtime)[k] == runtime[k].(name := Placed(Lit("runtime"), runtime[k].name))
  {
    UnderIsPlaced(RUNTIME, runtime[k].name);
  }

  lemma VendorPlaced(vendor: Text)
    ensures PrefixedEntries(VENDOR, VendorEntries(vendor)) ==
      [Entry(Lit("vendor"), 365, Directory), Entry(Lit("vendor/claude"), 365, File(Data(vendor)))]
  {
    FixedLits();
    UnderIsPlaced(VENDOR, HERE);
    UnderIsPlaced(VENDOR, CLAUDE);
  }

  lemma EndsPlaced(g: Gathered)
    ensures PlanHead(g) == [Entry(Lit("."), 493, Directory), Entry(Lit("bwrap"), 365, File(HostFile(g.bwrap)))]
    ensures PlanTail(g) == [Entry(Lit("runtime.json"), 292, File(Data(g.document))),
                            Entry(Lit("launch-config.json"), 292, File(Data(g.config)))]
  {
    FixedLits();
  }

  /** The plan's entries in the order in which they are made. */
  lemma PlanHoldsEntries(g: Gathered, h: Host, p: Plan)
    requires MakePlan(g, h) == Some(p)
    ensures |p.entries| == 2 + |g.runtime| + 4
    ensures p.entries[0] == Entry(Lit("."), 493, Directory)
    ensures p.entries[1] == Entry(Lit("bwrap"), 365, File(HostFile(g.bwrap)))
    ensures forall k | 0 <= k < |g.runtime| ::
      p.entries[2 + k] == g.runtime[k].(name := Placed(Lit("runtime"), g.runtime[k].name))
    ensures p.entries[2 + |g.runtime|] == Entry(Lit("vendor"), 365, Directory)
    ensures p.entries[2 + |g.runtime| + 1] == Entry(Lit("vendor/claude"), 365, File(Data(g.vendor)))
    ensures p.entries[2 + |g.runtime| + 2] == Entry(Lit("runtime.json"), 292, File(Data(g.document)))
    ensures p.entries[2 + |g.runtime| + 3] == Entry(Lit("launch-config.json"), 292, File(Data(g.config)))
  {
    var runtime := PrefixedEntries(RUNTIME, g.runtime);
    EndsPlaced(g);
    VendorPlaced(g.vendor);
    forall k | 0 <= k < |g.runtime| ensures runtime[k] == g.runtime[k].(name := Placed(Lit("runtime"), g.runtime[k].name)) {
      RuntimeEntry(g.runtime, k);
    }
    LaidOut(PlanHead(g), runtime, PrefixedEntries(VENDOR, VendorEntries(g.vendor)), PlanTail(g), p.entries);
  }

  lemma LaidOut(a: seq<Entry>, b: seq<Entry>, c: seq<Entry>, d: seq<Entry>, s: seq<Entry>)
    requires |a| == |c| == |d| == 2 && s == a + b + (c + d)
    ensures |s| == 2 + |b| + 4 && s[0] == a[0] && s[1] == a[1] && forall k | 0 <= k < |b| :: s[2 + k] == b[k]
    ensures s[2 + |b|] == c[0] && s[2 + |b| + 1] == c[1] && s[2 + |b| + 2] == d[0] && s[2 + |b| + 3] == d[1]
  {
    FourParts(a, b, c, d, s);
    assert s[|a| + |b| + 0] == c[0] && s[|a| + |b| + |c| + 0] == d[0];
    assert s[|a| + |b| + 1] == c[1] && s[|a| + |b| + |c| + 1] == d[1];
  }

  /** A host file within 64 MiB. */
  ghost predicate Bounded(path: seq<Text>, h: Host) { h.files(path).Some? && |h.files(path).value| <= 67108864 }

  ghost predicate SourcesBounded(entries: seq<Entry>, h: Host) {
    forall e | e in entries && e.body.File? && e.body.source.HostFile? :: Bounded(e.body.source.path, h)
  }

  lemma ReadableIsBounded(entries: seq<Entry>, h: Host)
    ensures Readable(entries, h) <==> SourcesBounded(entries, h)
  {}

  /** A plan is given exactly when bwrap is the pinned one and every runtime source can be read within the bound. */
  lemma PlanIsGivenIff(g: Gathered, h: Host)
    ensures MakePlan(g, h).Some? <==>
      Bounded(g.bwrap, h) && h.sha256(h.files(g.bwrap).value) == g.bwrapSha256 && SourcesBounded(g.runtime, h)
    ensures MakePlan(g, h).Some? ==>
      MakePlan(g, h).value.policy == g.policy && MakePlan(g, h).value.policySha256 == h.sha256(g.policy)
  {
    GivenIff(g, h);
    ReadableIsBounded(g.runtime, h);
    BytesAreBounded(g.bwrap, h);
  }

  lemma BytesAreBounded(path: seq<Text>, h: Host)
    ensures HostBytes(path, h) == if Bounded(path, h) then h.files(path) else None
  {}

  lemma GivenIff(g: Gathered, h: Host)
    ensures MakePlan(g, h).Some? <==>
      Readable(g.runtime, h) && HostBytes(g.bwrap, h).Some? && h.sha256(HostBytes(g.bwrap, h).value) == g.bwrapSha256
    ensures MakePlan(g, h).Some? ==>
      MakePlan(g, h).value.policy == g.policy && MakePlan(g, h).value.policySha256 == h.sha256(g.policy)
  {
    VendorReadable(g, h);
  }

  // ----- its staging form -----

  /** The rows of the staging tree: itself, the plan under its prefix, and the policy beside it. */
  ghost predicate StagingRow(p: Plan, i: Item) {
    || i == Item(Lit("."), 448, IsDirectory)  // 0o700
    || i == Item(Lit("constructicon-m8-claude.apparmor"), 292, Digest(p.policySha256))
    || exists j :: j in p.inventory && i == j.(name := Placed(Lit("constructicon-m8-claude"), j.name))
  }

  lemma ThreeRows(a: seq<Item>, b: seq<Item>, c: seq<Item>, i: Item)
    ensures i in OrderedInventory(a + b + c) <==> i in a || i in b || i in c
  {
    SortElements(a + b + c, ItemKey);
  }

  lemma PlanRowsPlaced(items: seq<Item>, i: Item)
    ensures i in PrefixedInventory(ARTIFACTS, items) <==>
      exists j :: j in items && i == j.(name := Placed(Lit("constructicon-m8-claude"), j.name))
  {
    var r := PrefixedInventory(ARTIFACTS, items);
    if i in r {
      var k :| 0 <= k < |r| && r[k] == i;
      UnderIsPlaced(ARTIFACTS, items[k].name);
      assert items[k] in items && i == items[k].(name := Placed(Lit("constructicon-m8-claude"), items[k].name));
    }
    forall j | j in items && i == j.(name := Placed(Lit("constructicon-m8-claude"), j.name)) ensures i in r {
      var k :| 0 <= k < |items| && items[k] == j;
      UnderIsPlaced(ARTIFACTS, j.name);
      assert r[k] == i;
    }
  }

  lemma StagingHoldsRow(p: Plan, i: Item)
    ensures i in StagingInventory(p) <==> StagingRow(p, i)
  {
    ThreeRows(StagingHeadItems(), PrefixedInventory(ARTIFACTS, p.inventory), StagingTailItems(p), i);
    PlanRowsPlaced(p.inventory, i);
    assert HERE == Lit(".");
  }

  /** The staging inventory is these rows and no others, in the order of their paths. */
  lemma StagingHoldsRows(p: Plan)
    ensures forall i :: i in StagingInventory(p) <==> StagingRow(p, i)
    ensures Ascending(StagingInventory(p), ItemKey) && |StagingInventory(p)| == |p.inventory| + 2
  {
    forall i ensures i in StagingInventory(p) <==> StagingRow(p, i) { StagingHoldsRow(p, i); }
    SortStable(StagingHeadItems() + PrefixedInventory(ARTIFACTS, p.inventory) + StagingTailItems(p), ItemKey);
  }

  /** The staging entries in the order in which they are made. */
  lemma StagingHoldsEntries(p: Plan)
    ensures |StagingEntries(p)| == |p.entries| + 2
    ensures StagingEntries(p)[0] == Entry(Lit("."), 448, Directory)
    ensures forall k | 0 <= k < |p.entries| ::
      StagingEntries(p)[k + 1] == p.entries[k].(name := Placed(Lit("constructicon-m8-claude"), p.entries[k].name))
    ensures StagingEntries(p)[|p.entries| + 1] == Entry(Lit("constructicon-m8-claude.apparmor"), 292, File(Data(p.policy)))
  {
    forall k | 0 <= k < |p.entries|
      ensures StagingEntries(p)[k + 1] == p.entries[k].(name := Placed(Lit("constructicon-m8-claude"), p.entries[k].name))
    {
      UnderIsPlaced(ARTIFACTS, p.entries[k].name);
    }
  }
}
