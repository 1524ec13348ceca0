/** The complete plan keeps the shape of the runtime plan inside it (scripts/claude_host_artifacts.py). */
module PlanShape {
  import opened Texts
  import opened Wrappers
  import opened PathParts
  import opened ArtifactInventory
  import opened ArtifactPlan
  import opened FileSystem
  import opened Materialize

  // ----- shapes: where the planned nodes are, and which are directories -----

  datatype Spot = Spot(parts: seq<Text>, isDirectory: bool)

  predicate ParentBefore(spots: seq<Spot>, i: nat)
    requires i < |spots|
  {
    exists j | 0 <= j < i :: spots[j].isDirectory && IsChild(spots[i].parts, spots[j].parts)
  }

  /** The root first, no place twice, every place in a directory before it. */
  predicate Shaped(spots: seq<Spot>) {
    && spots != [] && spots[0] == Spot([], true)
    && (forall i, j | 0 <= i < j < |spots| :: spots[i].parts != spots[j].parts)
    && (forall i | 1 <= i < |spots| :: ParentBefore(spots, i))
  }

  /** Every place below the root starts with one of these parts. */
  predicate StartsIn(spots: seq<Spot>, firsts: set<Text>) {
    forall i | 0 <= i < |spots| :: spots[i].parts == [] || spots[i].parts[0] in firsts
  }

  function Below(prefix: Text, spots: seq<Spot>): (r: seq<Spot>)
    ensures |r| == |spots|
    ensures forall i | 0 <= i < |r| :: r[i] == Spot([prefix] + spots[i].parts, spots[i].isDirectory)
  {
    seq(|spots|, i requires 0 <= i < |spots| => Spot([prefix] + spots[i].parts, spots[i].isDirectory))
  }

  lemma ParentStays(spots: seq<Spot>, more: seq<Spot>, i: nat)
    requires i < |spots| && ParentBefore(spots, i)
    ensures ParentBefore(spots + more, i)
  {
    var j :| 0 <= j < i && spots[j].isDirectory && IsChild(spots[i].parts, spots[j].parts);
    var all := spots + more;
    assert all[j] == spots[j] && all[i] == spots[i];
  }

  lemma ParentBelow(spots: seq<Spot>, prefix: Text, inner: seq<Spot>, i: nat)
    requires Shaped(spots) && Shaped(inner) && i < |inner|
    ensures ParentBefore(spots + Below(prefix, inner), |spots| + i)
  {
    var mine, n := Below(prefix, inner), |spots|;
    var all := spots + mine;
    assert all[n + i] == mine[i];
    if i == 0 {
      assert all[0] == spots[0] && IsChild(all[n].parts, all[0].parts);
    } else {
      assert ParentBefore(inner, i);
      var j :| 0 <= j < i && inner[j].isDirectory && IsChild(inner[i].parts, inner[j].parts);
      assert all[n + j] == mine[j] && IsChild(mine[i].parts, mine[j].parts);
    }
  }

  lemma BelowDistinct(prefix: Text, spots: seq<Spot>, i: nat, j: nat)
    requires i < |spots| && j < |spots| && spots[i].parts != spots[j].parts
    ensures Below(prefix, spots)[i].parts != Below(prefix, spots)[j].parts
  {
    assert ([prefix] + spots[i].parts)[1..] == spots[i].parts && ([prefix] + spots[j].parts)[1..] == spots[j].parts;
  }

  /** A whole shape under a first part of its own. */
  lemma GraftShape(spots: seq<Spot>, firsts: set<Text>, prefix: Text, inner: seq<Spot>)
    requires Shaped(spots) && StartsIn(spots, firsts) && Shaped(inner) && prefix !in firsts
    ensures Shaped(spots + Below(prefix, inner)) && StartsIn(spots + Below(prefix, inner), firsts + {prefix})
  {
    var mine, n := Below(prefix, inner), |spots|;
    var all := spots + mine;
    forall i | 1 <= i < |all| ensures ParentBefore(all, i) {
      if i < n { ParentStays(spots, mine, i); } else { ParentBelow(spots, prefix, inner, i - n); }
    }
    forall i, j | 0 <= i < j < |all| ensures all[i].parts != all[j].parts {
      if i >= n { BelowDistinct(prefix, inner, i - n, j - n); }
      else if j >= n { assert all[j].parts[0] == prefix; }
    }
  }

  /** One more place beside everything else. */
  lemma AddSpot(spots: seq<Spot>, firsts: set<Text>, part: Text)
    requires Shaped(spots) && StartsIn(spots, firsts) && part !in firsts
    ensures Shaped(spots + [Spot([part], false)]) && StartsIn(spots + [Spot([part], false)], firsts + {part})
  {
    var all, n := spots + [Spot([part], false)], |spots|;
    forall i | 1 <= i < |all| ensures ParentBefore(all, i) {
      if i < n { ParentStays(spots, [Spot([part], false)], i); }
      else { assert all[0] == spots[0] && IsChild(all[n].parts, all[0].parts); }
    }
  }

  // ----- the shape of a list of entries -----

  function Spots(entries: seq<Entry>): (r: seq<Spot>)
    ensures |r| == |entries|
    ensures forall i | 0 <= i < |r| :: r[i] == Spot(Parts(entries[i].name), entries[i].body.Directory?)
  {
    seq(|entries|, i requires 0 <= i < |entries| => Spot(Parts(entries[i].name), entries[i].body.Directory?))
  }

  ghost predicate AllCanonical(entries: seq<Entry>) {
    forall i | 0 <= i < |entries| :: Canonical(entries[i].name)
  }

  lemma SpotParents(entries: seq<Entry>, i: nat)
    requires i < |entries|
    ensures HasPlannedParent(entries, i) <==> ParentBefore(Spots(entries), i)
  {
    var s := Spots(entries);
    if HasPlannedParent(entries, i) {
      var j :| 0 <= j < i && entries[j].body.Directory? && IsChild(Parts(entries[i].name), Parts(entries[j].name));
      assert s[j].isDirectory && IsChild(s[i].parts, s[j].parts);
    }
    if ParentBefore(s, i) {
      var j :| 0 <= j < i && s[j].isDirectory && IsChild(s[i].parts, s[j].parts);
      assert entries[j].body.Directory? && IsChild(Parts(entries[i].name), Parts(entries[j].name));
    }
  }

  lemma WellFormedIsShaped(entries: seq<Entry>)
    requires WellFormed(entries)
    ensures Shaped(Spots(entries)) && AllCanonical(entries)
  {
    HereHasNoParts();
    forall i | 1 <= i < |entries| ensures ParentBefore(Spots(entries), i) {
      assert HasPlannedParent(entries, i);
      SpotParents(entries, i);
    }
    forall i, j | 0 <= i < j < |entries| ensures Spots(entries)[i].parts != Spots(entries)[j].parts {
      assert Canonical(entries[i].name) && Canonical(entries[j].name);
    }
  }

  lemma ShapedIsWellFormed(entries: seq<Entry>)
    requires Shaped(Spots(entries)) && AllCanonical(entries)
    ensures WellFormed(entries)
  {
    var s := Spots(entries);
    assert s[0] == Spot(Parts(entries[0].name), entries[0].body.Directory?);
    assert Canonical(entries[0].name) && Render([]) == HERE;
    forall i | 1 <= i < |entries| ensures HasPlannedParent(entries, i) {
      assert ParentBefore(s, i);
      SpotParents(entries, i);
    }
    forall i, j | 0 <= i < j < |entries| ensures entries[i].name != entries[j].name {
      assert s[i].parts != s[j].parts;
    }
  }

  lemma SpotsAppend(a: seq<Entry>, b: seq<Entry>)
    ensures Spots(a + b) == Spots(a) + Spots(b)
    ensures AllCanonical(a) && AllCanonical(b) ==> AllCanonical(a + b)
  {}

  lemma CanonicalUnder(prefix: Text, name: Text)
    requires OrdinaryName(prefix) && Canonical(name)
    ensures Canonical(Under(prefix, name)) && Parts(Under(prefix, name)) == [prefix] + Parts(name)
  {
    PartsUnder(prefix, name);
    PartsPlain(name);
    if name == HERE {
      HereHasNoParts();
    } else {
      assert Parts(name) == [] ==> Render(Parts(name)) == HERE;
      assert ([prefix] + Parts(name))[1..] == Parts(name);
    }
  }

  lemma SinglePart(name: Text)
    requires OrdinaryName(name)
    ensures Canonical(name) && Parts(name) == [name]
  {
    HereHasNoParts();
    CanonicalUnder(name, HERE);
  }

  lemma SpotsBelow(prefix: Text, entries: seq<Entry>)
    requires OrdinaryName(prefix) && AllCanonical(entries)
    ensures Spots(PrefixedEntries(prefix, entries)) == Below(prefix, Spots(entries))
    ensures AllCanonical(PrefixedEntries(prefix, entries))
  {
    var p := PrefixedEntries(prefix, entries);
    forall i | 0 <= i < |p| ensures Canonical(p[i].name) && Parts(p[i].name) == [prefix] + Parts(entries[i].name) {
      assert Canonical(entries[i].name);
      CanonicalUnder(prefix, entries[i].name);
    }
  }

  /** Canonical names in a good shape, starting only with these parts. */
  ghost predicate Good(entries: seq<Entry>, firsts: set<Text>) {
    AllCanonical(entries) && Shaped(Spots(entries)) && StartsIn(Spots(entries), firsts)
  }

  lemma AddFile(entries: seq<Entry>, firsts: set<Text>, e: Entry)
    requires Good(entries, firsts) && OrdinaryName(e.name) && e.name !in firsts && e.body.File?
    ensures Good(entries + [e], firsts + {e.name})
  {
    SinglePart(e.name);
    SpotsAppend(entries, [e]);
    assert Spots([e]) == [Spot([e.name], false)];
    AddSpot(Spots(entries), firsts, e.name);
  }

  lemma AddTree(entries: seq<Entry>, firsts: set<Text>, prefix: Text, inner: seq<Entry>)
    requires Good(entries, firsts) && WellFormed(inner) && OrdinaryName(prefix) && prefix !in firsts
    ensures Good(entries + PrefixedEntries(prefix, inner), firsts + {prefix})
  {
    WellFormedIsShaped(inner);
    SpotsBelow(prefix, inner);
    SpotsAppend(entries, PrefixedEntries(prefix, inner));
    GraftShape(Spots(entries), firsts, prefix, Spots(inner));
  }

  lemma RootAlone(mode: nat)
    ensures Good([Entry(HERE, mode, Directory)], {})
  {
    HereHasNoParts();
    assert Spots([Entry(HERE, mode, Directory)]) == [Spot([], true)];
  }

  // ----- the plans of this program -----

  lemma FixedParts()
    ensures OrdinaryName(BWRAP) && OrdinaryName(RUNTIME) && OrdinaryName(VENDOR) && OrdinaryName(CLAUDE)
    ensures OrdinaryName(RUNTIME_JSON) && OrdinaryName(LAUNCH_CONFIG) && OrdinaryName(ARTIFACTS) && OrdinaryName(POLICY_FILE)
    ensures RUNTIME_JSON !in {BWRAP, RUNTIME, VENDOR} && LAUNCH_CONFIG !in {BWRAP, RUNTIME, VENDOR, RUNTIME_JSON}
    ensures RUNTIME != BWRAP && VENDOR !in {BWRAP, RUNTIME} && POLICY_FILE != ARTIFACTS
  {
    assert |BWRAP| == 5 && |RUNTIME| == 7 && |VENDOR| == 6 && |CLAUDE| == 6;
    assert |RUNTIME_JSON| == 12 && |LAUNCH_CONFIG| == 18 && |ARTIFACTS| == 23 && |POLICY_FILE| == 32;
  }

  lemma VendorIsWellFormed(vendor: Text)
    ensures WellFormed(VendorEntries(vendor))
  {
    FixedParts();
    RootAlone(MODE_555);
    AddFile([Entry(HERE, MODE_555, Directory)], {}, Entry(CLAUDE, MODE_555, File(Data(vendor))));
    assert VendorEntries(vendor) == [Entry(HERE, MODE_555, Directory)] + [Entry(CLAUDE, MODE_555, File(Data(vendor)))];
    ShapedIsWellFormed(VendorEntries(vendor));
  }

  /** Two files beside everything else. */
  lemma AddTwoFiles(entries: seq<Entry>, firsts: set<Text>, e: Entry, f: Entry)
    requires Good(entries, firsts) && e.body.File? && f.body.File? && OrdinaryName(e.name) && OrdinaryName(f.name)
    requires e.name !in firsts && f.name !in firsts && f.name != e.name
    ensures Good(entries + [e, f], firsts + {e.name} + {f.name})
  {
    AddFile(entries, firsts, e);
    AddFile(entries + [e], firsts + {e.name}, f);
    ConcatAssociative(entries, [e], [f]);
    assert [e] + [f] == [e, f];
  }

  /** A tree, a second tree and two files beside what there is. */
  lemma AddTreesAndFiles(entries: seq<Entry>, firsts: set<Text>, a: Text, x: seq<Entry>, b: Text, y: seq<Entry>, e: Entry, f: Entry)
    requires Good(entries, firsts) && WellFormed(x) && WellFormed(y) && e.body.File? && f.body.File?
    requires OrdinaryName(a) && OrdinaryName(b) && OrdinaryName(e.name) && OrdinaryName(f.name)
    requires a !in firsts && b !in firsts + {a} && e.name !in firsts + {a} + {b} && f.name !in firsts + {a} + {b}
    requires e.name != f.name
    ensures WellFormed(entries + PrefixedEntries(a, x) + (PrefixedEntries(b, y) + [e, f]))
  {
    AddTree(entries, firsts, a, x);
    var two := entries + PrefixedEntries(a, x);
    AddTree(two, firsts + {a}, b, y);
    AddTwoFiles(two + PrefixedEntries(b, y), firsts + {a} + {b}, e, f);
    ShapedIsWellFormed(two + PrefixedEntries(b, y) + [e, f]);
    ConcatAssociative(two, PrefixedEntries(b, y), [e, f]);
  }

  lemma PlanIsWellFormed(g: Gathered)
    requires WellFormed(g.runtime)
    ensures WellFormed(PlanEntries(g))
  {
    FixedParts();
    VendorIsWellFormed(g.vendor);
    RootAlone(MODE_755);
    var root, bwrap := [Entry(HERE, MODE_755, Directory)], Entry(BWRAP, MODE_555, File(HostFile(g.bwrap)));
    AddFile(root, {}, bwrap);
    assert root + [bwrap] == PlanHead(g);
    AddTreesAndFiles(PlanHead(g), {} + {BWRAP}, RUNTIME, g.runtime, VENDOR, VendorEntries(g.vendor),
                     PlanTail(g)[0], PlanTail(g)[1]);
    assert PlanTail(g) == [PlanTail(g)[0], PlanTail(g)[1]];
  }

  lemma StagingShape(p: Plan)
    requires WellFormed(p.entries)
    ensures WellFormed(StagingEntries(p))
  {
    FixedParts();
    RootAlone(MODE_700);
    AddTree(StagingHead(), {}, ARTIFACTS, p.entries);
    AddFile(StagingHead() + PrefixedEntries(ARTIFACTS, p.entries), {} + {ARTIFACTS}, StagingTail(p)[0]);
    assert StagingTail(p) == [StagingTail(p)[0]];
    ShapedIsWellFormed(StagingEntries(p));
  }

  lemma CanonicalIsRelative(entries: seq<Entry>)
    requires AllCanonical(entries)
    ensures forall e | e in entries :: Relative(e.name)
  {
    forall e | e in entries ensures Relative(e.name) {
      var i :| 0 <= i < |entries| && entries[i] == e;
      assert Canonical(entries[i].name);
    }
  }

  /** Staging a plan whose runtime part is well formed stages a well-formed tree with its captured inventory. */
  lemma StagingIsWellFormed(g: Gathered, h: Host, p: Plan)
    requires MakePlan(g, h) == Some(p) && WellFormed(g.runtime)
    ensures WellFormed(StagingEntries(p))
    ensures Readable(StagingEntries(p), h) && Inventory(StagingEntries(p), h) == Some(StagingInventory(p))
  {
    PlanIsWellFormed(g);
    StagingShape(p);
    WellFormedIsShaped(g.runtime);
    CanonicalIsRelative(g.runtime);
    StagingInventoryIsFresh(g, h, p);
  }
}
