/** A plan that is written through one of its own links (scripts/claude_host_artifacts.py). */
module LinkWitness {
  import opened Texts
  import opened Wrappers
  import opened PathParts
  import opened ArtifactInventory
  import opened FileSystem
  import opened Materialize
  import opened RuntimeShape

  /** The root, a directory, a link to it beside it, and a directory planned under the link. */
  function ThroughLink(a: Text, b: Text, c: Text): seq<Entry> {
    [Entry(HERE, MODE_555, Directory), Entry(a, MODE_555, Directory), Entry(b, MODE_777, Link(a)),
     Entry(b + [SLASH] + c, MODE_555, Directory)]
  }

  ghost predicate ThreeNames(a: Text, b: Text, c: Text) {
    OrdinaryName(a) && OrdinaryName(b) && OrdinaryName(c) && a != b
  }

  lemma OneOrdinary(a: Text)
    requires OrdinaryName(a)
    ensures Canonical(a) && Parts(a) == [a] && a != HERE
  {
    SplitOfClean(a, SLASH);
    assert Relative(a) by { assert a[0] in a; }
    assert KeepParts([a]) == [a] && Parts(a) == [a] && Render([a]) == a;
  }

  lemma TheParts(a: Text, b: Text, c: Text)
    requires ThreeNames(a, b, c)
    ensures Canonical(a) && Canonical(b) && Canonical(b + [SLASH] + c) && a != HERE && b != HERE
    ensures Parts(a) == [a] && Parts(b) == [b] && Parts(b + [SLASH] + c) == [b, c] && Parts(HERE) == []
  {
    OneOrdinary(a);
    OneOrdinary(b);
    ChildName(b, c);
    HereHasNoParts();
  }

  /** The entries with their parts; no name is looked into any further. */
  ghost predicate Named4(r: seq<Entry>, a: Text, b: Text, c: Text) {
    && |r| == 4 && (forall i | 0 <= i < 4 :: Canonical(r[i].name))
    && r[0] == Entry(HERE, MODE_555, Directory) && r[1].body.Directory? && r[2].body == Link(a) && r[3].body.Directory?
    && Parts(r[0].name) == [] && Parts(r[1].name) == [a] && Parts(r[2].name) == [b] && Parts(r[3].name) == [b, c]
  }

  lemma HereIsCanonical()
    ensures Canonical(HERE)
  {
    HereHasNoParts();
  }

  lemma IsNamed(a: Text, b: Text, c: Text)
    requires ThreeNames(a, b, c)
    ensures Named4(ThroughLink(a, b, c), a, b, c)
  {
    var r := ThroughLink(a, b, c);
    assert r[0].name == HERE && r[1].name == a && r[2].name == b && r[3].name == b + [SLASH] + c;
    HereIsCanonical();
    TheParts(a, b, c);
    forall i | 0 <= i < 4 ensures Canonical(r[i].name) {}
  }

  /** The plan has the shape of a sorted runtime plan. */
  lemma IsShaped(r: seq<Entry>, a: Text, b: Text, c: Text)
    requires Named4(r, a, b, c) && a != b
    ensures Shape(r, {})
  {
    LastIsUnderLink(r, a, b, c);
    NamesDiffer(r, a, b, c);
    ShallowIsFirst(r, 0);
    ShallowIsFirst(r, 1);
    ShallowIsFirst(r, 2);
  }

  lemma ShallowIsFirst(r: seq<Entry>, i: nat)
    requires i < |r| && |Parts(r[i].name)| <= 1
    ensures AncestorsFirst(r, i)
  {}

  lemma NamesDiffer(r: seq<Entry>, a: Text, b: Text, c: Text)
    requires Named4(r, a, b, c) && a != b
    ensures Unique(r)
  {
    assert [a][0] != [b][0];
    forall i, j | 0 <= i < j < 4 ensures r[i].name != r[j].name { assert Parts(r[i].name) != Parts(r[j].name); }
  }

  lemma LastIsUnderLink(r: seq<Entry>, a: Text, b: Text, c: Text)
    requires Named4(r, a, b, c)
    ensures AncestorsFirst(r, 3)
  {
    assert Above([b, c], 1) == [b] && Render([b]) == r[2].name;
    assert EarlierName(r, 3, Render(Above(Parts(r[3].name), 1)));
  }

  lemma IsNotPlaceable(r: seq<Entry>, a: Text, b: Text, c: Text)
    requires Named4(r, a, b, c) && a != b
    ensures !Placeable(r)
  {
    assert Above([b, c], 1) == [b];
    assert !HasPlannedParent(r, 3);
  }

  lemma PlainNameOk(name: Text)
    requires Canonical(name)
    ensures NameOk(name)
  {
    PartsPlain(name);
  }

  lemma ChildrenOfRoot(head: seq<Entry>, a: Text, b: Text)
    requires |head| == 3 && head[0].body.Directory?
    requires Parts(head[0].name) == [] && Parts(head[1].name) == [a] && Parts(head[2].name) == [b]
    ensures forall i | 1 <= i < 3 :: HasPlannedParent(head, i)
  {
    assert Above([a], 0) == [] && Above([b], 0) == [];
    assert IsChild([a], []) && IsChild([b], []);
    assert HasPlannedParent(head, 1) && HasPlannedParent(head, 2);
  }

  lemma AllNamesOk(head: seq<Entry>)
    requires forall i | 0 <= i < |head| :: Canonical(head[i].name)
    ensures forall i | 0 <= i < |head| :: NameOk(head[i].name)
  {
    forall i | 0 <= i < |head| ensures NameOk(head[i].name) { PlainNameOk(head[i].name); }
  }

  lemma PartsDiffer(head: seq<Entry>, a: Text, b: Text)
    requires |head| == 3 && a != b
    requires Parts(head[0].name) == [] && Parts(head[1].name) == [a] && Parts(head[2].name) == [b]
    ensures forall i, j | 0 <= i < j < 3 :: Parts(head[i].name) != Parts(head[j].name)
  {
    assert [a][0] != [b][0];
  }

  lemma HeadIsPlaceable(head: seq<Entry>, a: Text, b: Text)
    requires |head| == 3 && head[0].body.Directory? && head[0].name == HERE && a != b
    requires forall i | 0 <= i < 3 :: Canonical(head[i].name)
    requires Parts(head[0].name) == [] && Parts(head[1].name) == [a] && Parts(head[2].name) == [b]
    ensures Placeable(head)
  {
    ChildrenOfRoot(head, a, b);
    AllNamesOk(head);
    PartsDiffer(head, a, b);
    IsPlaceable(head);
  }

  lemma IsPlaceable(head: seq<Entry>)
    requires head != [] && head[0].name == HERE && head[0].body.Directory?
    requires forall i | 0 <= i < |head| :: NameOk(head[i].name)
    requires forall i, j | 0 <= i < j < |head| :: Parts(head[i].name) != Parts(head[j].name)
    requires forall i | 1 <= i < |head| :: HasPlannedParent(head, i)
    ensures Placeable(head)
  {}

  /** The plan's steps. */
  ghost predicate Steps4(steps: seq<Step>, user: int, dest: Path, a: Text, b: Text, c: Text) {
    && |steps| == 4
    && steps[0].path == dest && steps[0].made == DirNode(PRIVATE_DIR, user)
    && steps[1].path == dest + [a] && steps[1].made == DirNode(PRIVATE_DIR, user)
    && steps[2].path == dest + [b] && steps[2].made == LinkNode(user, a) && steps[3].path == dest + [b, c]
  }

  lemma TheSteps(r: seq<Entry>, a: Text, b: Text, c: Text, when: nat -> Host, dest: Path, user: int)
    requires Named4(r, a, b, c)
    ensures Steps4(Steps(r, when, dest, user), user, dest, a, b, c)
  {
    assert dest + [] == dest;
    forall i | 0 <= i < 4 ensures Steps(r, when, dest, user)[i] == StepOf(r[i], when(i), dest, user) {}
  }

  /** What has been built when the last entry's turn comes. */
  ghost predicate Half(nodes: Tree, user: int, dest: Path, a: Text, b: Text) {
    && dest != [] && DOTDOT !in dest && Reachable(nodes, user, dest)
    && dest in nodes && nodes[dest] == DirNode(PRIVATE_DIR, user)
    && dest + [a] in nodes && nodes[dest + [a]] == DirNode(PRIVATE_DIR, user)
    && dest + [b] in nodes && nodes[dest + [b]] == LinkNode(user, a)
  }

  lemma HalfBuilt(base: Tree, steps: seq<Step>, user: int, dest: Path, a: Text, b: Text, c: Text)
    requires Steps4(steps, user, dest, a, b, c) && Buildable(base, steps, user, 3) && DOTDOT !in dest
    ensures Half(Build(base, steps, 3), user, dest, a, b)
  {
    BuildMade(base, steps, user, 0, 3);
    BuildMade(base, steps, user, 1, 3);
    BuildMade(base, steps, user, 2, 3);
    assert Makeable(base, steps, user, 0);
    BuildGrows(base, steps, user, 0, 3);
  }

  /** A lookup that succeeds can be gone on with. */
  lemma {:induction false} WalkOn(nodes: Tree, user: int, s: Stand, a: seq<Text>, b: seq<Text>)
    requires Walk(nodes, user, s, a).Some?
    ensures Walk(nodes, user, s, a + b) == Walk(nodes, user, Walk(nodes, user, s, a).value, b)
    decreases s.links, |a|
  {
    if a == [] {
      assert a + b == b;
    } else {
      var p := s.at + [a[0]];
      assert (a + b)[0] == a[0] && (a + b)[1..] == a[1..] + b;
      if a[0] == DOTDOT { WalkOn(nodes, user, Stand(Parent(s.at), s.links), a[1..], b); }
      else if nodes[p].DirNode? { WalkOn(nodes, user, Stand(p, s.links), a[1..], b); }
      else {
        var on := KeepParts(Split(nodes[p].target, SLASH));
        ConcatAssociative(on, a[1..], b);
        WalkOn(nodes, user, Through(s, nodes[p].target), on + a[1..], b);
      }
    }
  }

  lemma ReachesDestination(nodes: Tree, user: int, dest: Path, a: Text, b: Text)
    requires Half(nodes, user, dest, a, b)
    ensures Walk(nodes, user, START, dest) == Some(Stand(dest, MAX_LINKS))
  {
    forall k | 0 <= k <= |dest| ensures [] + dest[..k] in nodes && MaySearch(nodes[[] + dest[..k]], user) {
      assert [] + dest[..k] == Above(dest, k) && Above(dest, |dest|) == dest;
    }
    WalkStraight(nodes, user, START, dest);
    assert [] + dest == dest;
  }

  /** One step through a link to a directory beside it. */
  lemma LinkStep(nodes: Tree, user: int, s: Stand, b: Text, a: Text)
    requires s.links > 0 && b != DOTDOT && OneName(a) && s.at in nodes && MaySearch(nodes[s.at], user)
    requires s.at + [b] in nodes && nodes[s.at + [b]] == LinkNode(user, a)
    requires s.at + [a] in nodes && nodes[s.at + [a]].DirNode?
    ensures Walk(nodes, user, s, [b]) == Some(Stand(s.at + [a], s.links - 1))
  {
    var t := Through(s, a);
    assert [b][1..] == [] && [a][1..] == [] && [a] + [] == [a];
    assert Walk(nodes, user, t, [a]) == Walk(nodes, user, Stand(s.at + [a], t.links), []);
  }

  /** The lookup of the last entry goes through the link. */
  lemma LeadsThrough(nodes: Tree, user: int, dest: Path, a: Text, b: Text, c: Text)
    requires Half(nodes, user, dest, a, b) && ThreeNames(a, b, c)
    ensures Lookup(nodes, user, dest + [b, c]) == Some(dest + [a, c])
  {
    OrdinaryIsOneName(a);
    ReachesDestination(nodes, user, dest, a, b);
    var s := Stand(dest, MAX_LINKS);
    WalkOn(nodes, user, START, dest, [b]);
    LinkStep(nodes, user, s, b, a);
    assert Parent(dest + [b, c]) == dest + [b];
    assert dest + [a] + [c] == dest + [a, c];
  }

  /** The place it leads to is free. */
  lemma PlaceIsFree(base: Tree, steps: seq<Step>, user: int, dest: Path, a: Text, b: Text, c: Text)
    requires |steps| >= 3 && Ready(base, user, dest) && Half(Build(base, steps, 3), user, dest, a, b) && ThreeNames(a, b, c)
    requires forall i | 0 <= i < 3 :: |steps[i].path| < |dest| + 2
    ensures Creatable(Build(base, steps, 3), user, dest + [a, c])
  {
    var nodes, p := Build(base, steps, 3), dest + [a, c];
    if p in nodes { BuildSources(base, steps, 3, p); }
    assert Above(p, |p| - 1) == dest + [a];
    forall k | 0 <= k < |p| ensures Above(p, k) in nodes && MaySearch(nodes[Above(p, k)], user) {
      if k < |dest| { assert Above(p, k) == Above(dest, k); }
      else if k == |dest| { assert Above(p, k) == dest; }
    }
  }

  /** Taken one by one, the fourth step goes where the link leads. */
  lemma FourthGoesThrough(base: Tree, steps: seq<Step>, user: int, dest: Path, a: Text, b: Text, c: Text)
    requires Steps4(steps, user, dest, a, b, c) && Buildable(base, steps, user, 3) && Ready(base, user, dest) && ThreeNames(a, b, c)
    ensures var r := Led(base, steps, user, 4);
      Buildable(base, r, user, 4) && r[3] == steps[3].(path := dest + [a, c]) && r[..3] == steps[..3]
  {
    var done := steps[..3];
    LedStraight(base, steps, user, 3);
    HalfBuilt(base, steps, user, dest, a, b, c);
    LeadsThrough(Build(base, steps, 3), user, dest, a, b, c);
    PlaceIsFree(base, steps, user, dest, a, b, c);
    BuildPrefix(base, done, steps, 3);
    var r := LedMore(base, done, steps[3], user);
    assert r == Led(base, steps, user, 4) && r[..3] == done;
    forall i | 0 <= i < 4 ensures Makeable(base, r, user, i) {
      BuildPrefix(base, done, steps, if i < 3 then i else 3);
      BuildPrefix(base, done, r, if i < 3 then i else 3);
      assert i < 3 ==> Makeable(base, steps, user, i) && r[i] == steps[i];
    }
  }

  /**
    A plan that is not placeable may be written all the same when one of its links leads to a directory planned
    before: what is planned under the link is made in that directory.
   */
  lemma WrittenThroughLink(a: Text, b: Text, c: Text, base: Tree, when: nat -> Host, dest: Path, user: int) returns (r: seq<Entry>)
    requires ThreeNames(a, b, c) && Ready(base, user, dest)
    ensures r == ThroughLink(a, b, c) && Shape(r, {}) && !Placeable(r)
    ensures AllAdmissible(r, when, |r|) && Buildable(base, Placed(base, r, when, dest, user), user, |r|)
    ensures Placed(base, r, when, dest, user)[3].path == dest + [a, c]
  {
    r := ThroughLink(a, b, c);
    IsNamed(a, b, c);
    IsShaped(r, a, b, c);
    IsNotPlaceable(r, a, b, c);
    GoesThrough(r, a, b, c, base, when, dest, user);
  }

  lemma IsAdmissible(r: seq<Entry>, a: Text, b: Text, c: Text, when: nat -> Host)
    requires Named4(r, a, b, c)
    ensures AllAdmissible(r, when, |r|)
  {
    forall i | 0 <= i < 4 ensures AdmissibleAt(r, when, i) { NeedsNoSource(r[i], when(i)); }
  }

  lemma NeedsNoSource(e: Entry, h: Host)
    requires Canonical(e.name) && !e.body.File?
    ensures Admissible(e, h)
  {
    PlainNameOk(e.name);
  }

  lemma GoesThrough(r: seq<Entry>, a: Text, b: Text, c: Text, base: Tree, when: nat -> Host, dest: Path, user: int)
    requires Named4(r, a, b, c) && ThreeNames(a, b, c) && Ready(base, user, dest)
    ensures AllAdmissible(r, when, |r|) && Buildable(base, Placed(base, r, when, dest, user), user, |r|)
    ensures Placed(base, r, when, dest, user)[3].path == dest + [a, c]
  {
    IsAdmissible(r, a, b, c, when);
    TheSteps(r, a, b, c, when, dest, user);
    HeadIsBuilt(r, a, b, c, base, when, dest, user);
    FourthGoesThrough(base, Steps(r, when, dest, user), user, dest, a, b, c);
  }

  lemma HeadIsBuilt(r: seq<Entry>, a: Text, b: Text, c: Text, base: Tree, when: nat -> Host, dest: Path, user: int)
    requires Named4(r, a, b, c) && a != b && Ready(base, user, dest)
    ensures Buildable(base, Steps(r, when, dest, user), user, 3)
  {
    var head := r[..3];
    HeadIsPlaceable(head, a, b);
    forall i | 0 <= i < 3 ensures Copy(head[i], when(i)).Some? { assert !head[i].body.File?; }
    PlaceableCompletes(base, head, when, dest, user);
    SamePrefix(Steps(head, when, dest, user), Steps(r, when, dest, user), base, user);
  }

  lemma SamePrefix(steps: seq<Step>, all: seq<Step>, base: Tree, user: int)
    requires |steps| == 3 <= |all| && Buildable(base, steps, user, 3) && forall i | 0 <= i < 3 :: steps[i] == all[i]
    ensures Buildable(base, all, user, 3)
  {
    assert steps == all[..3];
    forall i | 0 <= i < 3 ensures Makeable(base, all, user, i) {
      BuildPrefix(base, steps, all, i);
      assert Makeable(base, steps, user, i);
    }
  }
}
