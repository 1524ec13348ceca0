/**
  What custody, a policy file and a tree equal to an inventory are, node by node
  (scripts/claude_host_artifacts.py).
 */
module TreeFacts {
  import opened Texts
  import opened Wrappers
  import opened PathParts
  import opened ArtifactInventory
  import opened ArtifactPlan
  import opened FileSystem
  import opened Materialize
  import opened ArtifactTree
  import opened ArtifactCommands

  // ----- custody -----

  /** Neither the group nor others may write. */
  predicate OnlyOwnerWrites(mode: nat) {
    var group, others := mode / 8 % 8, mode % 8;
    (group == 0 || group == 1 || group == 4 || group == 5) && (others == 0 || others == 1 || others == 4 || others == 5)
  }

  /** Neither the group nor others may do anything. */
  predicate OnlyOwner(mode: nat) { mode / 8 % 8 == 0 && mode % 8 == 0 }

  /** Everything above a path is a directory of one of these owners, which nobody else may write. */
  ghost predicate HeldAbove(nodes: Tree, p: Path, owners: set<int>) {
    forall d | d < p :: d in nodes && nodes[d].DirNode? && nodes[d].uid in owners && OnlyOwnerWrites(nodes[d].mode)
  }

  /** A name in a private workspace of the user's, below directories of root's or the user's. */
  ghost predicate Custody(nodes: Tree, user: int, dest: Path) {
    exists workspace, name :: dest == workspace + [name] && InWorkspace(nodes, user, workspace, name)
  }

  ghost predicate InWorkspace(nodes: Tree, user: int, workspace: Path, name: Text) {
    && (forall t | t in workspace + [name] :: t != [] && t != Lit(".") && t != Lit("..") && 47 !in t)
    && HeldAbove(nodes, workspace, {0, user})
    && workspace in nodes && nodes[workspace].DirNode? && nodes[workspace].uid == user && OnlyOwner(nodes[workspace].mode)
  }

  /** A mode as the bits of its owner, its group and others. */
  lemma ThreeDigits(mode: nat, a: nat, b: nat, c: nat)
    requires a == mode / 64 && b == mode / 8 % 8 && c == mode % 8
    ensures mode == 64 * a + 8 * b + c && mode / 2 == 32 * a + 4 * b + c / 2 && mode / 16 == 4 * a + b / 2
  {
    assert mode == 8 * (mode / 8) + c && mode / 8 == 8 * a + b;
  }

  lemma MiddleBit(n: nat)
    requires n < 8
    ensures n / 2 % 2 == 0 <==> n == 0 || n == 1 || n == 4 || n == 5
  {
    assert n == 0 || n == 1 || n == 2 || n == 3 || n == 4 || n == 5 || n == 6 || n == 7;
  }

  lemma LowBit(k: nat, r: nat)
    ensures (2 * k + r) % 2 == r % 2
  {}

  lemma ModeBits(mode: nat)
    ensures mode / 2 % 2 == 0 && mode / 16 % 2 == 0 <==> OnlyOwnerWrites(mode)
    ensures mode % 64 == 0 <==> OnlyOwner(mode)
  {
    ThreeDigits(mode, mode / 64, mode / 8 % 8, mode % 8);
    var a, b, c := mode / 64, mode / 8 % 8, mode % 8;
    LowBit(16 * a + 2 * b, c / 2);
    LowBit(2 * a, b / 2);
    MiddleBit(b);
    MiddleBit(c);
  }

  lemma ProperPrefix(d: Path, p: Path)
    ensures d < p <==> |d| < |p| && d == Above(p, |d|)
  {}

  /** require_ancestors */
  lemma TrustedIff(nodes: Tree, p: Path, owners: set<int>)
    ensures TrustedAbove(nodes, p, owners) <==> HeldAbove(nodes, p, owners)
  {
    if TrustedAbove(nodes, p, owners) {
      forall d | d < p ensures d in nodes && nodes[d].DirNode? && nodes[d].uid in owners && OnlyOwnerWrites(nodes[d].mode) {
        ProperPrefix(d, p);
        assert Trusted(nodes[Above(p, |d|)], owners);
        ModeBits(nodes[d].mode);
      }
    }
    if HeldAbove(nodes, p, owners) {
      forall k | 0 <= k < |p| ensures Above(p, k) in nodes && Trusted(nodes[Above(p, k)], owners) {
        ProperPrefix(Above(p, k), p);
        ModeBits(nodes[Above(p, k)].mode);
      }
    }
  }

  lemma PlainDest(dest: Path)
    ensures (PlainParts(dest) && DOTDOT !in dest) <==> forall t | t in dest :: t != [] && t != Lit(".") && t != Lit("..") && 47 !in t
  {
    assert Lit(".") == HERE && Lit("..") == DOTDOT;
  }

  /** require_custody */
  lemma CustodyIff(nodes: Tree, user: int, dest: Path)
    ensures InCustody(nodes, user, dest) <==> Custody(nodes, user, dest)
  {
    PlainDest(dest);
    if dest != [] {
      var workspace, name := Parent(dest), dest[|dest| - 1];
      assert dest == workspace + [name];
      TrustedIff(nodes, workspace, {ROOT_UID, user});
      if workspace in nodes && nodes[workspace].DirNode? { ModeBits(nodes[workspace].mode); }
      assert InCustody(nodes, user, dest) <==> InWorkspace(nodes, user, workspace, name);
      forall w, n | dest == w + [n] ensures w == workspace && n == name {}
    }
  }

  // ----- the policy file -----

  /** The user may search every directory above. */
  ghost predicate Searchable(nodes: Tree, user: int, p: Path) {
    forall d | d < p :: d in nodes && nodes[d].DirNode? && Allows(nodes[d].mode, nodes[d].uid, user, 1)
  }

  /** The owner's bit, or everyone's. */
  predicate Allows(mode: nat, uid: int, user: int, bit: nat)
    requires bit > 0
  {
    (if uid == user then mode / 64 % 8 else mode % 8) / bit % 2 == 1
  }

  lemma SearchableIff(nodes: Tree, user: int, p: Path)
    ensures Reachable(nodes, user, p) <==> Searchable(nodes, user, p)
  {
    if Reachable(nodes, user, p) {
      forall d | d < p ensures d in nodes && nodes[d].DirNode? && Allows(nodes[d].mode, nodes[d].uid, user, 1) {
        ProperPrefix(d, p);
        assert MaySearch(nodes[Above(p, |d|)], user);
      }
    }
    if Searchable(nodes, user, p) {
      forall k | 0 <= k < |p| ensures Above(p, k) in nodes && MaySearch(nodes[Above(p, k)], user) {
        ProperPrefix(Above(p, k), p);
      }
    }
  }

  /** verify() of the policy: root's file of mode 0o444 with the reviewed digest. */
  lemma PolicyIff(nodes: Tree, user: int, path: Path, sha256: Text -> Text, digest: Text)
    ensures PolicyInstalled(nodes, user, path, sha256, digest) <==>
      && path in nodes && Searchable(nodes, user, path) && nodes[path].FileNode? && nodes[path].uid == 0
      && nodes[path].mode == 292 && |nodes[path].data| <= 67108864 && sha256(nodes[path].data) == digest
  {
    SearchableIff(nodes, user, path);
  }

  // ----- a tree equal to an inventory -----

  /** The largest file that is read back under a name: the vendor program's pinned size, or 64 MiB. */
  lemma LimitIs(name: Text)
    ensures Limit(name) ==
      if name == Lit("vendor/claude") || name == Lit("constructicon-m8-claude/vendor/claude") then 257068216 else 67108864
  {}

  function NameBelow(top: Path, p: Path): Text
    requires top <= p
  {
    if p == top then Lit(".") else Join(p[|top|..], 47)
  }

  /** The node is what the item says, belongs to the owner, and can be read back. */
  ghost predicate NodeIs(v: View, i: Item, owner: int, p: Path)
    requires p in v.nodes && v.top <= p
  {
    && i.name == NameBelow(v.top, p) && Searchable(v.nodes, v.user, p)
    && match v.nodes[p]
       case DirNode(mode, uid) => i.mode == mode && i.content == IsDirectory && uid == owner
       case LinkNode(uid, target) => i.mode == 511 && i.content == LinksTo(target) && uid == owner && Stays(v, p, target)
       case FileNode(mode, uid, data) =>
         && i.mode == mode && i.content == Digest(v.sha256(data)) && uid == owner && Allows(mode, uid, v.user, 4)
         && |data| <= if i.name == Lit("vendor/claude") || i.name == Lit("constructicon-m8-claude/vendor/claude")
                      then 257068216 else 67108864
  }

  lemma NameIs(v: View, p: Path)
    requires v.top <= p
    ensures NameOf(v, p) == NameBelow(v.top, p)
  {
    assert Lit(".") == HERE;
    if p == v.top { assert p[|v.top|..] == []; }
  }

  lemma RowIsNode(v: View, i: Item, owner: int, p: Path)
    requires p in v.nodes && v.top <= p
    ensures RowOf(v, p) == Some(Expected(i, owner)) <==> NodeIs(v, i, owner, p)
  {
    NameIs(v, p);
    SearchableIff(v.nodes, v.user, p);
    LimitIs(NameOf(v, p));
  }

  predicate NamesDiffer(items: seq<Item>) {
    forall i, j | 0 <= i < j < |items| :: items[i].name != items[j].name
  }

  lemma WantedIs(items: seq<Item>, i: Item)
    requires NamesDiffer(items) && i in items
    ensures i.name in Wanted(items) && Wanted(items)[i.name] == i
  {
    var w := Wanted(items)[i.name];
    assert w in items && w.name == i.name;
  }

  ghost predicate HasItem(v: View, items: seq<Item>, owner: int, p: Path)
    requires p in v.nodes && v.top <= p
  {
    exists i :: i in items && NodeIs(v, i, owner, p)
  }

  ghost predicate HasNode(v: View, owner: int, i: Item) {
    exists p :: p in v.nodes && v.top <= p && NodeIs(v, i, owner, p)
  }

  /** The nodes at and below the top are the items: one node for each item, and no other node. */
  ghost predicate NodesAre(v: View, items: seq<Item>, owner: int) {
    && v.top in v.nodes && v.nodes[v.top].DirNode?
    && (forall p | p in v.nodes && v.top <= p :: HasItem(v, items, owner, p))
    && (forall i | i in items :: HasNode(v, owner, i))
  }

  lemma ShowsIsNode(v: View, items: seq<Item>, owner: int, p: Path)
    requires NamesDiffer(items) && p in v.nodes && v.top <= p
    ensures Shows(v, Wanted(items), owner, p) <==> HasItem(v, items, owner, p)
  {
    NameIs(v, p);
    if Shows(v, Wanted(items), owner, p) { RowIsNode(v, Wanted(items)[NameOf(v, p)], owner, p); }
    forall i | i in items && NodeIs(v, i, owner, p) ensures Shows(v, Wanted(items), owner, p) {
      WantedIs(items, i);
      RowIsNode(v, i, owner, p);
    }
  }

  lemma ItemHasNode(v: View, items: seq<Item>, owner: int, i: Item)
    requires NamesDiffer(items) && i in items && TreeIs(v, items, owner)
    ensures HasNode(v, owner, i)
  {
    WantedIs(items, i);
    var p :| p in v.nodes && v.top <= p && NameOf(v, p) == i.name;
    assert Shows(v, Wanted(items), owner, p);
    RowIsNode(v, i, owner, p);
  }

  lemma NodeHasItem(v: View, items: seq<Item>, owner: int, n: Text) returns (p: Path)
    requires NodesAre(v, items, owner) && n in Wanted(items)
    ensures p in v.nodes && v.top <= p && NameOf(v, p) == n
  {
    var item := Wanted(items)[n];
    assert HasNode(v, owner, item);
    p :| p in v.nodes && v.top <= p && NodeIs(v, item, owner, p);
    NameIs(v, p);
  }

  lemma TopIsReal(v: View, items: seq<Item>, owner: int)
    requires NodesAre(v, items, owner)
    ensures RealTop(v)
  {
    assert HasItem(v, items, owner, v.top);
    SearchableIff(v.nodes, v.user, v.top);
  }

  lemma NodesMakeTree(v: View, items: seq<Item>, owner: int)
    requires NamesDiffer(items) && NodesAre(v, items, owner)
    ensures TreeIs(v, items, owner)
  {
    TopIsReal(v, items, owner);
    forall p | p in v.nodes && v.top <= p ensures Shows(v, Wanted(items), owner, p) { ShowsIsNode(v, items, owner, p); }
    forall n | n in Wanted(items) ensures exists p | p in v.nodes && v.top <= p :: NameOf(v, p) == n {
      var p := NodeHasItem(v, items, owner, n);
    }
  }

  lemma TreeHasNodes(v: View, items: seq<Item>, owner: int)
    requires NamesDiffer(items) && TreeIs(v, items, owner)
    ensures NodesAre(v, items, owner)
  {
    forall p | p in v.nodes && v.top <= p ensures HasItem(v, items, owner, p) { ShowsIsNode(v, items, owner, p); }
    forall i | i in items ensures HasNode(v, owner, i) { ItemHasNode(v, items, owner, i); }
  }

  /** A tree is the inventory exactly when its nodes are the items. */
  lemma TreeIsNodes(v: View, items: seq<Item>, owner: int)
    requires NamesDiffer(items)
    ensures TreeIs(v, items, owner) <==> NodesAre(v, items, owner)
  {
    if TreeIs(v, items, owner) { TreeHasNodes(v, items, owner); }
    if NodesAre(v, items, owner) { NodesMakeTree(v, items, owner); }
  }

  // ----- links that stay inside -----

  /** Where parts lead from a place when nothing on the way is a link. */
  function Lexical(at: Path, rest: seq<Text>): Path
    decreases |rest|
  {
    if rest == [] then at
    else if rest[0] == Lit("..") then Lexical(if at == [] then [] else at[..|at| - 1], rest[1..])
    else Lexical(at + [rest[0]], rest[1..])
  }

  ghost predicate NoLinks(nodes: Tree, at: Path, rest: seq<Text>)
    decreases |rest|
  {
    rest != [] ==>
      if rest[0] == Lit("..") then NoLinks(nodes, if at == [] then [] else at[..|at| - 1], rest[1..])
      else (at + [rest[0]] in nodes ==> !nodes[at + [rest[0]]].LinkNode?) && NoLinks(nodes, at + [rest[0]], rest[1..])
  }

  lemma {:induction false} ResolvesStraight(nodes: Tree, user: int, at: Path, rest: seq<Text>, hops: nat)
    requires NoLinks(nodes, at, rest)
    ensures Resolve(nodes, user, at, rest, hops) == Some(Lexical(at, rest))
    decreases |rest|
  {
    assert Lit("..") == DOTDOT;
    if rest != [] {
      if rest[0] == DOTDOT { ResolvesStraight(nodes, user, if at == [] then [] else at[..|at| - 1], rest[1..], hops); }
      else { ResolvesStraight(nodes, user, at + [rest[0]], rest[1..], hops); }
    }
  }

  /**
    A link whose target meets no further link stays inside exactly when its parts lead into the tree, from beside
    the link, or from the root for an absolute target.
   */
  lemma StaysIff(v: View, p: Path, target: Text, start: Path)
    requires p != [] && start == if target != [] && target[0] == 47 then [] else p[..|p| - 1]
    requires NoLinks(v.nodes, start, KeepParts(Split(target, 47)))
    ensures Stays(v, p, target) <==> v.top <= Lexical(start, KeepParts(Split(target, 47)))
  {
    ResolvesStraight(v.nodes, v.user, start, KeepParts(Split(target, SLASH)), v.hops);
  }

  // ----- names that are written -----

  lemma {:induction false} KeptIff(pieces: seq<Text>, t: Text)
    requires IsPart(t)
    ensures t in KeepParts(pieces) <==> t in pieces
  {
    if pieces != [] {
      KeptIff(pieces[1..], t);
      assert pieces == [pieces[0]] + pieces[1..];
    }
  }

  /** materialize writes "." and every relative name without "..". */
  lemma NameOkIff(name: Text)
    ensures NameOk(name) <==> name == Lit(".") || ((name != [] ==> name[0] != 47) && Lit("..") !in Split(name, 47))
  {
    assert Lit(".") == HERE && Lit("..") == DOTDOT;
    KeptIff(Split(name, SLASH), DOTDOT);
  }
}
