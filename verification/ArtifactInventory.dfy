/**
  Planned entries, their inventories, and the differences between two of them
  (scripts/claude_host_artifacts.py).
 */
module ArtifactInventory {
  import opened Texts
  import opened Wrappers
  import opened Sorting
  import opened PathParts

  const FILE_BYTES := 67108864  // 64 << 20

  const MODE_777 := 511
  const MODE_755 := 493
  const MODE_700 := 448
  const MODE_555 := 365
  const MODE_444 := 292

  // ----- the order of parts tuples -----

  /** Parts laid end to end, each closed by a mark below every character. */
  function PartsKey(parts: seq<Text>): Key {
    if parts == [] then [] else parts[0] + [-1] + PartsKey(parts[1..])
  }

  /** How Python compares tuples of strings. */
  predicate TupleLess(a: seq<Text>, b: seq<Text>) {
    b != [] && (a == [] || Less(a[0], b[0]) || (a[0] == b[0] && TupleLess(a[1..], b[1..])))
  }

  lemma {:induction false} ClosedLess(a: Text, b: Text, p: Key, q: Key)
    ensures a != b ==> (Less(a + [-1] + p, b + [-1] + q) <==> Less(a, b))
    ensures a == b ==> (Less(a + [-1] + p, b + [-1] + q) <==> Less(p, q))
  {
    var x, y := a + [-1] + p, b + [-1] + q;
    if a != [] && b != [] && a[0] == b[0] {
      assert x[1..] == a[1..] + [-1] + p && y[1..] == b[1..] + [-1] + q;
      ClosedLess(a[1..], b[1..], p, q);
      assert a == [a[0]] + a[1..] && b == [b[0]] + b[1..];
    } else if a == [] && b == [] {
      assert x[1..] == p && y[1..] == q;
    }
  }

  /** The key orders parts as Python orders the tuples. */
  lemma {:induction false} PartsKeyOrder(a: seq<Text>, b: seq<Text>)
    ensures Less(PartsKey(a), PartsKey(b)) <==> TupleLess(a, b)
  {
    if a != [] && b != [] {
      ClosedLess(a[0], b[0], PartsKey(a[1..]), PartsKey(b[1..]));
      PartsKeyOrder(a[1..], b[1..]);
      LessIrreflexive(a[0]);
    }
  }

  lemma {:induction false} PartsKeyAppend(a: seq<Text>, b: seq<Text>)
    ensures PartsKey(a + b) == PartsKey(a) + PartsKey(b)
  {
    if a == [] {
      assert a + b == b;
    } else {
      assert (a + b)[1..] == a[1..] + b;
      PartsKeyAppend(a[1..], b);
      assert a[0] + [-1] + (PartsKey(a[1..]) + PartsKey(b)) == a[0] + [-1] + PartsKey(a[1..]) + PartsKey(b);
    }
  }

  // ----- entries and inventories -----

  datatype Source = HostFile(path: seq<Text>) | Data(bytes: Text)

  datatype Body = Directory | Link(target: Text) | File(source: Source)

  datatype Entry = Entry(name: Text, mode: nat, body: Body)

  /** The content column: `directory`, `link:<target>` or `sha256:<digest>`. */
  datatype Content = IsDirectory | LinksTo(target: Text) | Digest(sha256: Text)

  datatype Item = Item(name: Text, mode: nat, content: Content)

  /** What each host file holds, None where it cannot be opened as a regular file, and the hash. */
  datatype Host = Host(files: seq<Text> -> Option<Text>, sha256: Text -> Text)

  function EntryKey(e: Entry): Key { PartsKey(Parts(e.name)) }
  function ItemKey(i: Item): Key { PartsKey(Parts(i.name)) }

  /** read_bounded_regular(path, FILE_BYTES) on the host. */
  function HostBytes(path: seq<Text>, h: Host): Option<Text> {
    var raw :- h.files(path);
    if |raw| <= FILE_BYTES then Some(raw) else None
  }

  function EntryBytes(source: Source, h: Host): Option<Text> {
    match source
    case HostFile(path) => HostBytes(path, h)
    case Data(bytes) => Some(bytes)
  }

  function ItemOf(e: Entry, h: Host): Option<Item> {
    match e.body
    case Directory => Some(Item(e.name, e.mode, IsDirectory))
    case Link(target) => Some(Item(e.name, e.mode, LinksTo(target)))
    case File(source) =>
      var bytes :- EntryBytes(source, h);
      Some(Item(e.name, e.mode, Digest(h.sha256(bytes))))
  }

  /** Every source can be read. */
  predicate Readable(entries: seq<Entry>, h: Host) {
    forall e | e in entries :: ItemOf(e, h).Some?
  }

  /** The item of an entry whose source can be read. */
  function ItemFor(e: Entry, h: Host): (i: Item)
    ensures i.name == e.name && i.mode == e.mode
    ensures ItemOf(e, h).Some? ==> i == ItemOf(e, h).value
  {
    match ItemOf(e, h)
    case Some(i) => i
    case None => Item(e.name, e.mode, IsDirectory)
  }

  function Items(entries: seq<Entry>, h: Host): (r: seq<Item>)
    ensures |r| == |entries|
    ensures forall i | 0 <= i < |r| :: r[i] == ItemFor(entries[i], h)
  {
    seq(|entries|, i requires 0 <= i < |entries| => ItemFor(entries[i], h))
  }

  /** inventory(entries): None when a source is refused. */
  function Inventory(entries: seq<Entry>, h: Host): Option<seq<Item>> {
    if Readable(entries, h) then Some(Items(Sort(entries, EntryKey), h)) else None
  }

  method InventoryOf(entries: seq<Entry>, h: Host) returns (r: Option<seq<Item>>)
    ensures r == Inventory(entries, h)
  {
    var sorted := Sort(entries, EntryKey);
    SortElements(entries, EntryKey);
    r := ReadInOrder(sorted, h);
  }

  method ReadInOrder(entries: seq<Entry>, h: Host) returns (r: Option<seq<Item>>)
    ensures r == if Readable(entries, h) then Some(Items(entries, h)) else None
  {
    var result: seq<Item> := [];
    for i := 0 to |entries|
      invariant forall j | 0 <= j < i :: ItemOf(entries[j], h).Some?
      invariant result == Items(entries, h)[..i]
    {
      var item := ItemOf(entries[i], h);
      if item.None? {
        assert entries[i] in entries;
        return None;
      }
      TakeMore(Items(entries, h), i);
      result := result + [item.value];
    }
    TakeAll(Items(entries, h));
    return Some(result);
  }

  function PrefixedInventory(prefix: Text, items: seq<Item>): (r: seq<Item>)
    ensures |r| == |items|
    ensures forall i | 0 <= i < |r| :: r[i] == PrefixedItem(prefix, items[i])
  {
    seq(|items|, i requires 0 <= i < |items| => PrefixedItem(prefix, items[i]))
  }

  function PrefixedItem(prefix: Text, i: Item): Item {
    i.(name := Under(prefix, i.name))
  }

  function OrderedInventory(items: seq<Item>): seq<Item> {
    Sort(items, ItemKey)
  }

  function PrefixedEntries(prefix: Text, entries: seq<Entry>): (r: seq<Entry>)
    ensures |r| == |entries|
    ensures forall i | 0 <= i < |r| :: r[i] == Entry(Under(prefix, entries[i].name), entries[i].mode, entries[i].body)
  {
    seq(|entries|, i requires 0 <= i < |entries| => Entry(Under(prefix, entries[i].name), entries[i].mode, entries[i].body))
  }

  // ----- sorting commutes with reading and with prefixing -----

  /** The inventory is the items in order: sorting before reading or after is the same. */
  lemma InventoryIsOrderedItems(entries: seq<Entry>, h: Host)
    requires Readable(entries, h)
    ensures Inventory(entries, h) == Some(OrderedInventory(Items(entries, h)))
  {
    var f := (e: Entry) => ItemFor(e, h);
    var sorted := Sort(entries, EntryKey);
    assert Map(f, entries) == Items(entries, h) && Map(f, sorted) == Items(sorted, h);
    MapSort(f, entries, EntryKey, ItemKey);
  }

  lemma PrefixedKey(prefix: Text, i: Item)
    requires IsPart(prefix) && SLASH !in prefix && Relative(i.name)
    ensures ItemKey(PrefixedItem(prefix, i)) == PartsKey([prefix]) + ItemKey(i)
  {
    PartsUnder(prefix, i.name);
    PartsKeyAppend([prefix], Parts(i.name));
  }

  predicate AllRelative(items: seq<Item>) {
    forall i | i in items :: Relative(i.name)
  }

  lemma PrefixedHaving(prefix: Text, items: seq<Item>, k: Key)
    requires IsPart(prefix) && SLASH !in prefix && AllRelative(items)
    ensures Having(PrefixedInventory(prefix, items), ItemKey, PartsKey([prefix]) + k)
         == PrefixedInventory(prefix, Having(items, ItemKey, k))
  {
    var f, p := (i: Item) => PrefixedItem(prefix, i), PartsKey([prefix]);
    forall i | i in items ensures ItemKey(f(i)) == p + k <==> ItemKey(i) == k {
      PrefixedKey(prefix, i);
      assert (p + k)[|p|..] == k && (p + ItemKey(i))[|p|..] == ItemKey(i);
    }
    MapHaving(f, items, ItemKey, ItemKey, k, p + k);
    assert Map(f, items) == PrefixedInventory(prefix, items);
    assert Map(f, Having(items, ItemKey, k)) == PrefixedInventory(prefix, Having(items, ItemKey, k));
  }

  lemma PrefixedHavingNone(prefix: Text, items: seq<Item>, k: Key)
    requires IsPart(prefix) && SLASH !in prefix && AllRelative(items) && !(PartsKey([prefix]) <= k)
    ensures Having(PrefixedInventory(prefix, items), ItemKey, k) == []
  {
    var r := PrefixedInventory(prefix, items);
    forall x | x in r ensures ItemKey(x) != k {
      var i :| 0 <= i < |r| && r[i] == x;
      PrefixedKey(prefix, items[i]);
    }
    HavingNone(r, ItemKey, k);
  }

  /** Prefixing keeps agreement under every key. */
  lemma PrefixedAgree(prefix: Text, a: seq<Item>, b: seq<Item>, k: Key)
    requires IsPart(prefix) && SLASH !in prefix && AllRelative(a) && AllRelative(b)
    requires forall q :: Having(a, ItemKey, q) == Having(b, ItemKey, q)
    ensures Having(PrefixedInventory(prefix, a), ItemKey, k) == Having(PrefixedInventory(prefix, b), ItemKey, k)
  {
    var p := PartsKey([prefix]);
    if p <= k { PrefixedAgreeUnder(prefix, a, b, p, k[|p|..], k); }
    else {
      PrefixedHavingNone(prefix, a, k);
      PrefixedHavingNone(prefix, b, k);
    }
  }

  lemma PrefixedAgreeUnder(prefix: Text, a: seq<Item>, b: seq<Item>, p: Key, rest: Key, k: Key)
    requires IsPart(prefix) && SLASH !in prefix && AllRelative(a) && AllRelative(b)
    requires Having(a, ItemKey, rest) == Having(b, ItemKey, rest) && p == PartsKey([prefix]) && k == p + rest
    ensures Having(PrefixedInventory(prefix, a), ItemKey, k) == Having(PrefixedInventory(prefix, b), ItemKey, k)
  {
    PrefixedHaving(prefix, a, rest);
    PrefixedHaving(prefix, b, rest);
  }

  lemma PrefixedItems(prefix: Text, entries: seq<Entry>, h: Host)
    requires Readable(entries, h)
    ensures Readable(PrefixedEntries(prefix, entries), h)
    ensures Items(PrefixedEntries(prefix, entries), h) == PrefixedInventory(prefix, Items(entries, h))
  {
    var p := PrefixedEntries(prefix, entries);
    forall i | 0 <= i < |p|
      ensures ItemOf(p[i], h).Some? && ItemFor(p[i], h) == PrefixedItem(prefix, ItemFor(entries[i], h))
    {
      assert entries[i] in entries;
    }
  }

  lemma ItemsAppend(a: seq<Entry>, b: seq<Entry>, h: Host)
    ensures Items(a + b, h) == Items(a, h) + Items(b, h)
  {}

  /** The items of a plan with a prefixed stretch. */
  lemma StretchItems(before: seq<Entry>, prefix: Text, inner: seq<Entry>, after: seq<Entry>, h: Host, all: seq<Entry>)
    requires Readable(before, h) && Readable(inner, h) && Readable(after, h)
    requires all == before + PrefixedEntries(prefix, inner) + after
    ensures Readable(all, h)
    ensures Items(all, h) == Items(before, h) + PrefixedInventory(prefix, Items(inner, h)) + Items(after, h)
  {
    var middle := PrefixedEntries(prefix, inner);
    PrefixedItems(prefix, inner, h);
    ItemsAppend(before, middle, h);
    ItemsAppend(before + middle, after, h);
  }

  /** Within a stretch, items in order may stand for the unordered ones. */
  lemma OrderedStretch(before: seq<Item>, prefix: Text, inner: seq<Item>, after: seq<Item>)
    requires IsPart(prefix) && SLASH !in prefix && AllRelative(inner)
    ensures OrderedInventory(before + PrefixedInventory(prefix, OrderedInventory(inner)) + after)
      == OrderedInventory(before + PrefixedInventory(prefix, inner) + after)
  {
    var ordered := OrderedInventory(inner);
    SortStable(inner, ItemKey);
    SortElements(inner, ItemKey);
    forall k ensures Having(PrefixedInventory(prefix, ordered), ItemKey, k) == Having(PrefixedInventory(prefix, inner), ItemKey, k) {
      PrefixedAgree(prefix, ordered, inner, k);
    }
    SortAbsorbs(before, PrefixedInventory(prefix, ordered), PrefixedInventory(prefix, inner), after, ItemKey);
  }

  /** Reusing a captured inventory under a prefix equals reading the prefixed entries afresh. */
  lemma CapturedEqualsFresh(before: seq<Entry>, prefix: Text, inner: seq<Entry>, after: seq<Entry>, h: Host)
    requires IsPart(prefix) && SLASH !in prefix && forall e | e in inner :: Relative(e.name)
    requires Readable(before, h) && Readable(inner, h) && Readable(after, h)
    ensures var all := before + PrefixedEntries(prefix, inner) + after;
      && Readable(all, h) && Inventory(inner, h).Some?
      && Inventory(all, h) == Some(OrderedInventory(
           Items(before, h) + PrefixedInventory(prefix, Inventory(inner, h).value) + Items(after, h)))
  {
    var all := before + PrefixedEntries(prefix, inner) + after;
    StretchItems(before, prefix, inner, after, h, all);
    InventoryIsOrderedItems(all, h);
    InventoryIsOrderedItems(inner, h);
    OrderedStretch(Items(before, h), prefix, Items(inner, h), Items(after, h));
  }
}
