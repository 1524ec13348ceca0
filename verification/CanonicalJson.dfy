/** Canonical JSON: compact, keys in code-point order, one trailing LF. */
module CanonicalJson {
  import opened Texts
  import opened Wrappers
  import opened Sorting
  import opened Json

  function FieldKey(f: Field): Key { f.name }

  /** The value as json.dumps(sort_keys=True) visits it. */
  function SortKeys(v: Value): Value {
    match v
    case Arr(items) => Arr(SortItems(items))
    case Obj(fields) => Obj(Sort(SortFields(fields), FieldKey))
    case _ => v
  }

  function SortItems(items: seq<Value>): (r: seq<Value>)
    ensures |r| == |items|
  {
    if items == [] then [] else [SortKeys(items[0])] + SortItems(items[1..])
  }

  function SortFields(fields: seq<Field>): (r: seq<Field>)
    ensures |r| == |fields|
    ensures forall i | 0 <= i < |r| :: r[i] == Field(fields[i].name, SortKeys(fields[i].value))
  {
    if fields == [] then []
    else [Field(fields[0].name, SortKeys(fields[0].value))] + SortFields(fields[1..])
  }

  function Canonical(v: Value): Text {
    PrintTo(SortKeys(v), true, [LF])
  }

  /** No string or name holds an adjacent surrogate pair. */
  predicate Unpaired(v: Value) {
    match v
    case Str(s) => !Paired(s)
    case Arr(items) => forall i | 0 <= i < |items| :: Unpaired(items[i])
    case Obj(fields) => forall i | 0 <= i < |fields| :: !Paired(fields[i].name) && Unpaired(fields[i].value)
    case _ => true
  }

  lemma {:induction false} MergedUnpaired(v: Value)
    requires Unpaired(v)
    ensures Merged(v) == v
    decreases v, 0
  {
    match v
    case Str(s) => MergeFixed(s);
    case Arr(items) => MergedItemsUnpaired(items);
    case Obj(fields) => MergedFieldsUnpaired(fields);
    case _ =>
  }

  lemma {:induction false} MergedItemsUnpaired(items: seq<Value>)
    requires forall i | 0 <= i < |items| :: Unpaired(items[i])
    ensures MergedItems(items) == items
    decreases items, 1
  {
    if items != [] {
      MergedUnpaired(items[0]);
      MergedItemsUnpaired(items[1..]);
    }
  }

  lemma {:induction false} MergedFieldsUnpaired(fields: seq<Field>)
    requires forall i | 0 <= i < |fields| :: !Paired(fields[i].name) && Unpaired(fields[i].value)
    ensures MergedFields(fields) == fields
    decreases fields, 1
  {
    if fields != [] {
      MergeFixed(fields[0].name);
      MergedUnpaired(fields[0].value);
      MergedFieldsUnpaired(fields[1..]);
    }
  }

  /** A value that dumps and loads carry over unchanged. */
  predicate Simple(v: Value, depth: nat)
    decreases v
  {
    match v
    case Float(_) => false
    case Int(n) => Exact(v)
    case Str(s) => !Paired(s)
    case Arr(items) => depth > 0 && forall i | 0 <= i < |items| :: Simple(items[i], depth - 1)
    case Obj(fields) => depth > 0 &&
      forall i | 0 <= i < |fields| :: !Paired(fields[i].name) && Simple(fields[i].value, depth - 1)
    case _ => true
  }

  lemma {:induction false} SimpleMeans(v: Value, depth: nat)
    requires Simple(v, depth)
    ensures Exact(v) && Within(v, depth) && Unpaired(v)
    decreases v
  {
    match v
    case Arr(items) => forall i | 0 <= i < |items| { SimpleMeans(items[i], depth - 1); }
    case Obj(fields) => forall i | 0 <= i < |fields| { SimpleMeans(fields[i].value, depth - 1); }
    case _ =>
  }

  predicate SimpleField(f: Field, depth: nat) {
    !Paired(f.name) && Simple(f.value, depth)
  }

  lemma {:induction false} SortKeysSimple(v: Value, depth: nat)
    requires Simple(v, depth)
    ensures Simple(SortKeys(v), depth)
    decreases v, 0
  {
    match v
    case Arr(items) => SortItemsSimple(items, depth - 1);
    case Obj(fields) =>
      SortFieldsSimple(fields, depth - 1);
      SortSimple(SortFields(fields), depth - 1);
    case _ =>
  }

  lemma SortSimple(fields: seq<Field>, depth: nat)
    requires forall i | 0 <= i < |fields| :: SimpleField(fields[i], depth)
    ensures Simple(Obj(Sort(fields, FieldKey)), depth + 1)
  {
    var r := Sort(fields, FieldKey);
    forall i | 0 <= i < |r| ensures SimpleField(r[i], depth) {
      assert r[i] in multiset(fields);
    }
  }

  lemma {:induction false} SortItemsSimple(items: seq<Value>, depth: nat)
    requires forall i | 0 <= i < |items| :: Simple(items[i], depth)
    ensures forall i | 0 <= i < |items| :: Simple(SortItems(items)[i], depth)
    decreases items, 1
  {
    if items != [] {
      SortKeysSimple(items[0], depth);
      SortItemsSimple(items[1..], depth);
    }
  }

  lemma {:induction false} SortFieldsSimple(fields: seq<Field>, depth: nat)
    requires forall i | 0 <= i < |fields| :: SimpleField(fields[i], depth)
    ensures forall i | 0 <= i < |fields| :: SimpleField(SortFields(fields)[i], depth)
    decreases fields, 1
  {
    if fields != [] {
      SortKeysSimple(fields[0].value, depth);
      SortFieldsSimple(fields[1..], depth);
    }
  }

  /** Sorting keys twice changes nothing more. */
  lemma {:induction false} SortKeysIdempotent(v: Value)
    ensures SortKeys(SortKeys(v)) == SortKeys(v)
    decreases v, 0
  {
    match v
    case Arr(items) => SortItemsIdempotent(items);
    case Obj(fields) =>
      SortFieldsIdempotent(fields);
      SortedFieldsFixed(SortFields(fields));
    case _ =>
  }

  lemma SortedFieldsFixed(fields: seq<Field>)
    requires SortFields(fields) == fields
    ensures var r := Sort(fields, FieldKey); SortFields(r) == r && Sort(r, FieldKey) == r
  {
    var r := Sort(fields, FieldKey);
    forall i | 0 <= i < |r| ensures SortFields(r)[i] == r[i] {
      assert r[i] in multiset(fields);
      var j :| 0 <= j < |fields| && fields[j] == r[i];
      assert SortFields(fields)[j] == fields[j];
    }
    SortStable(fields, FieldKey);
    SortFixed(r, FieldKey);
  }

  lemma {:induction false} SortItemsIdempotent(items: seq<Value>)
    ensures SortItems(SortItems(items)) == SortItems(items)
    decreases items, 1
  {
    if items != [] {
      SortKeysIdempotent(items[0]);
      SortItemsIdempotent(items[1..]);
      assert SortItems(items)[1..] == SortItems(items[1..]);
    }
  }

  lemma {:induction false} SortFieldsIdempotent(fields: seq<Field>)
    ensures SortFields(SortFields(fields)) == SortFields(fields)
    decreases fields, 1
  {
    if fields != [] {
      SortKeysIdempotent(fields[0].value);
      SortFieldsIdempotent(fields[1..]);
      assert SortFields(fields)[1..] == SortFields(fields[1..]);
    }
  }

  /** json.loads(canonical(v)) is v with its keys in order. */
  lemma LoadsCanonical(v: Value, depth: nat)
    requires Simple(v, depth)
    ensures Loads(Canonical(v), depth) == Some(SortKeys(v))
  {
    SortKeysSimple(v, depth);
    SimpleMeans(SortKeys(v), depth);
    LoadsDumps(SortKeys(v), true, [LF], depth);
    MergedUnpaired(SortKeys(v));
  }

  lemma CanonicalAscii(v: Value, depth: nat)
    requires Simple(v, depth)
    ensures forall c | c in Canonical(v) :: 32 <= c <= 126 || c == LF
  {
    SortKeysSimple(v, depth);
    SimpleMeans(SortKeys(v), depth);
    PrintPrintable(SortKeys(v), true, [LF]);
  }

  // ----- objects read through `_unique` -----

  predicate DistinctNames(fields: seq<Field>) {
    forall i, j | 0 <= i < j < |fields| :: fields[i].name != fields[j].name
  }

  /** No object inside v repeats a key: `_unique` raises on none of them. */
  predicate UniqueKeys(v: Value) {
    match v
    case Arr(items) => forall i | 0 <= i < |items| :: UniqueKeys(items[i])
    case Obj(fields) => DistinctNames(fields) && forall i | 0 <= i < |fields| :: UniqueKeys(fields[i].value)
    case _ => true
  }

  function Names(fields: seq<Field>): set<Text> {
    set f | f in fields :: f.name
  }

  /** `_unique`: the dict of the pairs, refused at the first repeated key. */
  method Unique(pairs: seq<Field>) returns (r: Option<map<Text, Value>>)
    ensures r.Some? <==> DistinctNames(pairs)
    ensures r.Some? ==> r.value.Keys == Names(pairs) && forall f | f in pairs :: r.value[f.name] == f.value
  {
    var result: map<Text, Value> := map[];
    for i := 0 to |pairs|
      invariant DistinctNames(pairs[..i])
      invariant result.Keys == Names(pairs[..i])
      invariant forall f | f in pairs[..i] :: result[f.name] == f.value
    {
      var f := pairs[i];
      assert pairs[..i + 1] == pairs[..i] + [f];
      if f.name in result {
        var g :| g in pairs[..i] && g.name == f.name;
        var j :| 0 <= j < i && pairs[..i][j] == g;
        assert pairs[j].name == pairs[i].name;
        return None;
      }
      assert forall j | 0 <= j < i :: pairs[j] in pairs[..i];
      result := result[f.name := f.value];
    }
    assert pairs[..|pairs|] == pairs;
    return Some(result);
  }

  /** The value a dict built from the pairs holds under a name. */
  function Lookup(fields: seq<Field>, name: Text): (r: Option<Value>)
    ensures r.Some? ==> Field(name, r.value) in fields
    ensures r.None? ==> name !in Names(fields)
  {
    if fields == [] then None
    else if fields[|fields| - 1].name == name then Some(fields[|fields| - 1].value)
    else
      var r := Lookup(fields[..|fields| - 1], name);
      assert forall f | f in fields :: f == fields[|fields| - 1] || f in fields[..|fields| - 1];
      r
  }

  lemma LookupDistinct(fields: seq<Field>, f: Field)
    requires DistinctNames(fields) && f in fields
    ensures Lookup(fields, f.name) == Some(f.value)
  {
    assert f.name in Names(fields);
    var r := Lookup(fields, f.name);
    var i :| 0 <= i < |fields| && fields[i] == f;
    var j :| 0 <= j < |fields| && fields[j] == Field(f.name, r.value);
    assert i == j;
  }

  /** Sorting an object's keys keeps its names, and what each one maps to. */
  lemma SortedObject(fields: seq<Field>)
    requires DistinctNames(fields)
    ensures var r := SortKeys(Obj(fields)).fields;
      DistinctNames(r) && Names(r) == Names(fields)
      && forall f | f in fields :: Field(f.name, SortKeys(f.value)) in r
  {
    var once := SortFields(fields);
    var r := Sort(once, FieldKey);
    assert multiset(r) == multiset(once);
    DistinctPermutation(once, r);
    forall f | f in fields ensures Field(f.name, SortKeys(f.value)) in r {
      var i :| 0 <= i < |fields| && fields[i] == f;
      assert once[i] in multiset(once);
    }
    forall f | f in r ensures f.name in Names(fields) {
      assert f in multiset(once);
      var i :| 0 <= i < |once| && once[i] == f;
      assert fields[i] in fields;
    }
  }

  lemma {:induction false} DistinctPermutation(a: seq<Field>, b: seq<Field>)
    requires DistinctNames(a) && multiset(a) == multiset(b)
    ensures DistinctNames(b)
  {
    forall i, j | 0 <= i < j < |b| ensures b[i].name != b[j].name {
      if b[i].name == b[j].name {
        assert b[i] in multiset(a) && b[j] in multiset(a);
        var x :| 0 <= x < |a| && a[x] == b[i];
        var y :| 0 <= y < |a| && a[y] == b[j];
        assert x == y;
        TwiceIn(b, i, j);
        OnceIn(a, a[x]);
      }
    }
  }

  /** Sorting keys introduces no repeated key anywhere. */
  lemma {:induction false} SortKeysUnique(v: Value)
    requires UniqueKeys(v)
    ensures UniqueKeys(SortKeys(v))
    decreases v, 0
  {
    match v
    case Arr(items) => SortItemsUnique(items);
    case Obj(fields) =>
      SortFieldsUnique(fields);
      SortedObject(fields);
      var once := SortFields(fields);
      var r := Sort(once, FieldKey);
      forall i | 0 <= i < |r| ensures UniqueKeys(r[i].value) {
        assert r[i] in multiset(once);
      }
    case _ =>
  }

  lemma {:induction false} SortItemsUnique(items: seq<Value>)
    requires forall i | 0 <= i < |items| :: UniqueKeys(items[i])
    ensures forall i | 0 <= i < |items| :: UniqueKeys(SortItems(items)[i])
    decreases items, 1
  {
    if items != [] {
      SortKeysUnique(items[0]);
      SortItemsUnique(items[1..]);
    }
  }

  lemma {:induction false} SortFieldsUnique(fields: seq<Field>)
    requires forall i | 0 <= i < |fields| :: UniqueKeys(fields[i].value)
    ensures forall i | 0 <= i < |fields| :: UniqueKeys(SortFields(fields)[i].value)
    decreases fields, 1
  {
    if fields != [] {
      SortKeysUnique(fields[0].value);
      SortFieldsUnique(fields[1..]);
    }
  }

  // ----- how long canonical text is -----

  predicate PlainText(t: Text) {
    forall c | c in t :: Plain(c)
  }

  /** Only plain characters in strings, and integers of one digit. */
  predicate PlainValue(v: Value) {
    match v
    case Int(n) => 0 <= n < 10
    case Str(s) => PlainText(s)
    case Obj(fields) => forall i | 0 <= i < |fields| :: PlainText(fields[i].name) && PlainValue(fields[i].value)
    case _ => false
  }

  function Size(v: Value): nat
    requires PlainValue(v)
  {
    match v
    case Int(n) => 1
    case Str(s) => |s| + 2
    case Obj(fields) => if fields == [] then 2 else 1 + FieldsSize(fields)
  }

  function FieldsSize(fields: seq<Field>): nat
    requires forall i | 0 <= i < |fields| :: PlainText(fields[i].name) && PlainValue(fields[i].value)
  {
    if fields == [] then 0
    else |fields[0].name| + 4 + Size(fields[0].value) + FieldsSize(fields[1..])
  }

  lemma {:induction false} EscapedSize(s: Text, tail: Text)
    requires PlainText(s)
    ensures |EscapedTo(s, tail)| == |s| + |tail|
  {
    if s != [] {
      assert s[0] in s;
      assert forall c | c in s[1..] :: c in s;
      EscapedSize(s[1..], tail);
    }
  }

  lemma {:induction false} PrintSize(v: Value, tail: Text)
    requires PlainValue(v)
    ensures |PrintTo(v, true, tail)| == Size(v) + |tail|
    decreases v, 0
  {
    match v
    case Int(n) =>
    case Str(s) => EscapedSize(s, [QUOTE] + tail);
    case Obj(fields) => if fields != [] { FieldsToSize(fields, tail); }
  }

  lemma {:induction false} FieldsToSize(fields: seq<Field>, tail: Text)
    requires fields != []
    requires forall i | 0 <= i < |fields| :: PlainText(fields[i].name) && PlainValue(fields[i].value)
    ensures |FieldsTo(fields, true, tail)| == FieldsSize(fields) + |tail|
    decreases fields, 1
  {
    var f, last := fields[0], FieldsRest(fields, true, tail);
    if |fields| > 1 { FieldsToSize(fields[1..], tail); }
    assert FieldsSize(fields) == |f.name| + 4 + Size(f.value) + FieldsSize(fields[1..]);
    PrintSize(f.value, last);
    EscapedSize(f.name, [QUOTE] + ([COLON] + (Gap(true) + PrintTo(f.value, true, last))));
  }

  lemma {:induction false} InsertSize(f: Field, fields: seq<Field>)
    requires forall g | g == f || g in fields :: PlainText(g.name) && PlainValue(g.value)
    ensures forall g | g in Insert(f, fields, FieldKey) :: g == f || g in fields
    ensures FieldsSize(Insert(f, fields, FieldKey)) == |f.name| + 4 + Size(f.value) + FieldsSize(fields)
  {
    var r := Insert(f, fields, FieldKey);
    forall g | g in r ensures g == f || g in fields { assert g in multiset(r); }
    if fields != [] && Less(FieldKey(fields[0]), FieldKey(f)) {
      assert forall g | g in fields[1..] :: g in fields;
      InsertSize(f, fields[1..]);
      assert r[1..] == Insert(f, fields[1..], FieldKey);
    } else {
      assert r == [f] + fields && r[1..] == fields;
    }
  }

  lemma {:induction false} SortSize(fields: seq<Field>)
    requires forall g | g in fields :: PlainText(g.name) && PlainValue(g.value)
    ensures forall g | g in Sort(fields, FieldKey) :: g in fields
    ensures FieldsSize(Sort(fields, FieldKey)) == FieldsSize(fields)
  {
    var r := Sort(fields, FieldKey);
    forall g | g in r ensures g in fields { assert g in multiset(r); }
    if fields != [] {
      assert forall g | g in fields[1..] :: g in fields;
      SortSize(fields[1..]);
      InsertSize(fields[0], Sort(fields[1..], FieldKey));
    }
  }

  /** Sorting keys does not change how long the text is. */
  lemma {:induction false} CanonicalSize(v: Value)
    requires PlainValue(v)
    ensures PlainValue(SortKeys(v)) && Size(SortKeys(v)) == Size(v)
    ensures |Canonical(v)| == Size(v) + 1
    decreases v, 0
  {
    match v {
      case Obj(fields) =>
        SortFieldsSize(fields);
        var once := SortFields(fields);
        assert forall g | g in once :: PlainText(g.name) && PlainValue(g.value);
        SortSize(once);
        assert once == [] <==> fields == [];
        var r := Sort(once, FieldKey);
        assert forall i | 0 <= i < |r| :: r[i] in r;
      case _ =>
    }
    PrintSize(SortKeys(v), [LF]);
  }

  lemma {:induction false} SortFieldsSize(fields: seq<Field>)
    requires forall i | 0 <= i < |fields| :: PlainText(fields[i].name) && PlainValue(fields[i].value)
    ensures forall i | 0 <= i < |fields| ::
      PlainText(SortFields(fields)[i].name) && PlainValue(SortFields(fields)[i].value)
    ensures FieldsSize(SortFields(fields)) == FieldsSize(fields)
    decreases fields, 1
  {
    if fields != [] {
      CanonicalSize(fields[0].value);
      SortFieldsSize(fields[1..]);
      assert SortFields(fields)[1..] == SortFields(fields[1..]);
    }
  }
}
