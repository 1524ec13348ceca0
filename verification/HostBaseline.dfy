/** The host baseline inventory and its comparison (scripts/m8_host_baseline_contract.py). */
module HostBaseline {
  import opened Texts
  import opened Wrappers
  import opened Lines

  datatype Key =
    | Kernel | BwrapDigest | BwrapVersion | BwrapHeld | AppArmorEnabled
    | UsernsRestrict | AppArmorAbi | OsRelease | Architecture

  function Keys(): seq<Key> {
    [Kernel, BwrapDigest, BwrapVersion, BwrapHeld, AppArmorEnabled, UsernsRestrict, AppArmorAbi, OsRelease, Architecture]
  }

  type Naming = Key -> Text

  /** The names of the nine facts. */
  function Name(k: Key): Text {
    match k
    case Kernel => Lit("kernel")
    case BwrapDigest => Lit("bwrap_digest")
    case BwrapVersion => Lit("bwrap_version")
    case BwrapHeld => Lit("bwrap_held")
    case AppArmorEnabled => Lit("apparmor_enabled")
    case UsernsRestrict => Lit("userns_restrict")
    case AppArmorAbi => Lit("apparmor_abi")
    case OsRelease => Lit("os_release")
    case Architecture => Lit("architecture")
  }

  const MAX_BASELINE_BYTES := 2048
  const MAX_QUERY_BYTES := 129

  datatype Refusal = InvalidBaseline | IncompleteObservation

  datatype HostFacts = HostFacts(
    kernel: Text, bwrapDigest: Text, bwrapVersion: Text, bwrapHeld: bool, apparmorEnabled: bool,
    usernsRestrict: bool, apparmorAbi: Text, osRelease: Text, architecture: Text)

  datatype Field = Token(text: Text) | Flag(on: bool)

  function FieldOf(f: HostFacts, k: Key): Field {
    match k
    case Kernel => Token(f.kernel)
    case BwrapDigest => Token(f.bwrapDigest)
    case BwrapVersion => Token(f.bwrapVersion)
    case BwrapHeld => Flag(f.bwrapHeld)
    case AppArmorEnabled => Flag(f.apparmorEnabled)
    case UsernsRestrict => Flag(f.usernsRestrict)
    case AppArmorAbi => Token(f.apparmorAbi)
    case OsRelease => Token(f.osRelease)
    case Architecture => Token(f.architecture)
  }

  // ----- scalars -----

  predicate IsLower(c: Code) { 97 <= c <= 122 }
  predicate IsUpper(c: Code) { 65 <= c <= 90 }
  predicate IsAlnum(c: Code) { IsDigit(c) || IsLower(c) || IsUpper(c) }
  predicate IsVersionMark(c: Code) { c in [46, 43, 58, 126, 95, 45] }  // . + : ~ _ -

  /** [a-z0-9][a-z0-9-]{0,31} */
  predicate IsMachine(t: Text) {
    && 1 <= |t| <= 32 && (IsLower(t[0]) || IsDigit(t[0]))
    && forall i | 0 <= i < |t| :: IsLower(t[i]) || IsDigit(t[i]) || t[i] == 45
  }

  /** [A-Za-z0-9][A-Za-z0-9.+:~_-]{0,127} */
  predicate IsVersion(t: Text) {
    1 <= |t| <= 128 && IsAlnum(t[0]) && forall i | 0 <= i < |t| :: IsAlnum(t[i]) || IsVersionMark(t[i])
  }

  const ZERO: Text := [48]
  const ONE: Text := [49]
  const YES: Text := [89]
  const NO: Text := [78]

  predicate ValidScalar(k: Key, t: Text) {
    match k
    case BwrapDigest => IsDigest(t)
    case AppArmorAbi => IsDigest(t)
    case BwrapHeld => t == ZERO || t == ONE
    case UsernsRestrict => t == ZERO || t == ONE
    case AppArmorEnabled => t == YES || t == NO
    case Architecture => IsMachine(t)
    case _ => IsVersion(t)
  }

  /** How a fact is written: words as they are, flags as 0/1 or N/Y. */
  function Value(f: HostFacts, k: Key): Text {
    match FieldOf(f, k)
    case Token(t) => t
    case Flag(on) => if k == AppArmorEnabled then (if on then YES else NO) else (if on then ONE else ZERO)
  }

  /** Facts that can exist: the constructor checks every word. */
  predicate ValidFacts(f: HostFacts) {
    forall k :: ValidScalar(k, Value(f, k))
  }

  lemma ScalarIsPlain(k: Key, t: Text)
    requires ValidScalar(k, t)
    ensures 1 <= |t| <= 128 && IsAscii(t) && LF !in t && TAB !in t
  {}

  lemma SameValue(f: HostFacts, g: HostFacts, k: Key)
    ensures Value(f, k) == Value(g, k) <==> FieldOf(f, k) == FieldOf(g, k)
  {}

  /** Facts are their nine values. */
  lemma FactsFromValues(f: HostFacts, g: HostFacts)
    requires forall k :: Value(f, k) == Value(g, k)
    ensures f == g
  {
    assert Value(f, Kernel) == Value(g, Kernel) && Value(f, BwrapDigest) == Value(g, BwrapDigest);
    assert Value(f, BwrapVersion) == Value(g, BwrapVersion) && Value(f, BwrapHeld) == Value(g, BwrapHeld);
    assert Value(f, AppArmorEnabled) == Value(g, AppArmorEnabled) && Value(f, UsernsRestrict) == Value(g, UsernsRestrict);
    assert Value(f, AppArmorAbi) == Value(g, AppArmorAbi) && Value(f, OsRelease) == Value(g, OsRelease);
    assert Value(f, Architecture) == Value(g, Architecture);
  }

  // ----- names -----

  lemma PlainLit(s: string)
    requires 6 <= |s| <= 16 && forall i | 0 <= i < |s| :: 'a' <= s[i] <= 'z' || s[i] == '_'
    ensures 6 <= |Lit(s)| <= 16 && IsAscii(Lit(s)) && LF !in Lit(s) && TAB !in Lit(s)
  {}

  lemma NameShape(k: Key)
    ensures 6 <= |Name(k)| <= 16 && IsAscii(Name(k)) && LF !in Name(k) && TAB !in Name(k)
  {
    match k
    case Kernel => PlainLit("kernel");
    case BwrapDigest => PlainLit("bwrap_digest");
    case BwrapVersion => PlainLit("bwrap_version");
    case BwrapHeld => PlainLit("bwrap_held");
    case AppArmorEnabled => PlainLit("apparmor_enabled");
    case UsernsRestrict => PlainLit("userns_restrict");
    case AppArmorAbi => PlainLit("apparmor_abi");
    case OsRelease => PlainLit("os_release");
    case Architecture => PlainLit("architecture");
  }

  lemma NameInjective(a: Key, b: Key)
    requires Name(a) == Name(b)
    ensures a == b
  {
    assert |Name(a)| == |Name(b)|;
    assert Name(a)[0] == Name(b)[0] && Name(a)[1] == Name(b)[1];
  }

  lemma KeysComplete(k: Key)
    ensures k in Keys()
  {
    assert Keys()[0] == Kernel && Keys()[1] == BwrapDigest && Keys()[2] == BwrapVersion && Keys()[3] == BwrapHeld
        && Keys()[4] == AppArmorEnabled && Keys()[5] == UsernsRestrict && Keys()[6] == AppArmorAbi
        && Keys()[7] == OsRelease && Keys()[8] == Architecture;
  }

  /** All the decoders need of the names: they are distinct, short, and free of TSV syntax. */
  ghost predicate NamesOk(name: Naming) {
    && (forall a, b | name(a) == name(b) :: a == b)
    && forall k :: |name(k)| <= 16 && IsAscii(name(k)) && LF !in name(k) && TAB !in name(k)
  }

  lemma NamesAreOk()
    ensures NamesOk(Name)
  {
    forall a, b | Name(a) == Name(b) ensures a == b { NameInjective(a, b); }
    forall k ensures |Name(k)| <= 16 && IsAscii(Name(k)) && LF !in Name(k) && TAB !in Name(k) { NameShape(k); }
  }

  // ----- _facts -----

  /** set(values) == set(KEYS) */
  predicate HasAllKeys(name: Naming, values: map<Text, Text>) {
    (forall k :: name(k) in values) && forall n | n in values :: exists k :: n == name(k)
  }

  function FactsOf(name: Naming, values: map<Text, Text>): HostFacts
    requires HasAllKeys(name, values)
  {
    HostFacts(values[name(Kernel)], values[name(BwrapDigest)], values[name(BwrapVersion)], values[name(BwrapHeld)] == ONE,
              values[name(AppArmorEnabled)] == YES, values[name(UsernsRestrict)] == ONE, values[name(AppArmorAbi)],
              values[name(OsRelease)], values[name(Architecture)])
  }

  /** _facts: the inventory whose nine values these are, if they are valid. */
  function Facts(name: Naming, values: map<Text, Text>, reason: Refusal): (r: Result<HostFacts, Refusal>)
    ensures r.Ok? <==> HasAllKeys(name, values) && forall k :: ValidScalar(k, values[name(k)])
    ensures r.Ok? ==> ValidFacts(r.value) && forall k :: values[name(k)] == Value(r.value, k)
    ensures r.Err? ==> r.error == reason
  {
    if !HasAllKeys(name, values) then Err(reason)
    else if exists k :: !ValidScalar(k, values[name(k)]) then Err(reason)
    else
      assert forall k :: values[name(k)] == Value(FactsOf(name, values), k) by {
        forall k ensures values[name(k)] == Value(FactsOf(name, values), k) {
          assert ValidScalar(k, values[name(k)]);
        }
      }
      Ok(FactsOf(name, values))
  }

  /** The values of valid facts give the facts back. */
  lemma FactsOfValues(name: Naming, values: map<Text, Text>, f: HostFacts, reason: Refusal)
    requires HasAllKeys(name, values) && ValidFacts(f) && forall k :: values[name(k)] == Value(f, k)
    ensures Facts(name, values, reason) == Ok(f)
  {
    forall k ensures ValidScalar(k, values[name(k)]) { assert ValidScalar(k, Value(f, k)); }
    FactsFromValues(f, Facts(name, values, reason).value);
  }

  // ----- decode_baseline -----

  function Row(name: Naming, f: HostFacts, k: Key): Text { name(k) + [TAB] + Value(f, k) }

  /** The rows of the keys in some order, each closed by LF. */
  function Encode(name: Naming, f: HostFacts, order: seq<Key>): Text { Unlines(RowsOf(name, f, order)) }

  function RowsOf(name: Naming, f: HostFacts, order: seq<Key>): (r: seq<Text>)
    ensures |r| == |order| && forall i | 0 <= i < |r| :: r[i] == Row(name, f, order[i])
  {
    seq(|order|, i requires 0 <= i < |order| => Row(name, f, order[i]))
  }

  /** Every key once. */
  ghost predicate IsOrder(order: seq<Key>) {
    (forall k :: k in order) && forall i, j | 0 <= i < j < |order| :: order[i] != order[j]
  }

  /** The rows read one after another; None at a row that is not a pair or repeats a key. */
  function Collect(rows: seq<Text>, values: map<Text, Text>): Option<map<Text, Text>> {
    if rows == [] then Some(values)
    else
      var parts := Split(rows[0], TAB);
      if |parts| != 2 || parts[0] in values then None
      else Collect(rows[1..], values[parts[0] := parts[1]])
  }

  /** What decode_baseline computes. */
  function BaselineOf(name: Naming, blob: Text): (r: Result<HostFacts, Refusal>)
    ensures r.Err? ==> r.error == InvalidBaseline
  {
    if blob == [] || |blob| > MAX_BASELINE_BYTES || !IsAscii(blob) then Err(InvalidBaseline)
    else
      var rows := Split(blob, LF);
      if rows[|rows| - 1] != [] then Err(InvalidBaseline)
      else
        match Collect(rows[..|rows| - 1], map[])
        case None => Err(InvalidBaseline)
        case Some(values) => Facts(name, values, InvalidBaseline)
  }

  method DecodeBaseline(name: Naming, blob: Text) returns (r: Result<HostFacts, Refusal>)
    ensures r == BaselineOf(name, blob)
  {
    if blob == [] || |blob| > MAX_BASELINE_BYTES || !IsAscii(blob) {
      return Err(InvalidBaseline);
    }
    var rows := Split(blob, LF);
    if rows[|rows| - 1] != [] {
      return Err(InvalidBaseline);
    }
    var values: map<Text, Text> := map[];
    var body := rows[..|rows| - 1];
    for i := 0 to |body|
      invariant Collect(body, map[]) == Collect(body[i..], values)
    {
      var parts := Split(body[i], TAB);
      assert body[i..][0] == body[i] && body[i..][1..] == body[i + 1..];
      if |parts| != 2 || parts[0] in values {
        return Err(InvalidBaseline);
      }
      values := values[parts[0] := parts[1]];
    }
    assert body[|body|..] == [];
    r := Facts(name, values, InvalidBaseline);
  }

  lemma RowShape(name: Naming, f: HostFacts, k: Key)
    requires NamesOk(name) && ValidFacts(f)
    ensures Split(Row(name, f, k), TAB) == [name(k), Value(f, k)] && LF !in Row(name, f, k)
    ensures IsAscii(Row(name, f, k)) && |Row(name, f, k)| <= 145
  {
    ScalarIsPlain(k, Value(f, k));
    SplitOfClean(name(k), TAB);
    SplitOfClean(Value(f, k), TAB);
    SplitAppend(name(k), Value(f, k), TAB);
  }

  /** Lines closed by LF split into the lines and a last empty piece, and only they do. */
  lemma {:induction false} SplitClosed(rows: seq<Text>)
    requires forall i | 0 <= i < |rows| :: LF !in rows[i]
    ensures Split(Unlines(rows), LF) == rows + [[]]
  {
    if rows == [] {
      assert Split([], LF) == [[]];
    } else {
      SplitClosed(rows[1..]);
      SplitOfClean(rows[0], LF);
      SplitAppend(rows[0], Unlines(rows[1..]), LF);
      ConcatAssociative([rows[0]], rows[1..], [[]]);
      assert rows == [rows[0]] + rows[1..];
    }
  }

  lemma {:induction false} JoinClosed(rows: seq<Text>)
    ensures Join(rows + [[]], LF) == Unlines(rows)
  {
    if rows != [] {
      var all := rows + [[]];
      assert all[1..] == rows[1..] + [[]];
      JoinClosed(rows[1..]);
    }
  }

  lemma {:induction false} ClosedSize(rows: seq<Text>)
    requires forall i | 0 <= i < |rows| :: IsAscii(rows[i]) && |rows[i]| <= 145
    ensures IsAscii(Unlines(rows)) && |Unlines(rows)| <= 146 * |rows| && (rows != [] ==> Unlines(rows) != [])
  {
    if rows != [] { ClosedSize(rows[1..]); }
  }

  lemma CollectFirst(name: Naming, f: HostFacts, order: seq<Key>, values: map<Text, Text>)
    requires NamesOk(name) && ValidFacts(f) && order != [] && name(order[0]) !in values
    ensures Collect(RowsOf(name, f, order), values)
      == Collect(RowsOf(name, f, order[1..]), values[name(order[0]) := Value(f, order[0])])
  {
    RowShape(name, f, order[0]);
    assert RowsOf(name, f, order)[1..] == RowsOf(name, f, order[1..]);
  }

  /** c is `values` with each of these keys and its value. */
  ghost predicate Gathers(name: Naming, f: HostFacts, order: seq<Key>, values: map<Text, Text>, c: map<Text, Text>) {
    && (forall n :: n in c <==> n in values || exists k | k in order :: name(k) == n)
    && (forall n | n in values :: c[n] == values[n])
    && (forall k | k in order :: c[name(k)] == Value(f, k))
  }

  lemma GathersFirst(name: Naming, f: HostFacts, order: seq<Key>, values: map<Text, Text>, c: map<Text, Text>)
    requires order != [] && name(order[0]) !in values
    requires Gathers(name, f, order[1..], values[name(order[0]) := Value(f, order[0])], c)
    ensures Gathers(name, f, order, values, c)
  {
    assert order == [order[0]] + order[1..];
  }

  /** Collecting the rows of distinct keys adds each key with its value. */
  lemma {:induction false} CollectRows(name: Naming, f: HostFacts, order: seq<Key>, values: map<Text, Text>)
    requires NamesOk(name) && ValidFacts(f) && (forall i, j | 0 <= i < j < |order| :: order[i] != order[j])
    requires forall k | k in order :: name(k) !in values
    ensures var c := Collect(RowsOf(name, f, order), values); c.Some? && Gathers(name, f, order, values, c.value)
  {
    if order != [] {
      var k, rest := order[0], order[1..];
      var more := values[name(k) := Value(f, k)];
      CollectFirst(name, f, order, values);
      forall l | l in rest ensures name(l) !in more {
        assert l in order && l != k;
      }
      CollectRows(name, f, rest, more);
      GathersFirst(name, f, order, values, Collect(RowsOf(name, f, rest), more).value);
    }
  }

  lemma OrderLength(order: seq<Key>)
    requires IsOrder(order)
    ensures |order| == 9
  {
    DistinctSize(order);
    AllKeys(set k | k in order);
  }

  lemma AllKeys(keys: set<Key>)
    requires forall k :: k in keys
    ensures |keys| == 9
  {
    var all := {Kernel, BwrapDigest, BwrapVersion, BwrapHeld, AppArmorEnabled, UsernsRestrict, AppArmorAbi, OsRelease, Architecture};
    forall k ensures k in all {
      assert k == Kernel || k == BwrapDigest || k == BwrapVersion || k == BwrapHeld || k == AppArmorEnabled
             || k == UsernsRestrict || k == AppArmorAbi || k == OsRelease || k == Architecture;
    }
    assert keys == all;
  }

  lemma {:induction false} DistinctSize(order: seq<Key>)
    requires forall i, j | 0 <= i < j < |order| :: order[i] != order[j]
    ensures |set k | k in order| == |order|
  {
    if order != [] {
      DistinctSize(order[1..]);
      assert order[0] !in order[1..];
      assert (set k | k in order) == (set k | k in order[1..]) + {order[0]};
    }
  }

  lemma EncodedText(name: Naming, f: HostFacts, order: seq<Key>)
    requires NamesOk(name) && ValidFacts(f) && IsOrder(order)
    ensures var blob := Encode(name, f, order);
      blob != [] && |blob| <= 1314 && IsAscii(blob) && Split(blob, LF) == RowsOf(name, f, order) + [[]]
  {
    var rows := RowsOf(name, f, order);
    OrderLength(order);
    forall i | 0 <= i < |rows| ensures LF !in rows[i] && IsAscii(rows[i]) && |rows[i]| <= 145 { RowShape(name, f, order[i]); }
    SplitClosed(rows);
    ClosedSize(rows);
  }

  lemma EncodedValues(name: Naming, f: HostFacts, order: seq<Key>) returns (values: map<Text, Text>)
    requires NamesOk(name) && ValidFacts(f) && IsOrder(order)
    ensures Collect(RowsOf(name, f, order), map[]) == Some(values) && HasAllKeys(name, values)
    ensures forall k :: values[name(k)] == Value(f, k)
  {
    CollectRows(name, f, order, map[]);
    values := Collect(RowsOf(name, f, order), map[]).value;
    forall k ensures name(k) in values && values[name(k)] == Value(f, k) { assert k in order; }
  }

  /** Any row order of valid facts is accepted, within the size limit, and gives the facts back. */
  lemma EncodedIsAccepted(name: Naming, f: HostFacts, order: seq<Key>)
    requires NamesOk(name) && ValidFacts(f) && IsOrder(order)
    ensures BaselineOf(name, Encode(name, f, order)) == Ok(f) && |Encode(name, f, order)| <= 1314
  {
    EncodedText(name, f, order);
    var values := EncodedValues(name, f, order);
    FactsOfValues(name, values, f, InvalidBaseline);
    var rows := RowsOf(name, f, order);
    assert (rows + [[]])[..|rows|] == rows;
  }

  // ----- only encodings are accepted -----

  /** Collected rows are pairs of distinct new names. */
  lemma {:induction false} CollectedRows(rows: seq<Text>, values: map<Text, Text>)
    requires Collect(rows, values).Some?
    ensures var c := Collect(rows, values).value;
      && (forall n | n in values :: n in c && c[n] == values[n])
      && (forall n | n in c :: n in values || exists i | 0 <= i < |rows| :: Split(rows[i], TAB)[0] == n)
      && (forall i | 0 <= i < |rows| :: Collected(rows[i], values, c))
      && (forall i, j | 0 <= i < j < |rows| :: Split(rows[i], TAB)[0] != Split(rows[j], TAB)[0])
    decreases rows
  {
    if rows != [] {
      var parts, rest := Split(rows[0], TAB), rows[1..];
      var more := values[parts[0] := parts[1]];
      CollectedRows(rest, more);
      var c := Collect(rows, values).value;
      JoinSplit(rows[0], TAB);
      assert rows[0] == parts[0] + [TAB] + Join(parts[1..], TAB) && parts[1..] == [parts[1]];
      assert Collected(rows[0], values, c);
      forall i | 0 <= i < |rows| ensures Collected(rows[i], values, c) {
        if i > 0 { assert Collected(rest[i - 1], more, c); }
      }
      forall i, j | 0 <= i < j < |rows| ensures Split(rows[i], TAB)[0] != Split(rows[j], TAB)[0] {
        if i == 0 { assert Collected(rest[j - 1], more, c); }
      }
    }
  }

  /** One row, read as a name new to `before` and its value. */
  ghost predicate Collected(row: Text, before: map<Text, Text>, c: map<Text, Text>) {
    var parts := Split(row, TAB);
    |parts| == 2 && parts[0] !in before && parts[0] in c && c[parts[0]] == parts[1] && row == parts[0] + [TAB] + parts[1]
  }

  lemma KeyNamed(name: Naming, n: Text, values: map<Text, Text>) returns (k: Key)
    requires HasAllKeys(name, values) && n in values
    ensures name(k) == n
  {
    k :| n == name(k);
  }

  /** The keys of collected rows, when they are the nine names. */
  lemma {:induction false} KeysOfRows(name: Naming, rows: seq<Text>, values: map<Text, Text>) returns (order: seq<Key>)
    requires HasAllKeys(name, values) && forall i | 0 <= i < |rows| :: Split(rows[i], TAB)[0] in values
    ensures |order| == |rows| && forall i | 0 <= i < |rows| :: name(order[i]) == Split(rows[i], TAB)[0]
  {
    if rows == [] {
      order := [];
    } else {
      var k := KeyNamed(name, Split(rows[0], TAB)[0], values);
      var rest := KeysOfRows(name, rows[1..], values);
      order := [k] + rest;
    }
  }

  lemma RowsAreEncoding(name: Naming, rows: seq<Text>, values: map<Text, Text>, f: HostFacts) returns (order: seq<Key>)
    requires NamesOk(name) && Collect(rows, map[]) == Some(values)
    requires HasAllKeys(name, values) && forall k :: values[name(k)] == Value(f, k)
    ensures IsOrder(order) && rows == RowsOf(name, f, order)
  {
    CollectedRows(rows, map[]);
    forall i | 0 <= i < |rows| ensures Split(rows[i], TAB)[0] in values { assert Collected(rows[i], map[], values); }
    order := KeysOfRows(name, rows, values);
    forall i | 0 <= i < |rows| ensures rows[i] == Row(name, f, order[i]) {
      assert Collected(rows[i], map[], values);
      assert values[name(order[i])] == Value(f, order[i]);
    }
    forall k ensures k in order {
      assert name(k) in values;
      var i :| 0 <= i < |rows| && Split(rows[i], TAB)[0] == name(k);
      assert order[i] == k;
    }
  }

  /** What an accepted text consists of. */
  lemma AcceptedParts(name: Naming, blob: Text, f: HostFacts) returns (rows: seq<Text>, values: map<Text, Text>)
    requires BaselineOf(name, blob) == Ok(f)
    ensures Split(blob, LF) == rows + [[]] && Collect(rows, map[]) == Some(values)
    ensures ValidFacts(f) && HasAllKeys(name, values) && forall k :: values[name(k)] == Value(f, k)
  {
    var pieces := Split(blob, LF);
    rows := pieces[..|pieces| - 1];
    values := Collect(rows, map[]).value;
    assert Facts(name, values, InvalidBaseline) == Ok(f);
    assert pieces == rows + [[]];
  }

  lemma AcceptedIsEncoded(name: Naming, blob: Text, f: HostFacts) returns (order: seq<Key>)
    requires NamesOk(name) && BaselineOf(name, blob) == Ok(f)
    ensures ValidFacts(f) && IsOrder(order) && blob == Encode(name, f, order)
  {
    var rows, values := AcceptedParts(name, blob, f);
    order := RowsAreEncoding(name, rows, values, f);
    JoinSplit(blob, LF);
    JoinClosed(rows);
  }

  /** The accepted byte strings are exactly the row permutations of the valid facts they decode to. */
  lemma AcceptedIffEncoded(blob: Text, f: HostFacts)
    ensures BaselineOf(Name, blob) == Ok(f) <==> ValidFacts(f) && exists order :: IsOrder(order) && blob == Encode(Name, f, order)
  {
    NamesAreOk();
    if BaselineOf(Name, blob) == Ok(f) { var order := AcceptedIsEncoded(Name, blob, f); }
    if ValidFacts(f) && exists order :: IsOrder(order) && blob == Encode(Name, f, order) {
      var order :| IsOrder(order) && blob == Encode(Name, f, order);
      EncodedIsAccepted(Name, f, order);
    }
  }

  // ----- decode_observation -----

  datatype Outcome = Outcome(returncode: int, stdout: Text, stderr: Text)

  /** A query that answered with this value and nothing else. */
  function Answer(value: Text): Outcome { Outcome(0, value + [LF], []) }

  /** One value from one query, None where it is refused. */
  function Scalar(o: Outcome): Option<Text> {
    if o.returncode != 0 || !(1 <= |o.stdout| <= MAX_QUERY_BYTES) || o.stderr != [] || !IsAscii(o.stdout) then None
    else
      var n := |o.stdout| - 1;
      if o.stdout[n] != LF || LF in o.stdout[..n] then None else Some(o.stdout[..n])
  }

  /** set(outcomes) == set(KEYS) */
  predicate Answered(name: Naming, outcomes: map<Text, Outcome>) {
    (forall k :: name(k) in outcomes) && forall n | n in outcomes :: exists k :: n == name(k)
  }

  /** Nine affirmative answers with the values of valid facts. */
  ghost predicate Observes(name: Naming, outcomes: map<Text, Outcome>, f: HostFacts) {
    ValidFacts(f) && Answered(name, outcomes) && forall k :: outcomes[name(k)] == Answer(Value(f, k))
  }

  method DecodeObservation(name: Naming, outcomes: map<Text, Outcome>) returns (r: Result<HostFacts, Refusal>)
    requires NamesOk(name)
    ensures r.Err? ==> r.error == IncompleteObservation
    ensures forall f :: r == Ok(f) <==> Observes(name, outcomes, f)
  {
    if !Answered(name, outcomes) {
      return Err(IncompleteObservation);
    }
    var values: map<Text, Text> := map[];
    var keys := Keys();
    for i := 0 to |keys|
      invariant forall j | 0 <= j < i :: name(keys[j]) in values && Scalar(outcomes[name(keys[j])]) == Some(values[name(keys[j])])
      invariant forall n | n in values :: exists k :: n == name(k)
    {
      var value := Scalar(outcomes[name(keys[i])]);
      if value.None? {
        forall f | ValidFacts(f) ensures outcomes[name(keys[i])] != Answer(Value(f, keys[i])) {
          AnswerScalar(keys[i], Value(f, keys[i]));
        }
        return Err(IncompleteObservation);
      }
      values := values[name(keys[i]) := value.value];
    }
    forall k ensures name(k) in values && Scalar(outcomes[name(k)]) == Some(values[name(k)]) {
      KeysComplete(k);
      var j :| 0 <= j < |keys| && keys[j] == k;
    }
    r := Facts(name, values, IncompleteObservation);
    ObservedFacts(name, outcomes, values, r);
  }

  lemma AnswerScalar(k: Key, value: Text)
    requires ValidScalar(k, value)
    ensures Scalar(Answer(value)) == Some(value)
  {
    ScalarIsPlain(k, value);
    assert (value + [LF])[..|value|] == value;
  }

  lemma ScalarAnswer(o: Outcome)
    requires Scalar(o).Some?
    ensures o == Answer(Scalar(o).value)
  {
    assert o.stdout == o.stdout[..|o.stdout| - 1] + [o.stdout[|o.stdout| - 1]];
  }

  lemma ObservedFacts(name: Naming, outcomes: map<Text, Outcome>, values: map<Text, Text>, r: Result<HostFacts, Refusal>)
    requires Answered(name, outcomes) && HasAllKeys(name, values)
    requires forall k :: Scalar(outcomes[name(k)]) == Some(values[name(k)])
    requires r == Facts(name, values, IncompleteObservation)
    ensures forall f :: r == Ok(f) <==> ValidFacts(f) && forall k :: outcomes[name(k)] == Answer(Value(f, k))
  {
    forall f ensures r == Ok(f) <==> ValidFacts(f) && forall k :: outcomes[name(k)] == Answer(Value(f, k)) {
      if ValidFacts(f) {
        AnswersAreValues(name, outcomes, values, f);
        FactsIffValues(name, values, f, IncompleteObservation);
      }
    }
  }

  lemma FactsIffValues(name: Naming, values: map<Text, Text>, f: HostFacts, reason: Refusal)
    requires HasAllKeys(name, values) && ValidFacts(f)
    ensures Facts(name, values, reason) == Ok(f) <==> forall k :: values[name(k)] == Value(f, k)
  {
    if forall k :: values[name(k)] == Value(f, k) { FactsOfValues(name, values, f, reason); }
  }

  lemma AnswersAreValues(name: Naming, outcomes: map<Text, Outcome>, values: map<Text, Text>, f: HostFacts)
    requires Answered(name, outcomes) && HasAllKeys(name, values) && ValidFacts(f)
    requires forall k :: Scalar(outcomes[name(k)]) == Some(values[name(k)])
    ensures (forall k :: outcomes[name(k)] == Answer(Value(f, k))) <==> forall k :: values[name(k)] == Value(f, k)
  {
    forall k ensures outcomes[name(k)] == Answer(Value(f, k)) <==> values[name(k)] == Value(f, k) {
      ScalarAnswer(outcomes[name(k)]);
      assert ValidScalar(k, Value(f, k));
      AnswerScalar(k, Value(f, k));
    }
  }

  // ----- compare -----

  datatype Status = Unchanged | Drifted

  datatype Comparison = Comparison(status: Status, changed: seq<Key>)

  function ChangedKeys(keys: seq<Key>, f: HostFacts, g: HostFacts): seq<Key> {
    if keys == [] then []
    else (if FieldOf(f, keys[0]) != FieldOf(g, keys[0]) then [keys[0]] else []) + ChangedKeys(keys[1..], f, g)
  }

  function Compare(baseline: HostFacts, current: HostFacts): Comparison {
    var changed := ChangedKeys(Keys(), baseline, current);
    Comparison(if changed == [] then Unchanged else Drifted, changed)
  }

  lemma {:induction false} ChangedElements(keys: seq<Key>, f: HostFacts, g: HostFacts)
    ensures forall k :: k in ChangedKeys(keys, f, g) <==> k in keys && FieldOf(f, k) != FieldOf(g, k)
    ensures ChangedKeys(keys, f, g) == ChangedKeys(keys, g, f)
  {
    if keys != [] {
      ChangedElements(keys[1..], f, g);
      assert keys == [keys[0]] + keys[1..];
    }
  }

  /** The comparison is symmetric, names exactly the differing facts, and says unchanged exactly on equal facts. */
  lemma CompareExact(f: HostFacts, g: HostFacts)
    ensures Compare(f, g) == Compare(g, f)
    ensures forall k :: k in Compare(f, g).changed <==> FieldOf(f, k) != FieldOf(g, k)
    ensures Compare(f, g).status == Unchanged <==> f == g
  {
    ChangedElements(Keys(), f, g);
    forall k ensures k in Keys() { KeysComplete(k); }
    if Compare(f, g).changed == [] {
      forall k ensures Value(f, k) == Value(g, k) {
        assert k !in Compare(f, g).changed;
        SameValue(f, g, k);
      }
      FactsFromValues(f, g);
    } else {
      assert Compare(f, g).changed[0] in Compare(f, g).changed;
    }
  }

  // ----- the two decoders -----

  /** The answer to a query as a row of the baseline. */
  function AnswerRow(name: Naming, k: Key, o: Outcome): Text {
    name(k) + [TAB] + (if o.stdout == [] then [] else o.stdout[..|o.stdout| - 1])
  }

  lemma AnswerIsRow(name: Naming, outcomes: map<Text, Outcome>, g: HostFacts, k: Key)
    requires Observes(name, outcomes, g)
    ensures AnswerRow(name, k, outcomes[name(k)]) == Row(name, g, k)
  {
    assert (Value(g, k) + [LF])[..|Value(g, k)|] == Value(g, k);
  }

  /** A row of one host among the rows of another is the same row. */
  lemma RowAmongRows(name: Naming, f: HostFacts, g: HostFacts, order: seq<Key>, k: Key)
    requires NamesOk(name) && ValidFacts(f) && ValidFacts(g) && IsOrder(order)
    ensures Row(name, g, k) in RowsOf(name, f, order) + [[]] <==> Value(f, k) == Value(g, k)
  {
    var rows := RowsOf(name, f, order);
    RowShape(name, g, k);
    assert k in order;
    var j :| 0 <= j < |order| && order[j] == k;
    if Row(name, g, k) in rows + [[]] {
      assert Row(name, g, k) != [];
      var i :| 0 <= i < |rows| && rows[i] == Row(name, g, k);
      RowShape(name, f, order[i]);
    } else {
      assert rows[j] == Row(name, f, k) && rows[j] in rows + [[]];
    }
  }

  /**
    A decoded baseline and a decoded observation are of the same facts exactly when each answer, without its line
    feed, stands in the baseline as the row of its key.
   */
  lemma DecodersAgree(name: Naming, blob: Text, outcomes: map<Text, Outcome>, f: HostFacts, g: HostFacts)
    requires NamesOk(name) && BaselineOf(name, blob) == Ok(f) && Observes(name, outcomes, g)
    ensures f == g <==> forall k :: AnswerRow(name, k, outcomes[name(k)]) in Split(blob, LF)
  {
    var order := AcceptedIsEncoded(name, blob, f);
    EncodedText(name, f, order);
    forall k ensures AnswerRow(name, k, outcomes[name(k)]) in Split(blob, LF) <==> Value(f, k) == Value(g, k) {
      AnswerIsRow(name, outcomes, g, k);
      RowAmongRows(name, f, g, order, k);
    }
    if forall k :: Value(f, k) == Value(g, k) { FactsFromValues(f, g); }
  }
}
