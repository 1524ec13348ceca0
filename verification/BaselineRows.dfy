/**
  The nine rows of a host baseline and the nine answers of an observation, written out
  (scripts/m8_host_baseline_contract.py).
 */
module BaselineRows {
  import opened Texts
  import opened Wrappers
  import opened Lines
  import opened HostBaseline

  // ----- words -----

  predicate DigestWord(t: Text) { |t| == 64 && forall i | 0 <= i < 64 :: 48 <= t[i] <= 57 || 97 <= t[i] <= 102 }

  predicate LowerOrDigit(c: Code) { 48 <= c <= 57 || 97 <= c <= 122 }

  /** Up to 32 lowercase letters, digits and hyphens, not starting with a hyphen. */
  predicate MachineWord(t: Text) {
    1 <= |t| <= 32 && LowerOrDigit(t[0]) && forall i | 0 <= i < |t| :: LowerOrDigit(t[i]) || t[i] == 45
  }

  predicate AnyAlnum(c: Code) { LowerOrDigit(c) || 65 <= c <= 90 }

  /** Up to 128 letters, digits and . + : ~ _ - starting with a letter or digit. */
  predicate VersionWord(t: Text) {
    && 1 <= |t| <= 128 && AnyAlnum(t[0])
    && forall i | 0 <= i < |t| ::
         AnyAlnum(t[i]) || t[i] == 46 || t[i] == 43 || t[i] == 58 || t[i] == 126 || t[i] == 95 || t[i] == 45
  }

  /** The shape of every word among the facts. */
  predicate Wellformed(f: HostFacts) {
    && VersionWord(f.kernel) && DigestWord(f.bwrapDigest) && VersionWord(f.bwrapVersion) && DigestWord(f.apparmorAbi)
    && VersionWord(f.osRelease) && MachineWord(f.architecture)
  }

  lemma WordsAre(t: Text)
    ensures IsDigest(t) <==> DigestWord(t)
    ensures IsMachine(t) <==> MachineWord(t)
    ensures IsVersion(t) <==> VersionWord(t)
  {}

  lemma WellformedIff(f: HostFacts)
    ensures ValidFacts(f) <==> Wellformed(f)
  {
    WordsAre(f.kernel);
    WordsAre(f.bwrapDigest);
    WordsAre(f.bwrapVersion);
    WordsAre(f.apparmorAbi);
    WordsAre(f.osRelease);
    WordsAre(f.architecture);
    if ValidFacts(f) {
      assert ValidScalar(Kernel, Value(f, Kernel)) && ValidScalar(BwrapDigest, Value(f, BwrapDigest));
      assert ValidScalar(BwrapVersion, Value(f, BwrapVersion)) && ValidScalar(AppArmorAbi, Value(f, AppArmorAbi));
      assert ValidScalar(OsRelease, Value(f, OsRelease)) && ValidScalar(Architecture, Value(f, Architecture));
    }
  }

  // ----- rows -----

  function ZeroOne(on: bool): Text { if on then Lit("1") else Lit("0") }
  function YesNo(on: bool): Text { if on then Lit("Y") else Lit("N") }

  /** The nine rows of these facts. */
  function NineRows(f: HostFacts): seq<Text> {
    [Lit("kernel") + [9] + f.kernel,
     Lit("bwrap_digest") + [9] + f.bwrapDigest,
     Lit("bwrap_version") + [9] + f.bwrapVersion,
     Lit("bwrap_held") + [9] + ZeroOne(f.bwrapHeld),
     Lit("apparmor_enabled") + [9] + YesNo(f.apparmorEnabled),
     Lit("userns_restrict") + [9] + ZeroOne(f.usernsRestrict),
     Lit("apparmor_abi") + [9] + f.apparmorAbi,
     Lit("os_release") + [9] + f.osRelease,
     Lit("architecture") + [9] + f.architecture]
  }

  /** A key's place among the nine rows. */
  function Place(k: Key): (n: nat)
    ensures n < 9
  {
    match k
    case Kernel => 0
    case BwrapDigest => 1
    case BwrapVersion => 2
    case BwrapHeld => 3
    case AppArmorEnabled => 4
    case UsernsRestrict => 5
    case AppArmorAbi => 6
    case OsRelease => 7
    case Architecture => 8
  }

  lemma FlagTexts()
    ensures Lit("1") == ONE && Lit("0") == ZERO && Lit("Y") == YES && Lit("N") == NO
  {}

  lemma RowIsLiteral(f: HostFacts, k: Key)
    ensures Row(Name, f, k) == NineRows(f)[Place(k)]
  {
    FlagTexts();
  }

  /** The same rows in another order. */
  ghost predicate Shuffled(rows: seq<Text>, nine: seq<Text>, order: seq<nat>) {
    && |rows| == |nine| == |order| && (forall i | 0 <= i < |order| :: order[i] < |nine| && rows[i] == nine[order[i]])
    && (forall i, j | 0 <= i < j < |order| :: order[i] != order[j]) && forall n: nat | n < |nine| :: n in order
  }

  function KeyAt(n: nat): Key
    requires n < 9
  {
    Keys()[n]
  }

  lemma PlaceOfKey(k: Key)
    ensures KeyAt(Place(k)) == k
  {}

  lemma KeyOfPlace(n: nat)
    requires n < 9
    ensures Place(KeyAt(n)) == n
  {}

  /** An order of the keys is an order of the nine rows. */
  lemma OrderShuffles(f: HostFacts, order: seq<Key>) returns (places: seq<nat>)
    requires IsOrder(order)
    ensures Shuffled(RowsOf(Name, f, order), NineRows(f), places)
  {
    OrderLength(order);
    places := seq(9, i requires 0 <= i < 9 => Place(order[i]));
    forall i | 0 <= i < 9 ensures RowsOf(Name, f, order)[i] == NineRows(f)[places[i]] { RowIsLiteral(f, order[i]); }
    forall i, j | 0 <= i < j < 9 ensures places[i] != places[j] {
      PlaceOfKey(order[i]);
      PlaceOfKey(order[j]);
    }
    forall n: nat | n < 9 ensures n in places {
      KeyOfPlace(n);
      assert KeyAt(n) in order;
      var i :| 0 <= i < |order| && order[i] == KeyAt(n);
      assert places[i] == n;
    }
  }

  lemma ShuffleIsOrder(f: HostFacts, rows: seq<Text>, places: seq<nat>) returns (order: seq<Key>)
    requires Shuffled(rows, NineRows(f), places)
    ensures IsOrder(order) && rows == RowsOf(Name, f, order)
  {
    order := seq(9, i requires 0 <= i < 9 => KeyAt(places[i]));
    forall i | 0 <= i < 9 ensures rows[i] == Row(Name, f, order[i]) {
      KeyOfPlace(places[i]);
      RowIsLiteral(f, order[i]);
    }
    forall i, j | 0 <= i < j < 9 ensures order[i] != order[j] {
      KeyOfPlace(places[i]);
      KeyOfPlace(places[j]);
    }
    forall k ensures k in order {
      assert Place(k) in places;
      var i :| 0 <= i < 9 && places[i] == Place(k);
      PlaceOfKey(k);
      assert order[i] == k;
    }
  }

  /** The texts accepted for facts are the nine rows in any order, each closed by LF. */
  lemma BaselineIff(blob: Text, f: HostFacts)
    ensures BaselineOf(Name, blob) == Ok(f) <==>
      Wellformed(f) && exists rows, places :: Shuffled(rows, NineRows(f), places) && blob == Unlines(rows)
  {
    AcceptedIffEncoded(blob, f);
    WellformedIff(f);
    if BaselineOf(Name, blob) == Ok(f) {
      var order :| IsOrder(order) && blob == Encode(Name, f, order);
      var places := OrderShuffles(f, order);
    }
    forall rows, places | Shuffled(rows, NineRows(f), places) && blob == Unlines(rows)
      ensures exists order :: IsOrder(order) && blob == Encode(Name, f, order)
    {
      var order := ShuffleIsOrder(f, rows, places);
    }
  }

  // ----- answers -----

  /** The nine names. */
  function NineNames(): set<Text> {
    {Lit("kernel"), Lit("bwrap_digest"), Lit("bwrap_version"), Lit("bwrap_held"), Lit("apparmor_enabled"),
     Lit("userns_restrict"), Lit("apparmor_abi"), Lit("os_release"), Lit("architecture")}
  }

  /** The query succeeded and printed this word on one line, and nothing else. */
  predicate Printed(outcomes: map<Text, Outcome>, name: Text, word: Text) {
    name in outcomes && outcomes[name].returncode == 0 && outcomes[name].stdout == word + [10] && outcomes[name].stderr == []
  }

  /** The nine answers of a host with these facts. */
  predicate NineAnswers(outcomes: map<Text, Outcome>, f: HostFacts) {
    && Printed(outcomes, Lit("kernel"), f.kernel)
    && Printed(outcomes, Lit("bwrap_digest"), f.bwrapDigest)
    && Printed(outcomes, Lit("bwrap_version"), f.bwrapVersion)
    && Printed(outcomes, Lit("bwrap_held"), ZeroOne(f.bwrapHeld))
    && Printed(outcomes, Lit("apparmor_enabled"), YesNo(f.apparmorEnabled))
    && Printed(outcomes, Lit("userns_restrict"), ZeroOne(f.usernsRestrict))
    && Printed(outcomes, Lit("apparmor_abi"), f.apparmorAbi)
    && Printed(outcomes, Lit("os_release"), f.osRelease)
    && Printed(outcomes, Lit("architecture"), f.architecture)
  }

  lemma NamesAre(n: Text)
    ensures n in NineNames() <==> exists k :: n == Name(k)
  {
    if n in NineNames() {
      assert n == Name(Kernel) || n == Name(BwrapDigest) || n == Name(BwrapVersion) || n == Name(BwrapHeld)
          || n == Name(AppArmorEnabled) || n == Name(UsernsRestrict) || n == Name(AppArmorAbi) || n == Name(OsRelease)
          || n == Name(Architecture);
    }
  }

  lemma PrintedIff(outcomes: map<Text, Outcome>, f: HostFacts, k: Key)
    ensures Printed(outcomes, Name(k), Value(f, k)) <==> Name(k) in outcomes && outcomes[Name(k)] == Answer(Value(f, k))
  {}

  lemma AllPrinted(outcomes: map<Text, Outcome>, f: HostFacts)
    ensures NineAnswers(outcomes, f) <==> forall k :: Printed(outcomes, Name(k), Value(f, k))
  {
    FlagTexts();
    if forall k :: Printed(outcomes, Name(k), Value(f, k)) {
      assert Printed(outcomes, Name(Kernel), Value(f, Kernel)) && Printed(outcomes, Name(BwrapDigest), Value(f, BwrapDigest));
      assert Printed(outcomes, Name(BwrapVersion), Value(f, BwrapVersion)) && Printed(outcomes, Name(BwrapHeld), Value(f, BwrapHeld));
      assert Printed(outcomes, Name(AppArmorEnabled), Value(f, AppArmorEnabled));
      assert Printed(outcomes, Name(UsernsRestrict), Value(f, UsernsRestrict)) && Printed(outcomes, Name(AppArmorAbi), Value(f, AppArmorAbi));
      assert Printed(outcomes, Name(OsRelease), Value(f, OsRelease)) && Printed(outcomes, Name(Architecture), Value(f, Architecture));
    }
  }

  /** The observations that give facts: nine names, each answered with its word. */
  lemma ObservesIff(outcomes: map<Text, Outcome>, f: HostFacts)
    ensures Observes(Name, outcomes, f) <==> Wellformed(f) && outcomes.Keys == NineNames() && NineAnswers(outcomes, f)
  {
    WellformedIff(f);
    AllPrinted(outcomes, f);
    forall k ensures Printed(outcomes, Name(k), Value(f, k)) <==> Name(k) in outcomes && outcomes[Name(k)] == Answer(Value(f, k)) {
      PrintedIff(outcomes, f, k);
    }
    forall n ensures n in NineNames() <==> exists k :: n == Name(k) { NamesAre(n); }
  }

  // ----- the comparison -----

  ghost predicate InRowOrder(keys: seq<Key>, from: nat) {
    && (forall x | 0 <= x < |keys| :: from <= Place(keys[x]))
    && forall x, y | 0 <= x < y < |keys| :: Place(keys[x]) < Place(keys[y])
  }

  lemma InOrderMore(keys: seq<Key>, n: nat)
    requires n < 9 && InRowOrder(keys, n + 1)
    ensures InRowOrder([KeyAt(n)] + keys, n) && InRowOrder(keys, n)
  {
    KeyOfPlace(n);
  }

  lemma {:induction false} ChangedInOrder(f: HostFacts, g: HostFacts, n: nat)
    requires n <= 9
    ensures InRowOrder(ChangedKeys(Keys()[n..], f, g), n)
    decreases 9 - n
  {
    if n < 9 {
      var keys := Keys()[n..];
      assert keys[0] == KeyAt(n) && keys[1..] == Keys()[n + 1..];
      ChangedInOrder(f, g, n + 1);
      InOrderMore(ChangedKeys(keys[1..], f, g), n);
      assert [] + ChangedKeys(keys[1..], f, g) == ChangedKeys(keys[1..], f, g);
    }
  }

  /** The differing facts, field by field, in the order of the rows. */
  lemma ComparisonIs(f: HostFacts, g: HostFacts)
    ensures InRowOrder(Compare(f, g).changed, 0)
    ensures Kernel in Compare(f, g).changed <==> f.kernel != g.kernel
    ensures BwrapDigest in Compare(f, g).changed <==> f.bwrapDigest != g.bwrapDigest
    ensures BwrapVersion in Compare(f, g).changed <==> f.bwrapVersion != g.bwrapVersion
    ensures BwrapHeld in Compare(f, g).changed <==> f.bwrapHeld != g.bwrapHeld
    ensures AppArmorEnabled in Compare(f, g).changed <==> f.apparmorEnabled != g.apparmorEnabled
    ensures UsernsRestrict in Compare(f, g).changed <==> f.usernsRestrict != g.usernsRestrict
    ensures AppArmorAbi in Compare(f, g).changed <==> f.apparmorAbi != g.apparmorAbi
    ensures OsRelease in Compare(f, g).changed <==> f.osRelease != g.osRelease
    ensures Architecture in Compare(f, g).changed <==> f.architecture != g.architecture
    ensures Compare(f, g).status == if f == g then Unchanged else Drifted
  {
    CompareExact(f, g);
    ChangedInOrder(f, g, 0);
    assert Keys()[0..] == Keys();
  }
}
