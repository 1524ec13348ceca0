/** What the q13 transfer document says, member by member and character by character (scripts/m8_candidate_transfer.py). */
module TransferDocument {
  import opened Texts
  import opened Wrappers
  import opened Sorting
  import opened Json
  import opened CanonicalJson
  import opened TransferCodec

  // ----- the document as it loads -----

  /** The six members of the historical projection. */
  ghost predicate HistoricalMembers(fields: seq<Field>, pins: Pins) {
    && Names(fields) == {Lit("schema_version"), Lit("meaning"), Lit("run_id"), Lit("candidate_commit"),
                         Lit("input_sha256"), Lit("render_sha256")}
    && Lookup(fields, Lit("schema_version")) == Some(Int(1))
    && Lookup(fields, Lit("meaning")) == Some(Str(Lit("historical-application-acceptance")))
    && Lookup(fields, Lit("run_id")) == Some(Str(pins.runId))
    && Lookup(fields, Lit("candidate_commit")) == Some(Str(pins.candidate))
    && Lookup(fields, Lit("input_sha256")) == Some(Str(pins.inputSha256))
    && Lookup(fields, Lit("render_sha256")) == Some(Str(pins.renderSha256))
  }

  /** The eight members of the document. */
  ghost predicate DocumentMembers(fields: seq<Field>, commitHex: Text, vectorHex: Text, historical: seq<Field>, pins: Pins) {
    && Names(fields) == {Lit("schema_version"), Lit("base_commit"), Lit("candidate_commit"), Lit("path"), Lit("mode"),
                         Lit("commit_hex"), Lit("vector_hex"), Lit("historical")}
    && Lookup(fields, Lit("schema_version")) == Some(Int(1))
    && Lookup(fields, Lit("base_commit")) == Some(Str(pins.base))
    && Lookup(fields, Lit("candidate_commit")) == Some(Str(pins.candidate))
    && Lookup(fields, Lit("path")) == Some(Str(Lit("tests/vectors/plan_manifest.json")))
    && Lookup(fields, Lit("mode")) == Some(Str(Lit("100644")))
    && Lookup(fields, Lit("commit_hex")) == Some(Str(commitHex))
    && Lookup(fields, Lit("vector_hex")) == Some(Str(vectorHex))
    && Lookup(fields, Lit("historical")) == Some(Obj(historical))
  }

  lemma SixNames(f: seq<Field>)
    requires |f| == 6
    ensures Names(f) == {f[0].name, f[1].name, f[2].name, f[3].name, f[4].name, f[5].name}
  {
    assert f[0] in f && f[1] in f && f[2] in f && f[3] in f && f[4] in f && f[5] in f;
  }

  lemma SortedLookup(f: seq<Field>, i: nat)
    requires DistinctNames(f) && i < |f|
    ensures Lookup(SortKeys(Obj(f)).fields, f[i].name) == Some(SortKeys(f[i].value))
  {
    SortedObject(f);
    LookupDistinct(SortKeys(Obj(f)).fields, Field(f[i].name, SortKeys(f[i].value)));
  }

  lemma HistoricalSays(pins: Pins) returns (fields: seq<Field>)
    ensures SortKeys(Historical(pins)) == Obj(fields) && HistoricalMembers(fields, pins)
  {
    var f := Historical(pins).fields;
    fields := SortKeys(Historical(pins)).fields;
    HistoricalUnique(pins);
    SortedObject(f);
    SixNames(f);
    SortedLookup(f, 0);
    SortedLookup(f, 1);
    SortedLookup(f, 2);
    SortedLookup(f, 3);
    SortedLookup(f, 4);
    SortedLookup(f, 5);
  }

  lemma ValueSays(commit: Text, vector: Text, pins: Pins) returns (fields: seq<Field>, historical: seq<Field>)
    requires IsBytes(commit) && IsBytes(vector)
    ensures SortKeys(ArtifactValue(commit, vector, pins, VECTOR_PATH)) == Obj(fields)
    ensures DocumentMembers(fields, ToHex(commit), ToHex(vector), historical, pins) && HistoricalMembers(historical, pins)
  {
    var v := ArtifactValue(commit, vector, pins, VECTOR_PATH);
    historical := HistoricalSays(pins);
    ArtifactUnique(commit, vector, pins);
    SortedObject(v.fields);
    ArtifactNames(commit, vector, pins);
    PinnedEmitted(commit, vector, pins);
    PayloadEmitted(commit, vector, pins);
    fields := SortKeys(v).fields;
  }

  lemma DocumentLoads(commit: Text, vector: Text, pins: Pins, w: World, raw: Text, fields: seq<Field>)
    requires IsBytes(commit) && IsBytes(vector) && ValidPins(pins) && w.recursion >= 2
    requires ArtifactBytes(commit, vector, pins, w) == Ok(raw)
    requires SortKeys(ArtifactValue(commit, vector, pins, VECTOR_PATH)) == Obj(fields)
    ensures Loads(raw, w.recursion) == Some(Obj(fields))
  {
    LoadsArtifact(commit, vector, pins, w.recursion);
  }

  /** The emitted bytes load as an object of exactly these members. */
  lemma DocumentSays(commit: Text, vector: Text, pins: Pins, w: World, raw: Text)
    returns (fields: seq<Field>, historical: seq<Field>)
    requires IsBytes(commit) && IsBytes(vector) && ValidPins(pins) && w.recursion >= 2
    requires ArtifactBytes(commit, vector, pins, w) == Ok(raw)
    ensures Loads(raw, w.recursion) == Some(Obj(fields))
    ensures DocumentMembers(fields, ToHex(commit), ToHex(vector), historical, pins) && HistoricalMembers(historical, pins)
  {
    fields, historical := ValueSays(commit, vector, pins);
    DocumentLoads(commit, vector, pins, w, raw, fields);
  }

  // ----- the document as it is written -----

  function Quoted(t: Text): Text { [QUOTE] + t + [QUOTE] }

  /** "name":text */
  function Member(name: Text, text: Text): Text { Quoted(name) + [COLON] + text }

  lemma {:induction false} EscapedPlain(s: Text, tail: Text)
    requires PlainText(s)
    ensures EscapedTo(s, tail) == s + tail
  {
    if s != [] {
      assert s[0] in s && forall c | c in s[1..] :: c in s;
      EscapedPlain(s[1..], tail);
      ConcatAssociative([s[0]], s[1..], tail);
      assert s == [s[0]] + s[1..];
    } else {
      assert s + tail == tail;
    }
  }

  lemma StringPlain(s: Text, tail: Text)
    requires PlainText(s)
    ensures StringTo(s, tail) == Quoted(s) + tail
  {
    EscapedPlain(s, [QUOTE] + tail);
    ConcatAssociative([QUOTE] + s, [QUOTE], tail);
    ConcatAssociative([QUOTE], s, [QUOTE] + tail);
  }

  /** The value is printed as this text, whatever follows. */
  ghost predicate PrintsAs(v: Value, text: Text) {
    forall tail: Text :: PrintTo(v, true, tail) == text + tail
  }

  lemma StrPrints(s: Text)
    requires PlainText(s)
    ensures PrintsAs(Str(s), Quoted(s))
  {
    forall tail: Text ensures PrintTo(Str(s), true, tail) == Quoted(s) + tail { StringPlain(s, tail); }
  }

  lemma OnePrints()
    ensures PrintsAs(Int(1), Lit("1"))
  {
    assert Signed(1) == Lit("1");
  }

  ghost predicate PrintedMember(f: Field, member: Text) {
    PlainText(f.name) && exists text :: PrintsAs(f.value, text) && member == Member(f.name, text)
  }

  /** The members of an object and how each is printed. */
  ghost predicate PrintedMembers(fields: seq<Field>, members: seq<Text>) {
    |fields| == |members| && forall i | 0 <= i < |fields| :: PrintedMember(fields[i], members[i])
  }

  lemma StrMember(name: Text, s: Text)
    requires PlainText(name) && PlainText(s)
    ensures PrintedMember(Field(name, Str(s)), Member(name, Quoted(s)))
  {
    StrPrints(s);
  }

  lemma ValueMember(name: Text, v: Value, text: Text)
    requires PlainText(name) && PrintsAs(v, text)
    ensures PrintedMember(Field(name, v), Member(name, text))
  {}

  lemma OneMember(f: Field, member: Text, rest: Text)
    requires PrintedMember(f, member)
    ensures StringTo(f.name, [COLON] + (Gap(true) + PrintTo(f.value, true, rest))) == member + rest
  {
    var text :| PrintsAs(f.value, text) && member == Member(f.name, text);
    StringPlain(f.name, [COLON] + (Gap(true) + PrintTo(f.value, true, rest)));
    assert Gap(true) + PrintTo(f.value, true, rest) == text + rest;
    ConcatAssociative(Quoted(f.name), [COLON], text + rest);
    ConcatAssociative(Quoted(f.name) + [COLON], text, rest);
  }

  lemma {:induction false} FieldsText(fields: seq<Field>, members: seq<Text>, tail: Text)
    requires fields != [] && PrintedMembers(fields, members)
    ensures FieldsTo(fields, true, tail) == Join(members, COMMA) + [RBRACE] + tail
    decreases |fields|
  {
    OneMember(fields[0], members[0], FieldsRest(fields, true, tail));
    if |fields| == 1 {
      ConcatAssociative(members[0], [RBRACE], tail);
    } else {
      FieldsText(fields[1..], members[1..], tail);
      var j := Join(members[1..], COMMA);
      assert Gap(true) + FieldsTo(fields[1..], true, tail) == j + [RBRACE] + tail;
      Regroup(members[0], [COMMA], j, [RBRACE], tail);
    }
  }

  lemma Regroup(a: Text, b: Text, c: Text, d: Text, e: Text)
    ensures a + (b + (c + d + e)) == a + b + c + d + e
  {}

  lemma ObjectPrints(fields: seq<Field>, members: seq<Text>)
    requires fields != [] && PrintedMembers(fields, members)
    ensures PrintsAs(Obj(fields), [LBRACE] + Join(members, COMMA) + [RBRACE])
  {
    forall tail: Text ensures PrintTo(Obj(fields), true, tail) == [LBRACE] + Join(members, COMMA) + [RBRACE] + tail {
      FieldsText(fields, members, tail);
      Regroup([LBRACE], [], Join(members, COMMA), [RBRACE], tail);
      assert [LBRACE] + [] == [LBRACE];
      assert [] + (Join(members, COMMA) + [RBRACE] + tail) == Join(members, COMMA) + [RBRACE] + tail;
    }
  }

  // ----- the members in order -----

  /** Names that ascend strictly are where sorting puts them. */
  lemma InOrder(fields: seq<Field>, r: seq<Field>)
    requires DistinctNames(fields) && StrictlyAscending(r, FieldKey)
    requires forall f :: f in r <==> f in SortFields(fields)
    ensures SortKeys(Obj(fields)) == Obj(r)
  {
    var once := SortFields(fields);
    var s := Sort(once, FieldKey);
    SortStable(once, FieldKey);
    SortElements(once, FieldKey);
    SortedObject(fields);
    forall i, j | 0 <= i < j < |s| ensures Less(FieldKey(s[i]), FieldKey(s[j])) { LessTotal(FieldKey(s[i]), FieldKey(s[j])); }
    AscendingUnique(s, r, FieldKey);
  }

  /** Names ascend strictly when each is less than the next. */
  lemma {:induction false} StepsAscend(r: seq<Field>, i: nat, j: nat)
    requires i < j < |r| && forall k | 0 <= k < |r| - 1 :: Less(r[k].name, r[k + 1].name)
    ensures Less(r[i].name, r[j].name)
    decreases j - i
  {
    if i + 1 < j {
      StepsAscend(r, i, j - 1);
      LessTransitive(r[i].name, r[j - 1].name, r[j].name);
    }
  }

  /** They first differ at position k. */
  lemma {:induction false} LessAt(a: Text, b: Text, k: nat)
    requires k < |a| && k < |b| && a[..k] == b[..k] && a[k] < b[k]
    ensures Less(a, b)
    decreases k
  {
    if k > 0 {
      assert a[0] == a[..k][0] && b[0] == b[..k][0];
      assert a[1..][..k - 1] == a[..k][1..] && b[1..][..k - 1] == b[..k][1..];
      LessAt(a[1..], b[1..], k - 1);
    }
  }

  lemma HistoricalNamesAscend()
    ensures Less(Lit("candidate_commit"), Lit("input_sha256")) && Less(Lit("input_sha256"), Lit("meaning"))
    ensures Less(Lit("meaning"), Lit("render_sha256")) && Less(Lit("render_sha256"), Lit("run_id"))
    ensures Less(Lit("run_id"), Lit("schema_version"))
  {
    LessAt(Lit("candidate_commit"), Lit("input_sha256"), 0);
    LessAt(Lit("input_sha256"), Lit("meaning"), 0);
    LessAt(Lit("meaning"), Lit("render_sha256"), 0);
    LessAt(Lit("render_sha256"), Lit("run_id"), 1);
    LessAt(Lit("run_id"), Lit("schema_version"), 0);
  }

  lemma DocumentNamesAscend()
    ensures Less(Lit("base_commit"), Lit("candidate_commit")) && Less(Lit("candidate_commit"), Lit("commit_hex"))
    ensures Less(Lit("commit_hex"), Lit("historical")) && Less(Lit("historical"), Lit("mode"))
    ensures Less(Lit("mode"), Lit("path")) && Less(Lit("path"), Lit("schema_version"))
    ensures Less(Lit("schema_version"), Lit("vector_hex"))
  {
    LessAt(Lit("base_commit"), Lit("candidate_commit"), 0);
    LessAt(Lit("candidate_commit"), Lit("commit_hex"), 1);
    LessAt(Lit("commit_hex"), Lit("historical"), 0);
    LessAt(Lit("historical"), Lit("mode"), 0);
    LessAt(Lit("mode"), Lit("path"), 0);
    LessAt(Lit("path"), Lit("schema_version"), 0);
    LessAt(Lit("schema_version"), Lit("vector_hex"), 0);
  }

  function HistoricalTexts(pins: Pins): seq<Text> {
    [Member(Lit("candidate_commit"), Quoted(pins.candidate)),
     Member(Lit("input_sha256"), Quoted(pins.inputSha256)),
     Member(Lit("meaning"), Quoted(Lit("historical-application-acceptance"))),
     Member(Lit("render_sha256"), Quoted(pins.renderSha256)),
     Member(Lit("run_id"), Quoted(pins.runId)),
     Member(Lit("schema_version"), Lit("1"))]
  }

  /** The historical projection as it is written. */
  function HistoricalText(pins: Pins): Text { [LBRACE] + Join(HistoricalTexts(pins), COMMA) + [RBRACE] }

  function DocumentTexts(commitHex: Text, vectorHex: Text, pins: Pins): seq<Text> {
    [Member(Lit("base_commit"), Quoted(pins.base)),
     Member(Lit("candidate_commit"), Quoted(pins.candidate)),
     Member(Lit("commit_hex"), Quoted(commitHex)),
     Member(Lit("historical"), HistoricalText(pins)),
     Member(Lit("mode"), Quoted(Lit("100644"))),
     Member(Lit("path"), Quoted(Lit("tests/vectors/plan_manifest.json"))),
     Member(Lit("schema_version"), Lit("1")),
     Member(Lit("vector_hex"), Quoted(vectorHex))]
  }

  /** The document as it is written: compact, its names in order, one line. */
  function DocumentText(commitHex: Text, vectorHex: Text, pins: Pins): Text {
    [LBRACE] + Join(DocumentTexts(commitHex, vectorHex, pins), COMMA) + [RBRACE] + [LF]
  }

  function HistoricalSorted(pins: Pins): seq<Field> {
    [Field(Lit("candidate_commit"), Str(pins.candidate)), Field(Lit("input_sha256"), Str(pins.inputSha256)),
     Field(Lit("meaning"), Str(Lit("historical-application-acceptance"))),
     Field(Lit("render_sha256"), Str(pins.renderSha256)), Field(Lit("run_id"), Str(pins.runId)),
     Field(Lit("schema_version"), Int(1))]
  }

  function DocumentSorted(commitHex: Text, vectorHex: Text, historical: Value, pins: Pins): seq<Field> {
    [Field(Lit("base_commit"), Str(pins.base)), Field(Lit("candidate_commit"), Str(pins.candidate)),
     Field(Lit("commit_hex"), Str(commitHex)), Field(Lit("historical"), historical),
     Field(Lit("mode"), Str(Lit("100644"))), Field(Lit("path"), Str(VECTOR_PATH)),
     Field(Lit("schema_version"), Int(1)), Field(Lit("vector_hex"), Str(vectorHex))]
  }

  lemma AllAscend(r: seq<Field>)
    requires forall k | 0 <= k < |r| - 1 :: Less(r[k].name, r[k + 1].name)
    ensures StrictlyAscending(r, FieldKey)
  {
    forall i, j | 0 <= i < j < |r| ensures Less(FieldKey(r[i]), FieldKey(r[j])) { StepsAscend(r, i, j); }
  }

  lemma SameSix(r: seq<Field>, f: seq<Field>)
    requires |r| == |f| == 6 && r[0] == f[3] && r[1] == f[4] && r[2] == f[1] && r[3] == f[5] && r[4] == f[2] && r[5] == f[0]
    ensures forall x :: x in r <==> x in f
  {
    assert f[0] in f && f[1] in f && f[2] in f && f[3] in f && f[4] in f && f[5] in f;
    assert r[0] in r && r[1] in r && r[2] in r && r[3] in r && r[4] in r && r[5] in r;
  }

  lemma SameEight(r: seq<Field>, f: seq<Field>)
    requires |r| == |f| == 8 && r[0] == f[1] && r[1] == f[2] && r[2] == f[5] && r[3] == f[7]
    requires r[4] == f[4] && r[5] == f[3] && r[6] == f[0] && r[7] == f[6]
    ensures forall x :: x in r <==> x in f
  {
    assert f[0] in f && f[1] in f && f[2] in f && f[3] in f && f[4] in f && f[5] in f && f[6] in f && f[7] in f;
    assert r[0] in r && r[1] in r && r[2] in r && r[3] in r && r[4] in r && r[5] in r && r[6] in r && r[7] in r;
  }

  lemma HistoricalAscends(pins: Pins)
    ensures StrictlyAscending(HistoricalSorted(pins), FieldKey)
  {
    HistoricalNamesAscend();
    AllAscend(HistoricalSorted(pins));
  }

  lemma HistoricalInOrder(pins: Pins)
    ensures SortKeys(Historical(pins)) == Obj(HistoricalSorted(pins))
  {
    HistoricalAscends(pins);
    HistoricalUnique(pins);
    SameSix(HistoricalSorted(pins), SortFields(Historical(pins).fields));
    InOrder(Historical(pins).fields, HistoricalSorted(pins));
  }

  lemma SixMembers(f: seq<Field>, m: seq<Text>)
    requires |f| == |m| == 6 && PrintedMember(f[0], m[0]) && PrintedMember(f[1], m[1]) && PrintedMember(f[2], m[2])
    requires PrintedMember(f[3], m[3]) && PrintedMember(f[4], m[4]) && PrintedMember(f[5], m[5])
    ensures PrintedMembers(f, m)
  {}

  lemma EightMembers(f: seq<Field>, m: seq<Text>)
    requires |f| == |m| == 8 && PrintedMember(f[0], m[0]) && PrintedMember(f[1], m[1]) && PrintedMember(f[2], m[2])
    requires PrintedMember(f[3], m[3]) && PrintedMember(f[4], m[4]) && PrintedMember(f[5], m[5])
    requires PrintedMember(f[6], m[6]) && PrintedMember(f[7], m[7])
    ensures PrintedMembers(f, m)
  {}

  lemma HistoricalPrinted(pins: Pins)
    requires ValidPins(pins)
    ensures PrintedMembers(HistoricalSorted(pins), HistoricalTexts(pins))
  {
    PinsPlain(pins);
    HistoricalNamesPlain();
    StrMember(Lit("candidate_commit"), pins.candidate);
    StrMember(Lit("input_sha256"), pins.inputSha256);
    StrMember(Lit("meaning"), Lit("historical-application-acceptance"));
    StrMember(Lit("render_sha256"), pins.renderSha256);
    StrMember(Lit("run_id"), pins.runId);
    OnePrints();
    ValueMember(Lit("schema_version"), Int(1), Lit("1"));
    SixMembers(HistoricalSorted(pins), HistoricalTexts(pins));
  }

  lemma HistoricalPrints(pins: Pins)
    requires ValidPins(pins)
    ensures PrintsAs(SortKeys(Historical(pins)), HistoricalText(pins))
  {
    HistoricalInOrder(pins);
    HistoricalPrinted(pins);
    ObjectPrints(HistoricalSorted(pins), HistoricalTexts(pins));
  }

  lemma DocumentAscends(commitHex: Text, vectorHex: Text, historical: Value, pins: Pins)
    ensures StrictlyAscending(DocumentSorted(commitHex, vectorHex, historical, pins), FieldKey)
  {
    DocumentNamesAscend();
    AllAscend(DocumentSorted(commitHex, vectorHex, historical, pins));
  }

  /** What is sorted, member by member. */
  lemma DocumentMatches(commit: Text, vector: Text, pins: Pins, f: seq<Field>, r: seq<Field>)
    requires IsBytes(commit) && IsBytes(vector) && f == SortFields(ArtifactValue(commit, vector, pins, VECTOR_PATH).fields)
    requires r == DocumentSorted(ToHex(commit), ToHex(vector), SortKeys(Historical(pins)), pins)
    ensures forall x :: x in r <==> x in f
  {
    SameEight(r, f);
  }

  lemma DocumentInOrder(commit: Text, vector: Text, pins: Pins)
    requires IsBytes(commit) && IsBytes(vector)
    ensures SortKeys(ArtifactValue(commit, vector, pins, VECTOR_PATH))
      == Obj(DocumentSorted(ToHex(commit), ToHex(vector), SortKeys(Historical(pins)), pins))
  {
    var v := ArtifactValue(commit, vector, pins, VECTOR_PATH);
    var r := DocumentSorted(ToHex(commit), ToHex(vector), SortKeys(Historical(pins)), pins);
    DocumentAscends(ToHex(commit), ToHex(vector), SortKeys(Historical(pins)), pins);
    ArtifactUnique(commit, vector, pins);
    DocumentMatches(commit, vector, pins, SortFields(v.fields), r);
    SortedInOrder(v, r);
  }

  lemma SortedInOrder(v: Value, r: seq<Field>)
    requires v.Obj? && UniqueKeys(v) && StrictlyAscending(r, FieldKey) && forall f :: f in r <==> f in SortFields(v.fields)
    ensures SortKeys(v) == Obj(r)
  {
    InOrder(v.fields, r);
  }

  lemma DocumentPrinted(commitHex: Text, vectorHex: Text, historical: Value, pins: Pins)
    requires ValidPins(pins) && PlainText(commitHex) && PlainText(vectorHex) && PrintsAs(historical, HistoricalText(pins))
    ensures PrintedMembers(DocumentSorted(commitHex, vectorHex, historical, pins), DocumentTexts(commitHex, vectorHex, pins))
  {
    PinsPlain(pins);
    ArtifactNamesPlain();
    VectorPathPlain();
    StrMember(Lit("base_commit"), pins.base);
    StrMember(Lit("candidate_commit"), pins.candidate);
    StrMember(Lit("commit_hex"), commitHex);
    ValueMember(Lit("historical"), historical, HistoricalText(pins));
    StrMember(Lit("mode"), Lit("100644"));
    StrMember(Lit("path"), VECTOR_PATH);
    OnePrints();
    ValueMember(Lit("schema_version"), Int(1), Lit("1"));
    StrMember(Lit("vector_hex"), vectorHex);
    EightMembers(DocumentSorted(commitHex, vectorHex, historical, pins), DocumentTexts(commitHex, vectorHex, pins));
  }

  lemma DocumentPrints(commit: Text, vector: Text, pins: Pins)
    requires IsBytes(commit) && IsBytes(vector) && ValidPins(pins)
    ensures Canonical(ArtifactValue(commit, vector, pins, VECTOR_PATH)) == DocumentText(ToHex(commit), ToHex(vector), pins)
  {
    var historical := SortKeys(Historical(pins));
    HexInverse(commit);
    HexInverse(vector);
    HexPlain(ToHex(commit));
    HexPlain(ToHex(vector));
    HistoricalPrints(pins);
    DocumentPrinted(ToHex(commit), ToHex(vector), historical, pins);
    DocumentInOrder(commit, vector, pins);
    ObjectPrints(DocumentSorted(ToHex(commit), ToHex(vector), historical, pins), DocumentTexts(ToHex(commit), ToHex(vector), pins));
  }

  /** The emitted bytes, character by character. */
  lemma DocumentIsText(commit: Text, vector: Text, pins: Pins, w: World, raw: Text)
    requires IsBytes(commit) && IsBytes(vector) && ValidPins(pins)
    requires ArtifactBytes(commit, vector, pins, w) == Ok(raw)
    ensures raw == DocumentText(ToHex(commit), ToHex(vector), pins)
  {
    DocumentPrints(commit, vector, pins);
  }

  // ----- exactly which pairs, and which bytes -----

  /** Two digits for each byte, the high one first. */
  lemma {:induction false} HexDigits(bytes: Text, i: nat)
    requires IsBytes(bytes) && i < |bytes|
    ensures ToHex(bytes)[2 * i] == Lit("0123456789abcdef")[bytes[i] / 16]
    ensures ToHex(bytes)[2 * i + 1] == Lit("0123456789abcdef")[bytes[i] % 16]
  {
    if i > 0 {
      HexDigits(bytes[1..], i - 1);
      assert ToHex(bytes)[2..] == ToHex(bytes[1..]);
    }
  }

  predicate HexText(t: Text) { forall c | c in t :: 48 <= c <= 57 || 97 <= c <= 102 }

  predicate PersonText(t: Text) { 1 <= |t| <= 512 && forall c | c in t :: 0x20 <= c <= 0x7e }

  predicate MessageText(t: Text, w: World) {
    0 < |t| <= 2048 && w.decodeUtf8(t).Some? && forall c | c in w.decodeUtf8(t).value :: c == LF || w.printable(c)
  }

  /** The four header lines of a commit. */
  function HeaderText(tree: Text, parent: Text, author: Text, committer: Text): Text {
    Lit("tree ") + tree + [LF] + (Lit("parent ") + parent + [LF] + (Lit("author ") + author + [LF] + (Lit("committer ") + committer)))
  }

  /** A commit on the pinned base, with the pinned id. */
  ghost predicate PinnedCommit(raw: Text, tree: Text, author: Text, committer: Text, message: Text, pins: Pins, w: World) {
    && raw == HeaderText(tree, pins.base, author, committer) + [LF, LF] + message
    && |tree| == 40 && HexText(tree) && PersonText(author) && PersonText(committer) && MessageText(message, w)
    && |raw| <= 4096 && w.sha1(Lit("commit ") + Digits(|raw|) + [0] + raw) == pins.candidate
  }

  lemma FourRows(rows: seq<Text>, tree: Text, parent: Text, author: Text, committer: Text)
    requires |rows| == 4 && rows[0] == Lit("tree ") + tree && rows[1] == Lit("parent ") + parent
    requires rows[2] == Lit("author ") + author && rows[3] == Lit("committer ") + committer
    ensures Join(rows, LF) == HeaderText(tree, parent, author, committer)
  {
    var two, three := rows[1..][1..], rows[1..][1..][1..];
    assert two[0] == rows[2] && three[0] == rows[3];
    assert Join(three, LF) == rows[3] && Join(two, LF) == rows[2] + [LF] + rows[3];
    assert Join(rows[1..], LF) == rows[1] + [LF] + Join(two, LF);
  }

  lemma TitleCut(row: Text, title: Text) returns (rest: Text)
    requires title <= row
    ensures row == title + rest && rest == row[|title|..]
  {
    rest := row[|title|..];
    assert row == row[..|title|] + rest;
  }

  lemma ShapeIsPinned(rows: seq<Text>, message: Text, raw: Text, tree: Text, pins: Pins, w: World)
    returns (author: Text, committer: Text)
    requires CommitShape(rows, message, raw, tree, pins, w)
    requires |raw| <= MAX_COMMIT && ObjectOid(Lit("commit"), raw, w) == pins.candidate
    ensures PinnedCommit(raw, tree, author, committer, message, pins, w)
  {
    author := TitleCut(rows[2], Lit("author "));
    committer := TitleCut(rows[3], Lit("committer "));
    FourRows(rows, tree, pins.base, author, committer);
    assert |Lit("tree ")| == 5 && rows[0][5..] == tree;
    assert Lit("commit") + [SPACE] == Lit("commit ");
  }

  lemma PinnedIsShape(raw: Text, tree: Text, author: Text, committer: Text, message: Text, pins: Pins, w: World)
    returns (rows: seq<Text>)
    requires PinnedCommit(raw, tree, author, committer, message, pins, w)
    ensures CommitShape(rows, message, raw, tree, pins, w)
    ensures |raw| <= MAX_COMMIT && ObjectOid(Lit("commit"), raw, w) == pins.candidate
  {
    rows := [Lit("tree ") + tree, Lit("parent ") + pins.base, Lit("author ") + author, Lit("committer ") + committer];
    FourRows(rows, tree, pins.base, author, committer);
    assert |Lit("tree ")| == 5 && rows[0][5..] == tree;
    assert rows[2][|Lit("author ")|..] == author && rows[3][|Lit("committer ")|..] == committer;
    assert forall i | 0 <= i < |tree| :: tree[i] in tree;
    assert Lit("commit") + [SPACE] == Lit("commit ");
  }

  /** commit_tree gives the tree of exactly the commits of this layout. */
  lemma CommitTreeIs(raw: Text, pins: Pins, w: World, tree: Text)
    requires ValidPins(pins)
    ensures CommitTree(raw, pins, w) == Ok(tree) <==>
      exists author, committer, message :: PinnedCommit(raw, tree, author, committer, message, pins, w)
  {
    CommitTreeExact(raw, pins, w, tree);
    if CommitTree(raw, pins, w) == Ok(tree) {
      var rows, message :| CommitShape(rows, message, raw, tree, pins, w);
      var author, committer := ShapeIsPinned(rows, message, raw, tree, pins, w);
    }
    forall author, committer, message | PinnedCommit(raw, tree, author, committer, message, pins, w)
      ensures CommitTree(raw, pins, w) == Ok(tree)
    {
      var rows := PinnedIsShape(raw, tree, author, committer, message, pins, w);
    }
  }

  /** What a transfer carries: a pinned commit, and the vector of the pinned digest within its bound. */
  ghost predicate Transferable(commit: Text, vector: Text, pins: Pins, w: World) {
    && (exists tree, author, committer, message :: PinnedCommit(commit, tree, author, committer, message, pins, w))
    && |vector| <= 32768 && w.sha256(vector) == pins.inputSha256
  }

  lemma TreeExists(commit: Text, pins: Pins, w: World)
    requires ValidPins(pins)
    ensures CommitTree(commit, pins, w).Ok? <==>
      exists tree, author, committer, message :: PinnedCommit(commit, tree, author, committer, message, pins, w)
  {
    if CommitTree(commit, pins, w).Ok? { CommitTreeIs(commit, pins, w, CommitTree(commit, pins, w).value); }
    forall tree, author, committer, message | PinnedCommit(commit, tree, author, committer, message, pins, w)
      ensures CommitTree(commit, pins, w).Ok?
    {
      CommitTreeIs(commit, pins, w, tree);
    }
  }

  /** The exporter emits exactly this text, for exactly these pairs. */
  lemma EmitsExactly(commit: Text, vector: Text, pins: Pins, w: World, raw: Text)
    requires IsBytes(commit) && IsBytes(vector) && ValidPins(pins)
    ensures ArtifactBytes(commit, vector, pins, w) == Ok(raw) <==>
      Transferable(commit, vector, pins, w) && raw == DocumentText(ToHex(commit), ToHex(vector), pins)
  {
    TreeExists(commit, pins, w);
    BoundNeverFires(commit, vector, pins, w);
    DocumentPrints(commit, vector, pins);
  }

  /** The parser accepts exactly this text, for exactly these pairs. */
  lemma AcceptsExactly(raw: Text, commit: Text, vector: Text, pins: Pins, w: World)
    requires IsBytes(commit) && IsBytes(vector) && ValidPins(pins) && w.recursion >= 2
    ensures ParseArtifact(raw, pins, w) == Ok((commit, vector)) <==>
      Transferable(commit, vector, pins, w) && raw == DocumentText(ToHex(commit), ToHex(vector), pins)
  {
    ParseIsInverse(raw, commit, vector, pins, w);
    EmitsExactly(commit, vector, pins, w, raw);
  }
}
