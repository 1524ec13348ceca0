/**
  The q13 transfer artifact: one canonical JSON document that carries a commit
  and a vector in hex (scripts/m8_candidate_transfer.py).
 */
module TransferCodec {
  import opened Texts
  import opened Wrappers
  import opened Sorting
  import opened Json
  import opened CanonicalJson

  const MAX_COMMIT := 4096
  const MAX_VECTOR := 32768
  const MAX_ARTIFACT := 80 * 1024
  const MAX_MESSAGE := 2048
  const MAX_PERSON := 512
  const VECTOR_PATH := Lit("tests/vectors/plan_manifest.json")

  datatype Refusal =
    | CommitBound | CandidateIdentity | CommitMetadata | CommitMessage
    | VectorIdentity | ArtifactBound | ArtifactJson | ArtifactShape
    | ArtifactPins | HistoricalPins | HexShape | ArtifactCanonical

  /** What the codec takes from its surroundings; every result holds for all choices. */
  datatype World = World(
    sha1: Text -> Text,
    sha256: Text -> Text,
    decodeUtf8: Text -> Option<Text>,
    printable: Code -> bool,
    recursion: nat)

  datatype Pins = Pins(candidate: Text, base: Text, runId: Text, inputSha256: Text, renderSha256: Text)

  predicate ValidPins(pins: Pins) {
    && LowerHex(pins.candidate) && |pins.candidate| == 40
    && LowerHex(pins.base) && |pins.base| == 40
    && |pins.runId| == 36 && Lit("run-") <= pins.runId && LowerHex(pins.runId[4..])
    && LowerHex(pins.inputSha256) && |pins.inputSha256| == 64
    && LowerHex(pins.renderSha256) && |pins.renderSha256| == 64
  }

  function Historical(pins: Pins): Value {
    Obj([Field(Lit("schema_version"), Int(1)),
         Field(Lit("meaning"), Str(Lit("historical-application-acceptance"))),
         Field(Lit("run_id"), Str(pins.runId)),
         Field(Lit("candidate_commit"), Str(pins.candidate)),
         Field(Lit("input_sha256"), Str(pins.inputSha256)),
         Field(Lit("render_sha256"), Str(pins.renderSha256))])
  }

  // ----- lowercase base16 -----

  function ToHex(bytes: Text): (t: Text)
    requires IsBytes(bytes)
    ensures |t| == 2 * |bytes|
  {
    if bytes == [] then []
    else [HexDigit(bytes[0] / 16), HexDigit(bytes[0] % 16)] + ToHex(bytes[1..])
  }

  function FromHex(t: Text): (bytes: Text)
    requires |t| % 2 == 0 && LowerHex(t)
    ensures |bytes| == |t| / 2
  {
    if t == [] then []
    else [HexValue(t[0]) * 16 + HexValue(t[1])] + FromHex(t[2..])
  }

  lemma {:induction false} HexInverse(bytes: Text)
    requires IsBytes(bytes)
    ensures LowerHex(ToHex(bytes)) && FromHex(ToHex(bytes)) == bytes
  {
    if bytes != [] {
      HexInverse(bytes[1..]);
      var t := ToHex(bytes);
      assert t[2..] == ToHex(bytes[1..]);
      assert bytes == [bytes[0]] + bytes[1..];
    }
  }

  // ----- commit_tree -----

  function ObjectOid(kind: Text, raw: Text, w: World): Text {
    w.sha1(kind + [SPACE] + Digits(|raw|) + [0] + raw)
  }

  predicate TreeRow(row: Text) {
    |row| == 45 && Lit("tree ") <= row && LowerHex(row[5..])
  }

  predicate PersonRow(row: Text, title: Text) {
    && title <= row && 1 <= |row| - |title| <= MAX_PERSON
    && forall c | c in row[|title|..] :: 0x20 <= c <= 0x7e
  }

  predicate HeaderRows(rows: seq<Text>, pins: Pins) {
    && |rows| == 4
    && TreeRow(rows[0]) && rows[1] == Lit("parent ") + pins.base
    && PersonRow(rows[2], Lit("author ")) && PersonRow(rows[3], Lit("committer "))
  }

  predicate ReadableMessage(message: Text, w: World) {
    var text := w.decodeUtf8(message);
    text.Some? && forall c | c in text.value :: c == LF || w.printable(c)
  }

  function CommitTree(raw: Text, pins: Pins, w: World): Result<Text, Refusal> {
    if !(0 < |raw| <= MAX_COMMIT) then Err(CommitBound)
    else if ObjectOid(Lit("commit"), raw, w) != pins.candidate then Err(CandidateIdentity)
    else
      var i := Find(raw, [LF, LF]);
      if i < 0 then Err(CommitMetadata)
      else
        var rows, message := Split(raw[..i], LF), raw[i + 2..];
        if !(0 < |message| <= MAX_MESSAGE && HeaderRows(rows, pins)) then Err(CommitMetadata)
        else if !ReadableMessage(message, w) then Err(CommitMessage)
        else Ok(rows[0][5..])
  }

  /** The commit with these four header rows and this message. */
  function CommitText(rows: seq<Text>, message: Text): Text {
    Join(rows, LF) + [LF, LF] + message
  }

  lemma {:induction false} JoinedRows(rows: seq<Text>)
    requires |rows| >= 1 && forall r | r in rows :: r != [] && LF !in r
    ensures var h := Join(rows, LF);
      h != [] && h[0] != LF && h[|h| - 1] != LF && forall j | 0 <= j < |h| - 1 :: !(h[j] == LF && h[j + 1] == LF)
  {
    var h, r := Join(rows, LF), rows[0];
    assert r in rows;
    if |rows| > 1 {
      var t := Join(rows[1..], LF);
      assert forall q | q in rows[1..] :: q in rows;
      JoinedRows(rows[1..]);
      assert h == r + [LF] + t;
      forall j | 0 <= j < |h| - 1 ensures !(h[j] == LF && h[j + 1] == LF) {
        if j < |r| {
          assert h[j] == r[j];
        } else if j > |r| {
          assert h[j] == t[j - |r| - 1] && h[j + 1] == t[j - |r| - 1 + 1];
        } else {
          assert h[j + 1] == t[0];
        }
      }
      assert h[0] == r[0] && h[|h| - 1] == t[|t| - 1];
    } else {
      assert h == r;
      assert h[0] in r && h[|h| - 1] in r;
    }
  }

  lemma HeaderRowsClean(rows: seq<Text>, pins: Pins)
    requires HeaderRows(rows, pins) && ValidPins(pins)
    ensures forall r | r in rows :: r != [] && LF !in r
  {
    RowClean(rows[0], Lit("tree "));
    RowClean(rows[1], Lit("parent "));
    RowClean(rows[2], Lit("author "));
    RowClean(rows[3], Lit("committer "));
    assert rows[1][7..] == pins.base;
  }

  lemma RowClean(row: Text, title: Text)
    requires title <= row && title != [] && LF !in title
    ensures LF !in row[|title|..] ==> LF !in row
  {
    assert row == title + row[|title|..];
  }

  /** The blank line of a well-formed commit is the first one. */
  lemma BlankLine(rows: seq<Text>, message: Text)
    requires |rows| >= 1 && forall r | r in rows :: r != [] && LF !in r
    ensures Find(CommitText(rows, message), [LF, LF]) == |Join(rows, LF)|
  {
    var h, raw := Join(rows, LF), CommitText(rows, message);
    JoinedRows(rows);
    var n := |h|;
    assert raw[n..] == [LF, LF] + message;
    assert [LF, LF] <= raw[n..];
    forall j | 0 <= j < n ensures !([LF, LF] <= raw[j..]) {
      assert raw[j] == h[j] && (j + 1 < n ==> raw[j + 1] == h[j + 1]);
      assert !(raw[j] == LF && raw[j + 1] == LF);
      assert raw[j..][0] == raw[j] && raw[j..][1] == raw[j + 1];
    }
    var i := Find(raw, [LF, LF]);
    assert i >= 0 ==> [LF, LF] <= raw[i..];
  }

  /** The shape of a commit whose first header row names this tree. */
  predicate CommitShape(rows: seq<Text>, message: Text, raw: Text, tree: Text, pins: Pins, w: World) {
    && HeaderRows(rows, pins) && rows[0] == Lit("tree ") + tree
    && 0 < |message| <= MAX_MESSAGE && ReadableMessage(message, w)
    && raw == CommitText(rows, message)
  }

  lemma AroundPiece(raw: Text, i: nat, piece: Text)
    requires i + |piece| <= |raw| && raw[i..i + |piece|] == piece
    ensures raw == raw[..i] + piece + raw[i + |piece|..]
  {
    assert raw == raw[..i] + raw[i..i + |piece|] + raw[i + |piece|..];
  }

  lemma RowTree(row: Text)
    requires TreeRow(row)
    ensures row == Lit("tree ") + row[5..]
  {
    assert |Lit("tree ")| == 5 && row == row[..5] + row[5..];
  }

  lemma CommitTreeSound(raw: Text, pins: Pins, w: World, tree: Text)
    requires CommitTree(raw, pins, w) == Ok(tree)
    ensures exists rows, message :: CommitShape(rows, message, raw, tree, pins, w)
  {
    var i := Find(raw, [LF, LF]);
    var rows, message := Split(raw[..i], LF), raw[i + 2..];
    AroundPiece(raw, i, [LF, LF]);
    JoinSplit(raw[..i], LF);
    RowTree(rows[0]);
    assert CommitShape(rows, message, raw, tree, pins, w);
  }

  lemma CommitTreeComplete(rows: seq<Text>, message: Text, raw: Text, tree: Text, pins: Pins, w: World)
    requires ValidPins(pins) && CommitShape(rows, message, raw, tree, pins, w)
    requires |raw| <= MAX_COMMIT && ObjectOid(Lit("commit"), raw, w) == pins.candidate
    ensures CommitTree(raw, pins, w) == Ok(tree)
  {
    HeaderRowsClean(rows, pins);
    BlankLine(rows, message);
    SplitJoin(rows, LF);
    var i := Find(raw, [LF, LF]);
    assert raw[..i] == Join(rows, LF) && raw[i + 2..] == message;
    assert rows[0][5..] == tree;
  }

  /** commit_tree accepts exactly the bounded commits of that shape under the pinned id. */
  lemma CommitTreeExact(raw: Text, pins: Pins, w: World, tree: Text)
    requires ValidPins(pins)
    ensures CommitTree(raw, pins, w) == Ok(tree) <==>
      && |raw| <= MAX_COMMIT && ObjectOid(Lit("commit"), raw, w) == pins.candidate
      && exists rows, message :: CommitShape(rows, message, raw, tree, pins, w)
  {
    if CommitTree(raw, pins, w) == Ok(tree) { CommitTreeSound(raw, pins, w, tree); }
    if |raw| <= MAX_COMMIT && ObjectOid(Lit("commit"), raw, w) == pins.candidate {
      forall rows, message | CommitShape(rows, message, raw, tree, pins, w)
        ensures CommitTree(raw, pins, w) == Ok(tree)
      {
        CommitTreeComplete(rows, message, raw, tree, pins, w);
      }
    }
  }

  // ----- artifact_bytes and parse_artifact -----

  function ArtifactValue(commit: Text, vector: Text, pins: Pins, path: Text): Value
    requires IsBytes(commit) && IsBytes(vector)
  {
    Obj([Field(Lit("schema_version"), Int(1)),
         Field(Lit("base_commit"), Str(pins.base)),
         Field(Lit("candidate_commit"), Str(pins.candidate)),
         Field(Lit("path"), Str(path)),
         Field(Lit("mode"), Str(Lit("100644"))),
         Field(Lit("commit_hex"), Str(ToHex(commit))),
         Field(Lit("vector_hex"), Str(ToHex(vector))),
         Field(Lit("historical"), Historical(pins))])
  }

  function ArtifactBytes(commit: Text, vector: Text, pins: Pins, w: World): Result<Text, Refusal>
    requires IsBytes(commit) && IsBytes(vector)
  {
    var _ :- CommitTree(commit, pins, w);
    if !(|vector| <= MAX_VECTOR && w.sha256(vector) == pins.inputSha256) then Err(VectorIdentity)
    else
      var raw := Canonical(ArtifactValue(commit, vector, pins, VECTOR_PATH));
      if |raw| > MAX_ARTIFACT then Err(ArtifactBound) else Ok(raw)
  }

  function ArtifactKeys(): set<Text> {
    {Lit("schema_version"), Lit("base_commit"), Lit("candidate_commit"), Lit("path"), Lit("mode"),
     Lit("commit_hex"), Lit("vector_hex"), Lit("historical")}
  }

  predicate HexField(v: Option<Value>, bound: nat) {
    v.Some? && v.value.Str? && |v.value.s| <= 2 * bound && |v.value.s| % 2 == 0 && LowerHex(v.value.s)
  }

  function ParseArtifact(raw: Text, pins: Pins, w: World): Result<(Text, Text), Refusal> {
    if !(0 < |raw| <= MAX_ARTIFACT) then Err(ArtifactBound)
    else
      var loaded := if IsAscii(raw) then Loads(raw, w.recursion) else None;
      if loaded.None? || !UniqueKeys(loaded.value) then Err(ArtifactJson)
      else if !(loaded.value.Obj? && Names(loaded.value.fields) == ArtifactKeys()) then Err(ArtifactShape)
      else ParseFields(raw, loaded.value.fields, pins, w)
  }

  predicate PinnedFields(fields: seq<Field>, pins: Pins) {
    && Lookup(fields, Lit("schema_version")) == Some(Int(1))
    && Lookup(fields, Lit("base_commit")) == Some(Str(pins.base))
    && Lookup(fields, Lit("candidate_commit")) == Some(Str(pins.candidate))
    && Lookup(fields, Lit("path")) == Some(Str(VECTOR_PATH))
    && Lookup(fields, Lit("mode")) == Some(Str(Lit("100644")))
  }

  predicate HistoricalMatches(v: Option<Value>, pins: Pins) {
    v.Some? && v.value.Obj? && Canonical(v.value) == Canonical(Historical(pins))
  }

  /** The checks after the document is known to be an object with the right keys. */
  function ParseFields(raw: Text, fields: seq<Field>, pins: Pins, w: World): Result<(Text, Text), Refusal> {
    if !PinnedFields(fields, pins) then Err(ArtifactPins)
    else if !HistoricalMatches(Lookup(fields, Lit("historical")), pins) then Err(HistoricalPins)
    else ParseHex(raw, Lookup(fields, Lit("commit_hex")), Lookup(fields, Lit("vector_hex")), pins, w)
  }

  function ParseHex(raw: Text, commitHex: Option<Value>, vectorHex: Option<Value>, pins: Pins, w: World)
    : Result<(Text, Text), Refusal>
  {
    if !(HexField(commitHex, MAX_COMMIT) && HexField(vectorHex, MAX_VECTOR)) then Err(HexShape)
    else
      var commit, vector := FromHex(commitHex.value.s), FromHex(vectorHex.value.s);
      FromHexBytes(commitHex.value.s);
      FromHexBytes(vectorHex.value.s);
      match ArtifactBytes(commit, vector, pins, w)
      case Err(reason) => Err(reason)
      case Ok(again) => if raw == again then Ok((commit, vector)) else Err(ArtifactCanonical)
  }

  lemma {:induction false} FromHexBytes(t: Text)
    requires |t| % 2 == 0 && LowerHex(t)
    ensures IsBytes(FromHex(t))
  {
    if t != [] { FromHexBytes(t[2..]); }
  }

  /** parse_artifact, with its loop over the two hex fields. */
  method Parse(raw: Text, pins: Pins, w: World) returns (r: Result<(Text, Text), Refusal>)
    ensures r == ParseArtifact(raw, pins, w)
  {
    if !(0 < |raw| <= MAX_ARTIFACT) {
      return Err(ArtifactBound);
    }
    var loaded := if IsAscii(raw) then Loads(raw, w.recursion) else None;
    if loaded.None? || !UniqueKeys(loaded.value) {
      return Err(ArtifactJson);
    }
    if !(loaded.value.Obj? && Names(loaded.value.fields) == ArtifactKeys()) {
      return Err(ArtifactShape);
    }
    r := ParsePayload(raw, loaded.value.fields, pins, w);
  }

  method ParsePayload(raw: Text, fields: seq<Field>, pins: Pins, w: World) returns (r: Result<(Text, Text), Refusal>)
    ensures r == ParseFields(raw, fields, pins, w)
  {
    if !PinnedFields(fields, pins) {
      return Err(ArtifactPins);
    }
    if !HistoricalMatches(Lookup(fields, Lit("historical")), pins) {
      return Err(HistoricalPins);
    }
    var encoded := [(Lookup(fields, Lit("commit_hex")), MAX_COMMIT), (Lookup(fields, Lit("vector_hex")), MAX_VECTOR)];
    var decoded: seq<Text> := [];
    for i := 0 to 2
      invariant |decoded| == i
      invariant forall j | 0 <= j < i :: HexField(encoded[j].0, encoded[j].1) && decoded[j] == FromHex(encoded[j].0.value.s)
    {
      if !HexField(encoded[i].0, encoded[i].1) {
        return Err(HexShape);
      }
      decoded := decoded + [FromHex(encoded[i].0.value.s)];
    }
    FromHexBytes(encoded[0].0.value.s);
    FromHexBytes(encoded[1].0.value.s);
    var again := ArtifactBytes(decoded[0], decoded[1], pins, w);
    if again.Err? {
      return Err(again.error);
    }
    r := if raw == again.value then Ok((decoded[0], decoded[1])) else Err(ArtifactCanonical);
  }

  // ----- the emitted document is simple, plain and read back -----

  lemma LitPlain(s: string)
    requires forall i | 0 <= i < |s| :: Plain(s[i] as int)
    ensures PlainText(Lit(s))
  {}

  lemma PlainUnpaired(t: Text)
    requires PlainText(t)
    ensures !Paired(t)
  {
    forall i | 0 <= i < |t| - 1 ensures !High(t[i]) { assert t[i] in t; }
  }

  lemma HexPlain(t: Text)
    requires LowerHex(t)
    ensures PlainText(t)
  {}

  lemma PinsPlain(pins: Pins)
    requires ValidPins(pins)
    ensures PlainText(pins.candidate) && PlainText(pins.base) && PlainText(pins.runId)
    ensures PlainText(pins.inputSha256) && PlainText(pins.renderSha256)
  {
    assert pins.runId == pins.runId[..4] + pins.runId[4..];
    LitPlain("run-");
  }

  lemma HistoricalNamesPlain()
    ensures PlainText(Lit("schema_version")) && PlainText(Lit("meaning")) && PlainText(Lit("run_id"))
    ensures PlainText(Lit("candidate_commit")) && PlainText(Lit("input_sha256")) && PlainText(Lit("render_sha256"))
    ensures PlainText(Lit("historical-application-acceptance"))
  {
    LitPlain("schema_version");
    LitPlain("meaning");
    LitPlain("run_id");
    LitPlain("candidate_commit");
    LitPlain("input_sha256");
    LitPlain("render_sha256");
    LitPlain("historical-application-acceptance");
  }

  lemma ArtifactNamesPlain()
    ensures PlainText(Lit("schema_version")) && PlainText(Lit("base_commit")) && PlainText(Lit("candidate_commit"))
    ensures PlainText(Lit("path")) && PlainText(Lit("mode")) && PlainText(Lit("100644"))
    ensures PlainText(Lit("commit_hex")) && PlainText(Lit("vector_hex")) && PlainText(Lit("historical"))
  {
    LitPlain("schema_version");
    LitPlain("base_commit");
    LitPlain("candidate_commit");
    LitPlain("path");
    LitPlain("mode");
    LitPlain("100644");
    LitPlain("commit_hex");
    LitPlain("vector_hex");
    LitPlain("historical");
  }

  lemma VectorPathPlain()
    ensures PlainText(VECTOR_PATH) && |VECTOR_PATH| <= 4096
  {
    LitPlain("tests/vectors/plan_manifest.json");
  }

  /** The size of an object, field by field. */
  lemma {:induction false} FieldsSizeBound(fields: seq<Field>, bounds: seq<nat>)
    requires |fields| == |bounds|
    requires forall i | 0 <= i < |fields| :: PlainText(fields[i].name) && PlainValue(fields[i].value)
    requires forall i | 0 <= i < |fields| :: |fields[i].name| + 4 + Size(fields[i].value) <= bounds[i]
    ensures FieldsSize(fields) <= Total(bounds)
  {
    if fields != [] { FieldsSizeBound(fields[1..], bounds[1..]); }
  }

  function Total(bounds: seq<nat>): nat {
    if bounds == [] then 0 else bounds[0] + Total(bounds[1..])
  }

  lemma HistoricalPlain(pins: Pins)
    requires ValidPins(pins)
    ensures PlainValue(Historical(pins)) && Size(Historical(pins)) <= 1024
  {
    PinsPlain(pins);
    HistoricalNamesPlain();
    FieldsSizeBound(Historical(pins).fields, [20, 46, 48, 62, 82, 83]);
    assert Total([20, 46, 48, 62, 82, 83]) <= 1023;
  }

  lemma ArtifactFieldsPlain(commit: Text, vector: Text, pins: Pins, path: Text)
    requires IsBytes(commit) && IsBytes(vector) && ValidPins(pins) && PlainText(path)
    ensures PlainValue(ArtifactValue(commit, vector, pins, path))
  {
    PinsPlain(pins);
    HistoricalPlain(pins);
    HexInverse(commit);
    HexInverse(vector);
    HexPlain(ToHex(commit));
    HexPlain(ToHex(vector));
    ArtifactNamesPlain();
  }

  /** The field bounds alone keep the document under 80 KiB, for any plain path. */
  lemma ArtifactSize(commit: Text, vector: Text, pins: Pins, path: Text)
    requires IsBytes(commit) && IsBytes(vector) && ValidPins(pins)
    requires |commit| <= MAX_COMMIT && |vector| <= MAX_VECTOR && PlainText(path) && |path| <= 4096
    ensures PlainValue(ArtifactValue(commit, vector, pins, path))
    ensures |Canonical(ArtifactValue(commit, vector, pins, path))| < MAX_ARTIFACT
  {
    ArtifactFieldsPlain(commit, vector, pins, path);
    HistoricalPlain(pins);
    var v := ArtifactValue(commit, vector, pins, path);
    var bounds: seq<nat> := [30, 60, 70, 4110, 30, 8220, 65560, 1040];
    FieldsSizeBound(v.fields, bounds);
    CanonicalSize(v);
  }

  // ----- the two functions are inverse -----

  lemma PlainSimple(v: Value, depth: nat)
    requires PlainValue(v) && Within(v, depth)
    ensures Simple(v, depth)
    decreases v
  {
    match v
    case Str(s) => PlainUnpaired(s);
    case Obj(fields) =>
      forall i | 0 <= i < |fields| ensures !Paired(fields[i].name) && Simple(fields[i].value, depth - 1) {
        PlainUnpaired(fields[i].name);
        PlainSimple(fields[i].value, depth - 1);
      }
    case _ =>
  }

  lemma ArtifactWithin(commit: Text, vector: Text, pins: Pins, path: Text, depth: nat)
    requires IsBytes(commit) && IsBytes(vector) && depth >= 2
    ensures Within(ArtifactValue(commit, vector, pins, path), depth)
  {
    assert Within(Historical(pins), depth - 1);
  }

  /** The emitted document is ASCII and loads as the artifact with its keys in order. */
  lemma LoadsArtifact(commit: Text, vector: Text, pins: Pins, depth: nat)
    requires IsBytes(commit) && IsBytes(vector) && ValidPins(pins) && depth >= 2
    ensures var v := ArtifactValue(commit, vector, pins, VECTOR_PATH);
      IsAscii(Canonical(v)) && Loads(Canonical(v), depth) == Some(SortKeys(v))
  {
    var v := ArtifactValue(commit, vector, pins, VECTOR_PATH);
    VectorPathPlain();
    ArtifactFieldsPlain(commit, vector, pins, VECTOR_PATH);
    ArtifactWithin(commit, vector, pins, VECTOR_PATH, depth);
    PlainSimple(v, depth);
    LoadsCanonical(v, depth);
    CanonicalAscii(v, depth);
    var raw := Canonical(v);
    assert forall i | 0 <= i < |raw| :: raw[i] in raw;
  }

  lemma HistoricalUnique(pins: Pins)
    ensures UniqueKeys(Historical(pins))
  {
    assert Lit("run_id")[0] == 114;
    assert Lit("schema_version")[0] == 115;
  }

  lemma ArtifactNamesDistinct(fields: seq<Field>)
    requires |fields| == 8
    requires fields[0].name == Lit("schema_version") && fields[1].name == Lit("base_commit")
    requires fields[2].name == Lit("candidate_commit") && fields[3].name == Lit("path")
    requires fields[4].name == Lit("mode") && fields[5].name == Lit("commit_hex")
    requires fields[6].name == Lit("vector_hex") && fields[7].name == Lit("historical")
    ensures DistinctNames(fields)
  {
    assert Lit("path")[0] == 112 && Lit("mode")[0] == 109;
    assert Lit("commit_hex")[0] == 99 && Lit("vector_hex")[0] == 118 && Lit("historical")[0] == 104;
  }

  lemma ArtifactUnique(commit: Text, vector: Text, pins: Pins)
    requires IsBytes(commit) && IsBytes(vector)
    ensures UniqueKeys(ArtifactValue(commit, vector, pins, VECTOR_PATH))
  {
    HistoricalUnique(pins);
    ArtifactNamesDistinct(ArtifactValue(commit, vector, pins, VECTOR_PATH).fields);
  }

  lemma EightNames(f: seq<Field>)
    requires |f| == 8
    ensures Names(f) == {f[0].name, f[1].name, f[2].name, f[3].name, f[4].name, f[5].name, f[6].name, f[7].name}
  {
    assert f[0] in f && f[1] in f && f[2] in f && f[3] in f && f[4] in f && f[5] in f && f[6] in f && f[7] in f;
  }

  lemma ArtifactNames(commit: Text, vector: Text, pins: Pins)
    requires IsBytes(commit) && IsBytes(vector)
    ensures Names(ArtifactValue(commit, vector, pins, VECTOR_PATH).fields) == ArtifactKeys()
  {
    EightNames(ArtifactValue(commit, vector, pins, VECTOR_PATH).fields);
  }

  /** What the parser looks up in the sorted document. */
  lemma ArtifactLookups(commit: Text, vector: Text, pins: Pins, f: Field)
    requires IsBytes(commit) && IsBytes(vector)
    requires f in ArtifactValue(commit, vector, pins, VECTOR_PATH).fields
    ensures Lookup(SortKeys(ArtifactValue(commit, vector, pins, VECTOR_PATH)).fields, f.name) == Some(SortKeys(f.value))
  {
    ArtifactUnique(commit, vector, pins);
    var v := ArtifactValue(commit, vector, pins, VECTOR_PATH);
    SortedObject(v.fields);
    LookupDistinct(SortKeys(v).fields, Field(f.name, SortKeys(f.value)));
  }

  lemma HistoricalAccepted(pins: Pins)
    ensures HistoricalMatches(Some(SortKeys(Historical(pins))), pins)
  {
    SortKeysIdempotent(Historical(pins));
  }

  lemma HexAccepted(raw: Text, commit: Text, vector: Text, pins: Pins, w: World)
    requires IsBytes(commit) && IsBytes(vector)
    requires ArtifactBytes(commit, vector, pins, w) == Ok(raw)
    ensures ParseHex(raw, Some(Str(ToHex(commit))), Some(Str(ToHex(vector))), pins, w) == Ok((commit, vector))
  {
    HexInverse(commit);
    HexInverse(vector);
  }

  lemma PinnedEmitted(commit: Text, vector: Text, pins: Pins)
    requires IsBytes(commit) && IsBytes(vector)
    ensures PinnedFields(SortKeys(ArtifactValue(commit, vector, pins, VECTOR_PATH)).fields, pins)
  {
    var f := ArtifactValue(commit, vector, pins, VECTOR_PATH).fields;
    ArtifactLookups(commit, vector, pins, f[0]);
    ArtifactLookups(commit, vector, pins, f[1]);
    ArtifactLookups(commit, vector, pins, f[2]);
    ArtifactLookups(commit, vector, pins, f[3]);
    ArtifactLookups(commit, vector, pins, f[4]);
  }

  lemma PayloadEmitted(commit: Text, vector: Text, pins: Pins)
    requires IsBytes(commit) && IsBytes(vector)
    ensures var fields := SortKeys(ArtifactValue(commit, vector, pins, VECTOR_PATH)).fields;
      && Lookup(fields, Lit("commit_hex")) == Some(Str(ToHex(commit)))
      && Lookup(fields, Lit("vector_hex")) == Some(Str(ToHex(vector)))
      && Lookup(fields, Lit("historical")) == Some(SortKeys(Historical(pins)))
  {
    var f := ArtifactValue(commit, vector, pins, VECTOR_PATH).fields;
    ArtifactLookups(commit, vector, pins, f[5]);
    ArtifactLookups(commit, vector, pins, f[6]);
    ArtifactLookups(commit, vector, pins, f[7]);
  }

  lemma ParseEmitted(commit: Text, vector: Text, pins: Pins, w: World, raw: Text)
    requires IsBytes(commit) && IsBytes(vector) && ValidPins(pins)
    requires ArtifactBytes(commit, vector, pins, w) == Ok(raw)
    ensures ParseFields(raw, SortKeys(ArtifactValue(commit, vector, pins, VECTOR_PATH)).fields, pins, w)
              == Ok((commit, vector))
  {
    PinnedEmitted(commit, vector, pins);
    PayloadEmitted(commit, vector, pins);
    HistoricalAccepted(pins);
    HexAccepted(raw, commit, vector, pins, w);
  }

  lemma ParseLoaded(raw: Text, v: Value, pins: Pins, w: World)
    requires 0 < |raw| <= MAX_ARTIFACT && IsAscii(raw) && Loads(raw, w.recursion) == Some(v)
    requires UniqueKeys(v) && v.Obj? && Names(v.fields) == ArtifactKeys()
    ensures ParseArtifact(raw, pins, w) == ParseFields(raw, v.fields, pins, w)
  {}

  lemma CanonicalNonempty(v: Value)
    requires v.Obj?
    ensures Canonical(v) != []
  {}

  lemma ParseOfEmitted(raw: Text, commit: Text, vector: Text, pins: Pins, w: World)
    requires IsBytes(commit) && IsBytes(vector) && ValidPins(pins) && w.recursion >= 2
    requires ArtifactBytes(commit, vector, pins, w) == Ok(raw)
    ensures ParseArtifact(raw, pins, w) == Ok((commit, vector))
  {
    var v := ArtifactValue(commit, vector, pins, VECTOR_PATH);
    assert raw == Canonical(v);
    CanonicalNonempty(v);
    LoadsArtifact(commit, vector, pins, w.recursion);
    ArtifactUnique(commit, vector, pins);
    ArtifactNames(commit, vector, pins);
    SortKeysUnique(v);
    SortedObject(v.fields);
    ParseEmitted(commit, vector, pins, w, raw);
    ParseLoaded(raw, SortKeys(v), pins, w);
  }

  lemma ParsedIsEmitted(raw: Text, commit: Text, vector: Text, pins: Pins, w: World)
    requires ParseArtifact(raw, pins, w) == Ok((commit, vector))
    ensures IsBytes(commit) && IsBytes(vector)
    ensures ArtifactBytes(commit, vector, pins, w) == Ok(raw)
  {
    var fields := Loads(raw, w.recursion).value.fields;
    assert ParseFields(raw, fields, pins, w) == Ok((commit, vector));
    FieldsEmitted(raw, fields, commit, vector, pins, w);
  }

  lemma FieldsEmitted(raw: Text, fields: seq<Field>, commit: Text, vector: Text, pins: Pins, w: World)
    requires ParseFields(raw, fields, pins, w) == Ok((commit, vector))
    ensures IsBytes(commit) && IsBytes(vector)
    ensures ArtifactBytes(commit, vector, pins, w) == Ok(raw)
  {
    var c, v := Lookup(fields, Lit("commit_hex")).value.s, Lookup(fields, Lit("vector_hex")).value.s;
    FromHexBytes(c);
    FromHexBytes(v);
    assert ParseHex(raw, Some(Str(c)), Some(Str(v)), pins, w) == Ok((commit, vector));
  }

  /** parse_artifact returns a pair exactly from the bytes artifact_bytes emits for it. */
  lemma ParseIsInverse(raw: Text, commit: Text, vector: Text, pins: Pins, w: World)
    requires IsBytes(commit) && IsBytes(vector) && ValidPins(pins) && w.recursion >= 2
    ensures ParseArtifact(raw, pins, w) == Ok((commit, vector)) <==> ArtifactBytes(commit, vector, pins, w) == Ok(raw)
  {
    if ArtifactBytes(commit, vector, pins, w) == Ok(raw) { ParseOfEmitted(raw, commit, vector, pins, w); }
    if ParseArtifact(raw, pins, w) == Ok((commit, vector)) { ParsedIsEmitted(raw, commit, vector, pins, w); }
  }

  /** A document carries one pair only. */
  lemma ArtifactInjective(c1: Text, v1: Text, c2: Text, v2: Text, pins: Pins, w: World, raw: Text)
    requires IsBytes(c1) && IsBytes(v1) && IsBytes(c2) && IsBytes(v2) && ValidPins(pins) && w.recursion >= 2
    requires ArtifactBytes(c1, v1, pins, w) == Ok(raw) && ArtifactBytes(c2, v2, pins, w) == Ok(raw)
    ensures c1 == c2 && v1 == v2
  {
    ParseIsInverse(raw, c1, v1, pins, w);
    ParseIsInverse(raw, c2, v2, pins, w);
  }

  /** The artifact bound refuses nothing the identities accept. */
  lemma BoundNeverFires(commit: Text, vector: Text, pins: Pins, w: World)
    requires IsBytes(commit) && IsBytes(vector) && ValidPins(pins)
    ensures ArtifactBytes(commit, vector, pins, w).Ok? <==>
      CommitTree(commit, pins, w).Ok? && |vector| <= MAX_VECTOR && w.sha256(vector) == pins.inputSha256
    ensures ArtifactBytes(commit, vector, pins, w).Ok? ==>
      |ArtifactBytes(commit, vector, pins, w).value| < MAX_ARTIFACT
  {
    if CommitTree(commit, pins, w).Ok? && |vector| <= MAX_VECTOR {
      VectorPathPlain();
      ArtifactSize(commit, vector, pins, VECTOR_PATH);
    }
  }
}
