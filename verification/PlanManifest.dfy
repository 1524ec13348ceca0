/** Refreshing the manifest of plan documents (scripts/regen_plan_manifest.py). */
module PlanManifest {
  import opened Texts
  import opened Wrappers
  import opened Lines
  import opened PathParts

  const BACKSLASH: Code := 92
  const COLON: Code := 58
  const SUFFIX := [DOT, 109, 100]  // ".md"
  const GAP := [SPACE, SPACE]

  function Markers(): seq<Text> { [Lit("<<<<<<<"), Lit("|||||||"), Lit("======="), Lit(">>>>>>>")] }

  // ----- plan_path -----

  /** The last part's suffix is ".md", which needs something before the dot. */
  predicate HasSuffix(parts: seq<Text>) {
    parts != [] && |parts[|parts| - 1]| > 3 && parts[|parts| - 1][|parts[|parts| - 1]| - 3..] == SUFFIX
  }

  predicate PlanPath(path: Text) {
    && Relative(path) && Render(Parts(path)) == path && DOTDOT !in Parts(path)
    && BACKSLASH !in path && COLON !in path && LF !in path && CR !in path
    && HasSuffix(Parts(path))
  }

  // ----- dicts: keys in insertion order -----

  datatype Dict = Dict(keys: seq<Text>, values: map<Text, Text>) {
    ghost predicate Valid() {
      && (forall k :: k in keys <==> k in values)
      && forall i, j | 0 <= i < j < |keys| :: keys[i] != keys[j]
    }

    /** self[k] = v */
    function Put(k: Text, v: Text): Dict {
      Dict(if k in values then keys else keys + [k], values[k := v])
    }
  }

  const EMPTY := Dict([], map[])

  lemma PutValid(d: Dict, k: Text, v: Text)
    requires d.Valid()
    ensures d.Put(k, v).Valid()
  {}

  // ----- entries -----

  /** `not line.strip()`, the test of a path, which is `plan_path`, and the test of its suffix. */
  datatype Reader = Reader(blank: Text -> bool, accepts: Text -> bool, document: Text -> bool)

  /** What str.strip removes. */
  predicate IsSpace(c: Code) {
    9 <= c <= 13 || 28 <= c <= 32 || c == 133 || c == 160 || c == 5760 || 8192 <= c <= 8202
    || c in [8232, 8233, 8239, 8287, 12288]
  }

  predicate Blank(line: Text) { forall i | 0 <= i < |line| :: IsSpace(line[i]) }

  /** This program's reader. */
  function ManifestReader(): Reader { Reader(Blank, PlanPath, (path: Text) => HasSuffix(Parts(path))) }

  datatype Row = Row(digest: Text, path: Text)

  predicate Marked(line: Text) { exists i | 0 <= i < 4 :: Markers()[i] <= line }

  /** One line: an entry, nothing for a blank line, or None where it is refused. */
  function LineEntry(line: Text, reader: Reader): Option<Option<Row>> {
    if Marked(line) then None
    else if reader.blank(line) then Some(None)
    else
      var i := Find(line, GAP);
      if i < 0 then None
      else
        var digest, path := line[..i], line[i + 2..];
        if IsDigest(digest) && reader.accepts(path) then Some(Some(Row(digest, path))) else None
  }

  function Collect(lines: seq<Text>, found: Dict, reader: Reader): Option<Dict> {
    if lines == [] then Some(found)
    else
      var e :- LineEntry(lines[0], reader);
      match e
      case None => Collect(lines[1..], found, reader)
      case Some(entry) =>
        if entry.path in found.values then None
        else Collect(lines[1..], found.Put(entry.path, entry.digest), reader)
  }

  /** What entries(blob) computes from decoded text. */
  function Entries(text: Text, reader: Reader): Option<Dict> {
    Collect(Splitlines(text), EMPTY, reader)
  }

  method ReadEntries(text: Text, reader: Reader) returns (r: Option<Dict>)
    ensures r == Entries(text, reader)
  {
    var lines, found := Splitlines(text), EMPTY;
    for i := 0 to |lines|
      invariant Collect(lines, EMPTY, reader) == Collect(lines[i..], found, reader)
    {
      assert lines[i..][0] == lines[i] && lines[i..][1..] == lines[i + 1..];
      var e := LineEntry(lines[i], reader);
      if e.None? {
        return None;
      }
      if e.value.Some? {
        if e.value.value.path in found.values {
          return None;
        }
        found := found.Put(e.value.value.path, e.value.value.digest);
      }
    }
    assert lines[|lines|..] == [];
    r := Some(found);
  }

  /** f"{digest}  {path}" */
  function LineOf(path: Text, digest: Text): Text { digest + GAP + path }

  function LinesOf(d: Dict, keys: seq<Text>): (r: seq<Text>)
    requires forall k | k in keys :: k in d.values
    ensures |r| == |keys| && forall i | 0 <= i < |r| :: r[i] == LineOf(keys[i], d.values[keys[i]])
  {
    seq(|keys|, i requires 0 <= i < |keys| => LineOf(keys[i], d.values[keys[i]]))
  }

  /** The text written for a dict. */
  function Print(d: Dict): Text
    requires d.Valid()
  {
    Unlines(LinesOf(d, d.keys))
  }

  /** A dict of accepted paths and digests. */
  ghost predicate Proper(d: Dict, reader: Reader) {
    d.Valid() && forall k | k in d.values :: reader.accepts(k) && IsDigest(d.values[k])
  }

  /** A line that starts with a digest is not blank. */
  ghost predicate Sighted(reader: Reader) {
    forall t: Text | |t| >= 64 && IsDigest(t[..64]) :: !reader.blank(t)
  }

  // ----- printing and reading back -----

  lemma NotMarked(line: Text)
    requires line != [] && (IsDigit(line[0]) || 97 <= line[0] <= 102)
    ensures !Marked(line)
  {
    var m := Markers();
    assert m[0][0] == 60 && m[1][0] == 124 && m[2][0] == 61 && m[3][0] == 62;
  }

  lemma FindFirst(s: Text, p: Text, n: nat)
    requires n <= |s| && p != [] && p <= s[n..] && forall j | 0 <= j < n :: s[j] != p[0]
    ensures Find(s, p) == n
  {
    var i := Find(s, p);
    assert i >= 0 ==> s[i..i + |p|][0] == s[i];
  }

  lemma DigestFirst(digest: Text, path: Text)
    requires IsDigest(digest)
    ensures Find(LineOf(path, digest), GAP) == 64 && !Marked(LineOf(path, digest))
    ensures LineOf(path, digest)[..64] == digest && LineOf(path, digest)[66..] == path
  {
    var line := LineOf(path, digest);
    assert line[64..] == GAP + path;
    forall j | 0 <= j < 64 ensures line[j] != GAP[0] { assert line[j] == digest[j]; }
    FindFirst(line, GAP, 64);
    NotMarked(line);
  }

  lemma LineReadBack(digest: Text, path: Text, reader: Reader)
    requires IsDigest(digest) && reader.accepts(path) && Sighted(reader)
    ensures LineEntry(LineOf(path, digest), reader) == Some(Some(Row(digest, path)))
  {
    DigestFirst(digest, path);
    var line := LineOf(path, digest);
    assert IsDigest(line[..64]);
  }

  lemma DigestUnbroken(digest: Text)
    requires IsDigest(digest)
    ensures Unbroken(digest + GAP)
  {}

  lemma LineUnbroken(digest: Text, path: Text)
    requires IsDigest(digest)
    ensures Unbroken(LineOf(path, digest)) <==> Unbroken(path)
  {
    var line := LineOf(path, digest);
    DigestUnbroken(digest);
    if Unbroken(line) {
      forall i | 0 <= i < |path| ensures !IsBreak(path[i]) { assert line[66 + i] == path[i]; }
    }
    if Unbroken(path) {
      forall i | 0 <= i < |line| ensures !IsBreak(line[i]) {
        if i < 66 { assert line[i] == (digest + GAP)[i]; } else { assert line[i] == path[i - 66]; }
      }
    }
  }

  /** The dict of the first n keys. */
  function Upto(d: Dict, n: nat): Dict
    requires n <= |d.keys| && forall k | k in d.keys :: k in d.values
  {
    Dict(d.keys[..n], map k | k in d.keys[..n] :: d.values[k])
  }

  lemma UptoMore(d: Dict, n: nat)
    requires d.Valid() && n < |d.keys|
    ensures d.keys[n] !in Upto(d, n).values
    ensures Upto(d, n).Put(d.keys[n], d.values[d.keys[n]]) == Upto(d, n + 1)
  {
    var more := Upto(d, n).Put(d.keys[n], d.values[d.keys[n]]);
    assert d.keys[..n + 1] == d.keys[..n] + [d.keys[n]];
    assert more.values.Keys == Upto(d, n + 1).values.Keys;
    assert more.values == Upto(d, n + 1).values;
  }

  lemma CollectStep(lines: seq<Text>, n: nat, found: Dict, row: Row, reader: Reader)
    requires n < |lines| && LineEntry(lines[n], reader) == Some(Some(row)) && row.path !in found.values
    ensures Collect(lines[n..], found, reader) == Collect(lines[n + 1..], found.Put(row.path, row.digest), reader)
  {
    assert lines[n..][0] == lines[n] && lines[n..][1..] == lines[n + 1..];
  }

  lemma UptoAll(d: Dict)
    requires d.Valid()
    ensures Upto(d, |d.keys|) == d && Upto(d, 0) == EMPTY
  {
    assert d.keys[..|d.keys|] == d.keys;
    assert Upto(d, |d.keys|).values.Keys == d.values.Keys;
    assert Upto(d, |d.keys|).values == d.values;
    assert Upto(d, 0).values.Keys == {};
  }

  lemma {:induction false} CollectPrinted(d: Dict, n: nat, reader: Reader)
    requires Proper(d, reader) && Sighted(reader) && n <= |d.keys|
    ensures Collect(LinesOf(d, d.keys)[n..], Upto(d, n), reader) == Some(d)
    decreases |d.keys| - n
  {
    var lines := LinesOf(d, d.keys);
    if n == |d.keys| {
      UptoAll(d);
      assert lines[n..] == [];
    } else {
      var k := d.keys[n];
      assert k in d.keys;
      LineReadBack(d.values[k], k, reader);
      UptoMore(d, n);
      CollectStep(lines, n, Upto(d, n), Row(d.values[k], k), reader);
      CollectPrinted(d, n + 1, reader);
    }
  }

  ghost predicate AllUnbroken(keys: seq<Text>) {
    forall i | 0 <= i < |keys| :: Unbroken(keys[i])
  }

  lemma PrintedReadsBack(d: Dict, reader: Reader)
    requires Proper(d, reader) && Sighted(reader) && AllUnbroken(d.keys)
    ensures Entries(Print(d), reader) == Some(d)
  {
    var lines := LinesOf(d, d.keys);
    forall l | l in lines ensures Unbroken(l) {
      var i :| 0 <= i < |lines| && lines[i] == l;
      LineUnbroken(d.values[d.keys[i]], d.keys[i]);
    }
    SplitUnlines(lines);
    UptoAll(d);
    assert lines[0..] == lines;
    CollectPrinted(d, 0, reader);
  }

  lemma UnbrokenTail(t: Text, i: nat)
    requires i <= |t| && Unbroken(t)
    ensures Unbroken(t[i..])
  {}

  /** Paths that were read are free of line breaks. */
  lemma {:induction false} CollectedUnbroken(lines: seq<Text>, found: Dict, reader: Reader)
    requires (forall l | l in lines :: Unbroken(l)) && found.Valid() && forall k | k in found.values :: Unbroken(k)
    ensures Collect(lines, found, reader).Some? ==>
      var d := Collect(lines, found, reader).value; d.Valid() && forall k | k in d.values :: Unbroken(k)
  {
    if lines != [] {
      var e := LineEntry(lines[0], reader);
      if e.Some? {
        if e.value.None? {
          CollectedUnbroken(lines[1..], found, reader);
        } else if e.value.value.path !in found.values {
          var i := Find(lines[0], GAP);
          assert lines[0] in lines;
          UnbrokenTail(lines[0], i + 2);
          CollectedUnbroken(lines[1..], found.Put(e.value.value.path, e.value.value.digest), reader);
        }
      }
    }
  }

  /** A manifest is read back as it was written exactly when no path holds a character that splitlines breaks on. */
  lemma ReadBackIff(d: Dict, reader: Reader)
    requires Proper(d, reader) && Sighted(reader)
    ensures Entries(Print(d), reader) == Some(d) <==> AllUnbroken(d.keys)
  {
    if AllUnbroken(d.keys) {
      PrintedReadsBack(d, reader);
    } else {
      SplitlinesUnbroken(Print(d));
      CollectedUnbroken(Splitlines(Print(d)), EMPTY, reader);
      var i :| 0 <= i < |d.keys| && !Unbroken(d.keys[i]);
      assert d.keys[i] in d.values;
    }
  }

  // ----- a path with a line break cannot be read back beside its own beginning -----

  /** Rows that were collected have different paths, each in the result. */
  lemma {:induction false} CollectedDistinct(lines: seq<Text>, found: Dict, reader: Reader)
    requires found.Valid() && Collect(lines, found, reader).Some?
    ensures var d := Collect(lines, found, reader).value;
      && (forall k | k in found.values :: k in d.values)
      && (forall x | 0 <= x < |lines| :: LineEntry(lines[x], reader).Some?)
      && (forall x | 0 <= x < |lines| && IsRow(lines[x], reader) :: RowPath(lines[x], reader) in d.values)
    ensures forall x | 0 <= x < |lines| && IsRow(lines[x], reader) :: RowPath(lines[x], reader) !in found.values
    ensures forall x, y | 0 <= x < y < |lines| && IsRow(lines[x], reader) && IsRow(lines[y], reader) ::
      RowPath(lines[x], reader) != RowPath(lines[y], reader)
  {
    if lines != [] {
      var e := LineEntry(lines[0], reader).value;
      if e.None? {
        CollectedDistinct(lines[1..], found, reader);
        assert !IsRow(lines[0], reader);
      } else {
        CollectedDistinct(lines[1..], found.Put(e.value.path, e.value.digest), reader);
      }
      assert forall x | 1 <= x < |lines| :: lines[x] == lines[1..][x - 1];
    }
  }

  predicate IsRow(line: Text, reader: Reader) {
    LineEntry(line, reader).Some? && LineEntry(line, reader).value.Some?
  }

  function RowPath(line: Text, reader: Reader): Text
    requires IsRow(line, reader)
  {
    LineEntry(line, reader).value.value.path
  }

  /** Where the i-th written line begins among the lines read. */
  function Start(lines: seq<Text>, i: nat): nat
    requires i <= |lines|
  {
    |Splitlines(Unlines(lines[..i]))|
  }

  function FirstPiece(line: Text): Text { (line + [LF])[..LineLength(line + [LF])] }

  lemma {:induction false} UnlinesEnds(lines: seq<Text>)
    requires lines != []
    ensures Unlines(lines) != [] && Unlines(lines)[|Unlines(lines)| - 1] == LF
  {
    if |lines| > 1 { UnlinesEnds(lines[1..]); }
  }

  lemma SplitUnlinesAppend(a: seq<Text>, b: seq<Text>)
    ensures Splitlines(Unlines(a + b)) == Splitlines(Unlines(a)) + Splitlines(Unlines(b))
  {
    UnlinesAppend(a, b);
    if a == [] {
      assert Unlines(a) + Unlines(b) == Unlines(b);
    } else {
      UnlinesEnds(a);
      SplitlinesAppend(Unlines(a), Unlines(b));
    }
  }

  lemma OneLine(line: Text)
    ensures var read := Splitlines(Unlines([line])); read != [] && read[0] == FirstPiece(line)
  {
    var one: seq<Text> := [line];
    assert one[1..] == [] && Unlines(one) == line + [LF];
  }

  lemma PieceBetween(a: seq<Text>, line: Text, b: seq<Text>)
    ensures var n, all := |Splitlines(Unlines(a))|, Splitlines(Unlines(a + [line] + b));
      n < |Splitlines(Unlines(a + [line]))| <= |all| && all[n] == FirstPiece(line)
  {
    OneLine(line);
    SplitUnlinesAppend(a, [line]);
    SplitUnlinesAppend(a + [line], b);
  }

  lemma PieceAt(lines: seq<Text>, i: nat)
    requires i < |lines|
    ensures var all := Splitlines(Unlines(lines));
      Start(lines, i) < Start(lines, i + 1) <= |all| && all[Start(lines, i)] == FirstPiece(lines[i])
  {
    assert lines[..i] + [lines[i]] == lines[..i + 1];
    assert lines[..i + 1] + lines[i + 1..] == lines;
    PieceBetween(lines[..i], lines[i], lines[i + 1..]);
  }

  lemma StartStep(lines: seq<Text>, k: nat)
    requires k < |lines|
    ensures Start(lines, k) < Start(lines, k + 1)
  {
    PieceAt(lines, k);
  }

  lemma {:induction false} StartsIncrease(lines: seq<Text>, i: nat, j: nat)
    requires i < j <= |lines|
    ensures Start(lines, i) < Start(lines, j)
    decreases j - i
  {
    StartStep(lines, j - 1);
    if i < j - 1 { StartsIncrease(lines, i, j - 1); }
  }

  /** The first piece of a written line names the path up to its first break. */
  lemma PieceOfLine(digest: Text, path: Text)
    requires IsDigest(digest)
    ensures var p := (path + [LF])[..LineLength(path + [LF])];
      FirstPiece(LineOf(path, digest)) == LineOf(p, digest) && Unbroken(p) && (Unbroken(path) ==> p == path)
  {
    DigestUnbroken(digest);
    var head, rest := digest + GAP, path + [LF];
    assert LineOf(path, digest) + [LF] == head + rest;
    LineLengthPast(head, rest);
    if Unbroken(path) { LineLengthOf(path, LF, []); assert path + [LF] + [] == rest; }
  }

  lemma {:induction false} LineLengthPast(head: Text, rest: Text)
    requires Unbroken(head)
    ensures LineLength(head + rest) == |head| + LineLength(rest)
  {
    if head == [] {
      assert head + rest == rest;
    } else {
      assert (head + rest)[1..] == head[1..] + rest;
      LineLengthPast(head[1..], rest);
    }
  }

  /** If what was written is read as nothing but written paths, no path holds a line break. */
  lemma ReadWithinIsUnbroken(d: Dict, c: Dict, reader: Reader)
    requires Proper(d, reader) && Sighted(reader) && Entries(Print(d), reader) == Some(c)
    requires forall k | k in c.values :: k in d.values
    ensures AllUnbroken(d.keys)
  {
    var lines := LinesOf(d, d.keys);
    var all := Splitlines(Print(d));
    CollectedDistinct(all, EMPTY, reader);
    forall i | 0 <= i < |d.keys| ensures Unbroken(d.keys[i]) {
      var p := WrittenPiece(d, c, i, reader);
      if p != d.keys[i] {
        var j :| 0 <= j < |d.keys| && d.keys[j] == p;
        var q := WrittenPiece(d, c, j, reader);
        if i < j { StartsIncrease(lines, i, j); } else { StartsIncrease(lines, j, i); }
        assert false;
      }
    }
  }

  lemma WrittenPiece(d: Dict, c: Dict, i: nat, reader: Reader) returns (p: Text)
    requires Proper(d, reader) && Sighted(reader) && Entries(Print(d), reader) == Some(c) && i < |d.keys|
    ensures var lines, all := LinesOf(d, d.keys), Splitlines(Print(d));
      Start(lines, i) < |all| && IsRow(all[Start(lines, i)], reader) && RowPath(all[Start(lines, i)], reader) == p
    ensures p in c.values && Unbroken(p) && (Unbroken(d.keys[i]) ==> p == d.keys[i])
  {
    var lines, all := LinesOf(d, d.keys), Splitlines(Print(d));
    var k := d.keys[i];
    assert k in d.keys;
    PieceAt(lines, i);
    PieceOfLine(d.values[k], k);
    p := (k + [LF])[..LineLength(k + [LF])];
    DigestFirst(d.values[k], p);
    CollectedDistinct(all, EMPTY, reader);
    var line := all[Start(lines, i)];
    assert line == LineOf(p, d.values[k]) && IsDigest(line[..64]) && !reader.blank(line);
  }

  // ----- staged_documents -----

  /** One index record: its path below docs/plans/, its mode and its merge stage. */
  datatype Staged = Staged(path: Text, mode: Text, stage: Text)

  predicate Resolved(s: Staged, reader: Reader) {
    s.stage == Lit("0") && (s.mode == Lit("100644") || s.mode == Lit("100755")) && reader.accepts(s.path)
  }

  predicate AllResolved(records: seq<Staged>, reader: Reader) {
    forall i | 0 <= i < |records| && reader.document(records[i].path) :: Resolved(records[i], reader)
  }

  function DocumentPaths(records: seq<Staged>, reader: Reader): set<Text> {
    set s | s in records && reader.document(s.path) :: s.path
  }

  method StagedDocuments(records: seq<Staged>, reader: Reader) returns (r: Option<set<Text>>)
    ensures r == if AllResolved(records, reader) then Some(DocumentPaths(records, reader)) else None
  {
    var paths: set<Text> := {};
    for i := 0 to |records|
      invariant AllResolved(records[..i], reader) && paths == DocumentPaths(records[..i], reader)
    {
      assert records[..i + 1] == records[..i] + [records[i]];
      if reader.document(records[i].path) {
        if !Resolved(records[i], reader) {
          return None;
        }
        paths := paths + {records[i].path};
      }
    }
    assert records[..|records|] == records;
    r := Some(paths);
  }

  // ----- the refresh -----

  /** The repository: the committed manifest's text, the index, and the staged bytes of a document. */
  datatype Repo = Repo(unmerged: bool, head: Option<Text>, staged: Option<seq<Staged>>, blob: Text -> Option<Text>,
                       sha256: Text -> Text)

  /** The digest of a document's staged bytes. */
  function Hash(repo: Repo, path: Text): Option<Text> {
    var bytes :- repo.blob(path);
    Some(repo.sha256(bytes))
  }

  /** Document `path`, committed with this digest and not named, is untouched in the manifest and in the index. */
  predicate Untouched(repo: Repo, current: Dict, path: Text, digest: Text) {
    path in current.values && current.values[path] == digest && Hash(repo, path) == Some(digest)
  }

  predicate NoDrift(repo: Repo, baseline: Dict, current: Dict, named: seq<Text>, keys: seq<Text>) {
    forall i | 0 <= i < |keys| && keys[i] !in named ::
      keys[i] in baseline.values && Untouched(repo, current, keys[i], baseline.values[keys[i]])
  }

  function Update(repo: Repo, d: Dict, named: seq<Text>): Option<Dict>
    decreases |named|
  {
    if named == [] then Some(d)
    else
      var digest :- Hash(repo, named[0]);
      Update(repo, d.Put(named[0], digest), named[1..])
  }

  function Wanted(baseline: Dict, named: seq<Text>): set<Text> {
    (set k | k in baseline.keys) + (set k | k in named)
  }

  predicate AllAccepted(named: seq<Text>, reader: Reader) {
    forall i | 0 <= i < |named| :: reader.accepts(named[i])
  }

  /** The inventory checks, with everything read. */
  predicate Consistent(repo: Repo, baseline: Dict, current: Dict, named: seq<Text>, reader: Reader) {
    && repo.staged.Some? && AllResolved(repo.staged.value, reader)
    && DocumentPaths(repo.staged.value, reader) == Wanted(baseline, named)
    && (forall k | k in current.keys :: k in Wanted(baseline, named))
    && NoDrift(repo, baseline, current, named, baseline.keys)
  }

  /** What main writes: None when it refuses. */
  function Refreshed(repo: Repo, manifest: Option<Text>, named: seq<Text>, reader: Reader): Option<Dict> {
    if !AllAccepted(named, reader) || repo.unmerged then None
    else
      var head :- repo.head;
      var baseline :- Entries(head, reader);
      var text :- manifest;
      var current :- Entries(text, reader);
      if Consistent(repo, baseline, current, named, reader) then Update(repo, baseline, named) else None
  }

  /** The manifest file; None stands for bytes that cannot be read as text. */
  class ManifestFile {
    var text: Option<Text>

    constructor (text: Option<Text>)
      ensures this.text == text
    {
      this.text := text;
    }

    /** main(named): the refreshed manifest is written, or nothing is. */
    method Refresh(repo: Repo, named: seq<Text>, reader: Reader) returns (ok: bool)
      modifies this
      ensures ok == Refreshed(repo, old(text), named, reader).Some?
      ensures ok ==> Refreshed(repo, old(text), named, reader).value.Valid()
      ensures text == if ok then Some(Print(Refreshed(repo, old(text), named, reader).value)) else old(text)
    {
      if !AllAccepted(named, reader) || repo.unmerged || repo.head.None? {
        return false;
      }
      var baseline := ReadEntries(repo.head.value, reader);
      if baseline.None? || text.None? {
        return false;
      }
      var current := ReadEntries(text.value, reader);
      if current.None? || repo.staged.None? {
        return false;
      }
      var consistent := Check(repo, baseline.value, current.value, named, reader);
      if !consistent {
        return false;
      }
      CollectedProper(Splitlines(repo.head.value), EMPTY, reader);
      var updated := Apply(repo, baseline.value, named);
      if updated.None? {
        return false;
      }
      text := Some(Print(updated.value));
      ok := true;
    }
  }

  method Check(repo: Repo, baseline: Dict, current: Dict, named: seq<Text>, reader: Reader) returns (ok: bool)
    requires repo.staged.Some?
    ensures ok == Consistent(repo, baseline, current, named, reader)
  {
    var staged := StagedDocuments(repo.staged.value, reader);
    if staged.None? {
      return false;
    }
    var wanted := Wanted(baseline, named);
    if staged.value != wanted || !(forall k | k in current.keys :: k in wanted) {
      return false;
    }
    for i := 0 to |baseline.keys|
      invariant NoDrift(repo, baseline, current, named, baseline.keys[..i])
    {
      var path := baseline.keys[i];
      assert baseline.keys[..i + 1] == baseline.keys[..i] + [path];
      if path !in named && !(path in baseline.values && Untouched(repo, current, path, baseline.values[path])) {
        return false;
      }
    }
    assert baseline.keys[..|baseline.keys|] == baseline.keys;
    ok := true;
  }

  method Apply(repo: Repo, baseline: Dict, named: seq<Text>) returns (r: Option<Dict>)
    requires baseline.Valid()
    ensures r == Update(repo, baseline, named)
    ensures r.Some? ==> r.value.Valid()
  {
    var updated := baseline;
    for i := 0 to |named|
      invariant Update(repo, baseline, named) == Update(repo, updated, named[i..]) && updated.Valid()
    {
      assert named[i..][0] == named[i] && named[i..][1..] == named[i + 1..];
      var digest := Hash(repo, named[i]);
      if digest.None? {
        return None;
      }
      PutValid(updated, named[i], digest.value);
      updated := updated.Put(named[i], digest.value);
    }
    assert named[|named|..] == [];
    r := Some(updated);
  }

  /** What is read is a dict of accepted paths and digests. */
  lemma {:induction false} CollectedProper(lines: seq<Text>, found: Dict, reader: Reader)
    requires Proper(found, reader)
    ensures Collect(lines, found, reader).Some? ==> Proper(Collect(lines, found, reader).value, reader)
  {
    if lines != [] {
      var e := LineEntry(lines[0], reader);
      if e.Some? {
        if e.value.None? {
          CollectedProper(lines[1..], found, reader);
        } else if e.value.value.path !in found.values {
          CollectedProper(lines[1..], found.Put(e.value.value.path, e.value.value.digest), reader);
        }
      }
    }
  }

  /** r is d with the named documents' digests put in. */
  ghost predicate UpdatedBy(repo: Repo, d: Dict, r: Dict, named: seq<Text>) {
    && r.Valid() && d.keys <= r.keys
    && (forall k :: k in r.values <==> k in d.values || k in named)
    && (forall k | k in named :: k in r.values && Hash(repo, k) == Some(r.values[k]))
    && (forall k | k in d.values && k !in named :: k in r.values && r.values[k] == d.values[k])
  }

  lemma UpdatedStep(repo: Repo, d: Dict, r: Dict, named: seq<Text>, digest: Text)
    requires named != [] && Hash(repo, named[0]) == Some(digest) && d.Valid()
    requires UpdatedBy(repo, d.Put(named[0], digest), r, named[1..])
    ensures UpdatedBy(repo, d, r, named)
  {
    var k, rest := named[0], named[1..];
    assert named == [k] + rest;
    assert d.keys <= d.Put(k, digest).keys;
    if k !in rest { assert r.values[k] == digest; }
  }

  lemma {:induction false} UpdateEffect(repo: Repo, d: Dict, named: seq<Text>)
    requires d.Valid() && Update(repo, d, named).Some?
    ensures UpdatedBy(repo, d, Update(repo, d, named).value, named)
    decreases |named|
  {
    if named != [] {
      var digest := Hash(repo, named[0]).value;
      PutValid(d, named[0], digest);
      UpdateEffect(repo, d.Put(named[0], digest), named[1..]);
      UpdatedStep(repo, d, Update(repo, d, named).value, named, digest);
    }
  }

  /** The committed manifest as a dict. */
  predicate Baseline(repo: Repo, reader: Reader, baseline: Dict) {
    repo.head.Some? && Entries(repo.head.value, reader) == Some(baseline)
  }

  lemma BaselineProper(repo: Repo, reader: Reader, baseline: Dict)
    requires Baseline(repo, reader, baseline)
    ensures Proper(baseline, reader) && AllUnbroken(baseline.keys)
  {
    CollectedProper(Splitlines(repo.head.value), EMPTY, reader);
    SplitlinesUnbroken(repo.head.value);
    CollectedUnbroken(Splitlines(repo.head.value), EMPTY, reader);
  }

  /** What a successful refresh went through. */
  lemma RefreshedParts(repo: Repo, manifest: Option<Text>, named: seq<Text>, reader: Reader, baseline: Dict, d: Dict)
    returns (current: Dict)
    requires Baseline(repo, reader, baseline) && Refreshed(repo, manifest, named, reader) == Some(d)
    ensures AllAccepted(named, reader) && !repo.unmerged && Consistent(repo, baseline, current, named, reader)
    ensures Update(repo, baseline, named) == Some(d)
  {
    current := Entries(manifest.value, reader).value;
  }

  lemma RefreshedFrom(repo: Repo, text: Text, named: seq<Text>, reader: Reader, baseline: Dict)
    requires Baseline(repo, reader, baseline) && AllAccepted(named, reader) && !repo.unmerged
    ensures var current := Entries(text, reader);
      Refreshed(repo, Some(text), named, reader)
      == if current.Some? && Consistent(repo, baseline, current.value, named, reader) then Update(repo, baseline, named) else None
  {}

  /**
    A successful refresh maps exactly the staged documents to the digests of their staged bytes, keeps every
    committed digest that was not named, and keeps the committed order with new paths after it.
   */
  lemma RefreshMapsStagedDocuments(repo: Repo, manifest: Option<Text>, named: seq<Text>, reader: Reader, baseline: Dict, d: Dict)
    requires Baseline(repo, reader, baseline) && Refreshed(repo, manifest, named, reader) == Some(d)
    ensures d.Valid() && repo.staged.Some?
    ensures forall k :: k in d.values <==> k in DocumentPaths(repo.staged.value, reader)
    ensures forall k | k in d.values :: Hash(repo, k) == Some(d.values[k])
    ensures baseline.keys <= d.keys && forall k :: k in d.values <==> k in baseline.values || k in named
    ensures forall k | k in baseline.values && k !in named :: d.values[k] == baseline.values[k]
  {
    BaselineProper(repo, reader, baseline);
    var current := RefreshedParts(repo, manifest, named, reader, baseline, d);
    UpdateEffect(repo, baseline, named);
    forall k | k in d.values ensures Hash(repo, k) == Some(d.values[k]) {
      if k !in named {
        assert k in baseline.keys;
        var i :| 0 <= i < |baseline.keys| && baseline.keys[i] == k;
      }
    }
    forall k ensures k in d.values <==> k in DocumentPaths(repo.staged.value, reader) {
      assert k in Wanted(baseline, named) <==> k in baseline.keys || k in named;
    }
  }

  /** Every digest the repository's hash gives has the form of one. */
  ghost predicate Hashes(repo: Repo) {
    forall t :: IsDigest(repo.sha256(t))
  }

  lemma RefreshedProper(repo: Repo, manifest: Option<Text>, named: seq<Text>, reader: Reader, baseline: Dict, d: Dict)
    requires Baseline(repo, reader, baseline) && Refreshed(repo, manifest, named, reader) == Some(d) && Hashes(repo)
    ensures Proper(d, reader) && (AllUnbroken(d.keys) <==> AllUnbroken(named))
  {
    BaselineProper(repo, reader, baseline);
    RefreshMapsStagedDocuments(repo, manifest, named, reader, baseline, d);
    forall k | k in d.values ensures reader.accepts(k) && IsDigest(d.values[k]) {
      assert Hash(repo, k) == Some(d.values[k]);
      if k in named { var i :| 0 <= i < |named| && named[i] == k; }
    }
    if AllUnbroken(named) {
      forall i | 0 <= i < |d.keys| ensures Unbroken(d.keys[i]) {
        assert d.keys[i] in d.keys;
        if d.keys[i] in named { var j :| 0 <= j < |named| && named[j] == d.keys[i]; }
        else { assert d.keys[i] in baseline.keys; var j :| 0 <= j < |baseline.keys| && baseline.keys[j] == d.keys[i]; }
      }
    }
    if AllUnbroken(d.keys) {
      forall i | 0 <= i < |named| ensures Unbroken(named[i]) {
        assert named[i] in d.values && named[i] in d.keys;
        var j :| 0 <= j < |d.keys| && d.keys[j] == named[i];
      }
    }
  }

  /** What was written is read back as the same ordered dict exactly when no named path holds a line break. */
  lemma RefreshReadsBackIff(repo: Repo, manifest: Option<Text>, named: seq<Text>, reader: Reader, baseline: Dict, d: Dict)
    requires Baseline(repo, reader, baseline) && Refreshed(repo, manifest, named, reader) == Some(d)
    requires Hashes(repo) && Sighted(reader)
    ensures d.Valid() && (Entries(Print(d), reader) == Some(d) <==> AllUnbroken(named))
  {
    RefreshedProper(repo, manifest, named, reader, baseline, d);
    ReadBackIff(d, reader);
  }

  /**
    Refreshing again with the same names writes the same manifest exactly when no named path holds a line
    break; otherwise the second refresh is refused.
   */
  lemma RefreshIsIdempotentIff(repo: Repo, manifest: Option<Text>, named: seq<Text>, reader: Reader, baseline: Dict, d: Dict)
    requires Baseline(repo, reader, baseline) && Refreshed(repo, manifest, named, reader) == Some(d)
    requires Hashes(repo) && Sighted(reader)
    ensures d.Valid()
    ensures AllUnbroken(named) ==> Refreshed(repo, Some(Print(d)), named, reader) == Some(d)
    ensures !AllUnbroken(named) ==> Refreshed(repo, Some(Print(d)), named, reader) == None
  {
    RefreshedProper(repo, manifest, named, reader, baseline, d);
    var first := RefreshedParts(repo, manifest, named, reader, baseline, d);
    RefreshedFrom(repo, Print(d), named, reader, baseline);
    if AllUnbroken(named) {
      ReadBackIff(d, reader);
      BaselineProper(repo, reader, baseline);
      RefreshMapsStagedDocuments(repo, manifest, named, reader, baseline, d);
      AgainConsistent(repo, baseline, d, named, reader);
    } else {
      BrokenIsInconsistent(repo, manifest, named, reader, baseline, d);
    }
  }

  lemma BrokenIsInconsistent(repo: Repo, manifest: Option<Text>, named: seq<Text>, reader: Reader, baseline: Dict, d: Dict)
    requires Baseline(repo, reader, baseline) && Refreshed(repo, manifest, named, reader) == Some(d)
    requires Hashes(repo) && Sighted(reader) && d.Valid() && !AllUnbroken(named)
    ensures var c := Entries(Print(d), reader); c.None? || !Consistent(repo, baseline, c.value, named, reader)
  {
    var c := Entries(Print(d), reader);
    RefreshedProper(repo, manifest, named, reader, baseline, d);
    RefreshMapsStagedDocuments(repo, manifest, named, reader, baseline, d);
    BaselineProper(repo, reader, baseline);
    if c.Some? && Consistent(repo, baseline, c.value, named, reader) {
      CollectedProper(Splitlines(Print(d)), EMPTY, reader);
      WantedKeys(baseline, c.value, d, named);
      ReadWithinIsUnbroken(d, c.value, reader);
    }
  }

  lemma WantedKeys(baseline: Dict, c: Dict, d: Dict, named: seq<Text>)
    requires baseline.Valid() && c.Valid() && forall k | k in c.keys :: k in Wanted(baseline, named)
    requires forall k :: k in d.values <==> k in baseline.values || k in named
    ensures forall k | k in c.values :: k in d.values
  {}

  lemma AgainConsistent(repo: Repo, baseline: Dict, d: Dict, named: seq<Text>, reader: Reader)
    requires repo.staged.Some? && AllResolved(repo.staged.value, reader) && baseline.Valid() && d.Valid()
    requires DocumentPaths(repo.staged.value, reader) == Wanted(baseline, named)
    requires forall k :: k in d.values <==> k in baseline.values || k in named
    requires forall k | k in d.values :: Hash(repo, k) == Some(d.values[k])
    requires forall k | k in baseline.values && k !in named :: d.values[k] == baseline.values[k]
    ensures Consistent(repo, baseline, d, named, reader)
  {
    forall i | 0 <= i < |baseline.keys| && baseline.keys[i] !in named
      ensures baseline.keys[i] in baseline.values && Untouched(repo, d, baseline.keys[i], baseline.values[baseline.keys[i]])
    {
      assert baseline.keys[i] in baseline.keys;
    }
  }

  lemma DigestIsNotBlank(t: Text)
    requires |t| >= 64 && IsDigest(t[..64])
    ensures !Blank(t)
  {
    assert t[..64][0] == t[0];
    assert !IsSpace(t[0]);
  }

  lemma DigestIsSighted()
    ensures Sighted(ManifestReader())
  {
    forall t: Text | |t| >= 64 && IsDigest(t[..64]) ensures !ManifestReader().blank(t) { DigestIsNotBlank(t); }
  }

  lemma RefreshIff(repo: Repo, manifest: Option<Text>, named: seq<Text>, reader: Reader, baseline: Dict, d: Dict)
    requires Baseline(repo, reader, baseline) && Refreshed(repo, manifest, named, reader) == Some(d)
    requires Hashes(repo) && Sighted(reader)
    ensures d.Valid() && (Entries(Print(d), reader) == Some(d) <==> AllUnbroken(named))
    ensures Refreshed(repo, Some(Print(d)), named, reader) == if AllUnbroken(named) then Some(d) else None
  {
    RefreshReadsBackIff(repo, manifest, named, reader, baseline, d);
    RefreshIsIdempotentIff(repo, manifest, named, reader, baseline, d);
  }

  /**
    With the program's own reader: a refresh reads back as it was written, and a second one repeats it,
    exactly when no named path holds a line break.
   */
  lemma ProgramRefreshIff(repo: Repo, manifest: Option<Text>, named: seq<Text>, baseline: Dict, d: Dict)
    requires Baseline(repo, ManifestReader(), baseline) && Refreshed(repo, manifest, named, ManifestReader()) == Some(d)
    requires Hashes(repo)
    ensures d.Valid() && (Entries(Print(d), ManifestReader()) == Some(d) <==> AllUnbroken(named))
    ensures Refreshed(repo, Some(Print(d)), named, ManifestReader()) == if AllUnbroken(named) then Some(d) else None
  {
    DigestIsSighted();
    RefreshIff(repo, manifest, named, ManifestReader(), baseline, d);
  }

  /** plan_path lets through paths that splitlines breaks: it only excludes LF and CR. */
  lemma VerticalTabIsAccepted()
    ensures PlanPath([97, 11, 98] + SUFFIX) && !Unbroken([97, 11, 98] + SUFFIX)
  {
    var path: Text := [97, 11, 98] + SUFFIX;
    assert |path| == 6 && SLASH !in path && path[1] == 11;
    OnePartPath(path);
    assert path[|path| - 3..] == SUFFIX;
  }

  lemma OnePartPath(path: Text)
    requires IsPart(path) && SLASH !in path && path != DOTDOT
    ensures Parts(path) == [path] && Render(Parts(path)) == path && Relative(path) && DOTDOT !in Parts(path)
  {
    SplitOfClean(path, SLASH);
    assert Relative(path) by { assert path[0] in path; }
    assert KeepParts([path]) == [path];
  }
}
