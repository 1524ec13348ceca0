/**
  Which lines, manifests and refreshes are accepted, in terms of their characters
  (scripts/regen_plan_manifest.py).
 */
module ManifestRules {
  import opened Texts
  import opened Wrappers
  import opened Lines
  import opened PathParts
  import opened PlanManifest

  // ----- paths -----

  /** A part of a path: not empty, not a dot name, no slash and none of the four refused characters. */
  predicate PathPart(t: Text) {
    && t != [] && t != Lit(".") && t != Lit("..")
    && forall i | 0 <= i < |t| :: t[i] != 47 && t[i] != 92 && t[i] != 58 && t[i] != 10 && t[i] != 13
  }

  /** A name longer than ".md" that ends in it. */
  predicate MarkdownName(name: Text) { |name| > 3 && name[|name| - 3..] == Lit(".md") }

  /** Parts between slashes, the last one longer than ".md" and ending in it. */
  ghost predicate DocumentPath(path: Text, parts: seq<Text>) {
    && parts != [] && path == Join(parts, 47) && (forall p | p in parts :: PathPart(p))
    && MarkdownName(parts[|parts| - 1])
  }

  lemma DotNames()
    ensures Lit(".") == HERE && Lit("..") == DOTDOT && Lit(".md") == SUFFIX
  {
    assert |Lit(".")| == 1 && |Lit("..")| == 2 && |Lit(".md")| == 3;
  }

  /** A character other than the separator stands in a part exactly when it stands in the path. */
  lemma {:induction false} JoinHas(parts: seq<Text>, sep: Code, c: Code)
    requires c != sep
    ensures c in Join(parts, sep) <==> exists p :: p in parts && c in p
  {
    if |parts| > 1 {
      JoinHas(parts[1..], sep, c);
      assert parts == [parts[0]] + parts[1..];
    } else if |parts| == 1 {
      assert parts[0] in parts;
    }
  }

  lemma PathIsParts(path: Text)
    requires PlanPath(path)
    ensures DocumentPath(path, Parts(path))
  {
    var parts := Parts(path);
    DotNames();
    PartsPlain(path);
    assert path == Join(parts, SLASH);
    JoinHas(parts, SLASH, BACKSLASH);
    JoinHas(parts, SLASH, COLON);
    JoinHas(parts, SLASH, LF);
    JoinHas(parts, SLASH, CR);
    forall p | p in parts ensures PathPart(p) {
      forall i | 0 <= i < |p| ensures p[i] != 47 && p[i] != 92 && p[i] != 58 && p[i] != 10 && p[i] != 13 { assert p[i] in p; }
    }
  }

  lemma PartsArePath(path: Text, parts: seq<Text>)
    requires DocumentPath(path, parts)
    ensures PlanPath(path)
  {
    DotNames();
    forall p | p in parts ensures IsPart(p) && SLASH !in p && p != DOTDOT {}
    PartsOfRender(parts);
    JoinHas(parts, SLASH, BACKSLASH);
    JoinHas(parts, SLASH, COLON);
    JoinHas(parts, SLASH, LF);
    JoinHas(parts, SLASH, CR);
  }

  /** The paths that may be named. */
  lemma PlanPathIff(path: Text)
    ensures PlanPath(path) <==> exists parts :: DocumentPath(path, parts)
  {
    if PlanPath(path) { PathIsParts(path); }
    forall parts | DocumentPath(path, parts) ensures PlanPath(path) { PartsArePath(path, parts); }
  }

  /** Unicode white space, and the four separators that str.strip also removes. */
  predicate WhiteSpace(c: Code) {
    || (9 <= c <= 13) || (28 <= c <= 32) || c == 0x85 || c == 0xA0 || c == 0x1680 || (0x2000 <= c <= 0x200A)
    || c == 0x2028 || c == 0x2029 || c == 0x202F || c == 0x205F || c == 0x3000
  }

  lemma SpaceIs(c: Code)
    ensures IsSpace(c) <==> WhiteSpace(c)
  {}

  /** What the program's reader takes for a blank line. */
  lemma BlankIs(line: Text)
    ensures ManifestReader().blank(line) <==> forall i | 0 <= i < |line| :: WhiteSpace(line[i])
  {
    forall i | 0 <= i < |line| ensures IsSpace(line[i]) <==> WhiteSpace(line[i]) { SpaceIs(line[i]); }
    assert ManifestReader().blank(line) == Blank(line);
  }

  /** What it accepts as a path. */
  lemma AcceptedIs(path: Text)
    ensures ManifestReader().accepts(path) <==> exists parts :: DocumentPath(path, parts)
  {
    PlanPathIff(path);
    assert ManifestReader().accepts(path) == PlanPath(path);
  }

  lemma SuffixIs(parts: seq<Text>)
    ensures HasSuffix(parts) <==> parts != [] && MarkdownName(parts[|parts| - 1])
  {
    DotNames();
  }

  /** What it takes for a document of the index. */
  lemma DocumentIs(path: Text, parts: seq<Text>)
    requires parts == Parts(path)
    ensures ManifestReader().document(path) <==> parts != [] && MarkdownName(parts[|parts| - 1])
  {
    SuffixIs(parts);
    assert ManifestReader().document(path) == HasSuffix(parts);
  }

  // ----- lines -----

  predicate ConflictLine(line: Text) {
    Lit("<<<<<<<") <= line || Lit("|||||||") <= line || Lit("=======") <= line || Lit(">>>>>>>") <= line
  }

  /** 64 lowercase hexadecimal digits, two spaces and an accepted path. */
  predicate EntryLine(line: Text, digest: Text, path: Text, reader: Reader) {
    && line == digest + [32, 32] + path && reader.accepts(path)
    && |digest| == 64 && forall i | 0 <= i < 64 :: 48 <= digest[i] <= 57 || 97 <= digest[i] <= 102
  }

  lemma ConflictIffMarked(line: Text)
    ensures ConflictLine(line) <==> Marked(line)
  {
    var m := Markers();
    assert m[0] == Lit("<<<<<<<") && m[1] == Lit("|||||||") && m[2] == Lit("=======") && m[3] == Lit(">>>>>>>");
  }

  lemma EntryIsRead(line: Text, digest: Text, path: Text, reader: Reader)
    requires EntryLine(line, digest, path, reader) && Sighted(reader)
    ensures LineEntry(line, reader) == Some(Some(Row(digest, path))) && !ConflictLine(line) && !reader.blank(line)
  {
    LineReadBack(digest, path, reader);
    assert line == LineOf(path, digest);
    DigestFirst(digest, path);
    ConflictIffMarked(line);
  }

  lemma ReadIsEntry(line: Text, reader: Reader, row: Row)
    requires LineEntry(line, reader) == Some(Some(row))
    ensures EntryLine(line, row.digest, row.path, reader)
  {
    var i := Find(line, GAP);
    assert line == line[..i] + line[i..i + 2] + line[i + 2..];
  }

  /** A line is an entry, a blank line, or refused. */
  lemma LineIs(line: Text, reader: Reader)
    requires Sighted(reader)
    ensures forall digest, path :: LineEntry(line, reader) == Some(Some(Row(digest, path))) <==> EntryLine(line, digest, path, reader)
    ensures LineEntry(line, reader) == Some(None) <==> !ConflictLine(line) && reader.blank(line)
    ensures LineEntry(line, reader) == None <==>
      ConflictLine(line) || (!reader.blank(line) && forall digest, path :: !EntryLine(line, digest, path, reader))
  {
    ConflictIffMarked(line);
    forall digest, path | EntryLine(line, digest, path, reader) ensures LineEntry(line, reader) == Some(Some(Row(digest, path))) {
      EntryIsRead(line, digest, path, reader);
    }
    var e := LineEntry(line, reader);
    if e.Some? && e.value.Some? {
      ReadIsEntry(line, reader, e.value.value);
      assert e.value.value == Row(e.value.value.digest, e.value.value.path);
    }
  }

  // ----- manifests -----

  /** The entries of the lines in order; the other lines are blank. */
  ghost predicate Reads(lines: seq<Text>, rows: seq<Row>, reader: Reader) {
    if lines == [] then rows == []
    else
      || (!ConflictLine(lines[0]) && reader.blank(lines[0]) && Reads(lines[1..], rows, reader))
      || (rows != [] && EntryLine(lines[0], rows[0].digest, rows[0].path, reader) && Reads(lines[1..], rows[1..], reader))
  }

  /** The dict of rows for different paths, in their order. */
  ghost predicate DictOf(rows: seq<Row>, d: Dict) {
    && |d.keys| == |rows| && (forall i | 0 <= i < |rows| :: KeptAt(rows, d, i))
    && (forall i, j | 0 <= i < j < |rows| :: rows[i].path != rows[j].path)
    && forall k | k in d.values :: k in d.keys
  }

  ghost predicate KeptAt(rows: seq<Row>, d: Dict, i: nat)
    requires i < |rows| == |d.keys|
  {
    d.keys[i] == rows[i].path && rows[i].path in d.values && d.values[rows[i].path] == rows[i].digest
  }

  lemma DictValid(rows: seq<Row>, d: Dict)
    requires DictOf(rows, d)
    ensures d.Valid()
    ensures forall i | 0 <= i < |rows| :: d.keys[i] == rows[i].path
  {
    forall i | 0 <= i < |rows| ensures d.keys[i] == rows[i].path && d.keys[i] in d.values { assert KeptAt(rows, d, i); }
  }

  lemma DictMore(rows: seq<Row>, d: Dict, row: Row)
    requires DictOf(rows, d) && row.path !in d.values
    ensures DictOf(rows + [row], d.Put(row.path, row.digest))
  {
    var more, r := rows + [row], d.Put(row.path, row.digest);
    forall i | 0 <= i < |more| ensures KeptAt(more, r, i) {
      if i < |rows| { assert KeptAt(rows, d, i); }
    }
    forall i | 0 <= i < |rows| ensures rows[i].path != row.path { assert KeptAt(rows, d, i); }
  }

  /** Rows determine their dict. */
  lemma SameDict(rows: seq<Row>, d: Dict, e: Dict)
    requires DictOf(rows, d) && DictOf(rows, e)
    ensures d == e
  {
    DictValid(rows, d);
    DictValid(rows, e);
    assert d.keys == e.keys;
    forall k ensures k in d.values <==> k in e.values { assert k in d.keys <==> k in e.keys; }
    forall k | k in d.values ensures d.values[k] == e.values[k] {
      var i :| 0 <= i < |d.keys| && d.keys[i] == k;
      assert KeptAt(rows, d, i) && KeptAt(rows, e, i);
    }
    assert d.values == e.values;
  }

  /** What follows `before` is read from the lines. */
  lemma {:induction false} CollectReads(lines: seq<Text>, before: seq<Row>, found: Dict, reader: Reader) returns (rows: seq<Row>)
    requires Sighted(reader) && DictOf(before, found) && Collect(lines, found, reader).Some?
    ensures Reads(lines, rows, reader) && DictOf(before + rows, Collect(lines, found, reader).value)
  {
    if lines == [] {
      rows := [];
      assert before + rows == before;
    } else {
      LineIs(lines[0], reader);
      var e := LineEntry(lines[0], reader).value;
      if e.None? {
        rows := CollectReads(lines[1..], before, found, reader);
      } else {
        assert e.value == Row(e.value.digest, e.value.path);
        DictMore(before, found, e.value);
        var rest := CollectReads(lines[1..], before + [e.value], found.Put(e.value.path, e.value.digest), reader);
        rows := [e.value] + rest;
        ConcatAssociative(before, [e.value], rest);
      }
    }
  }

  lemma CollectFirst(lines: seq<Text>, found: Dict, row: Row, reader: Reader)
    requires lines != [] && LineEntry(lines[0], reader) == Some(Some(Row(row.digest, row.path))) && row.path !in found.values
    ensures Collect(lines, found, reader) == Collect(lines[1..], found.Put(row.path, row.digest), reader)
  {}

  lemma NextRow(before: seq<Row>, found: Dict, rows: seq<Row>, d: Dict)
    requires rows != [] && DictOf(before, found) && DictOf(before + rows, d)
    ensures rows[0].path !in found.values
    ensures DictOf(before + [rows[0]], found.Put(rows[0].path, rows[0].digest)) && DictOf((before + [rows[0]]) + rows[1..], d)
  {
    NewPath(before, found, rows, d);
    DictMore(before, found, rows[0]);
    assert before + rows == (before + [rows[0]]) + rows[1..];
  }

  lemma NewPath(before: seq<Row>, found: Dict, rows: seq<Row>, d: Dict)
    requires rows != [] && DictOf(before, found) && DictOf(before + rows, d)
    ensures rows[0].path !in found.values
  {
    var all := before + rows;
    DictValid(before, found);
    assert all[|before|] == rows[0];
    forall i | 0 <= i < |before| ensures found.keys[i] != rows[0].path { assert all[i] == before[i]; }
  }

  lemma {:induction false} ReadsCollect(lines: seq<Text>, before: seq<Row>, found: Dict, rows: seq<Row>, d: Dict, reader: Reader)
    requires Sighted(reader) && DictOf(before, found) && Reads(lines, rows, reader) && DictOf(before + rows, d)
    ensures Collect(lines, found, reader) == Some(d)
  {
    if lines == [] {
      assert before + rows == before;
      SameDict(before, found, d);
    } else {
      if !ConflictLine(lines[0]) && reader.blank(lines[0]) && Reads(lines[1..], rows, reader) {
        LineIs(lines[0], reader);
        ReadsCollect(lines[1..], before, found, rows, d, reader);
      } else {
        var row := rows[0];
        EntryIsRead(lines[0], row.digest, row.path, reader);
        NextRow(before, found, rows, d);
        ReadsCollect(lines[1..], before + [row], found.Put(row.path, row.digest), rows[1..], d, reader);
        CollectFirst(lines, found, row, reader);
      }
    }
  }

  /** A manifest is accepted exactly when its lines are entries for different paths and blank lines. */
  lemma EntriesIff(text: Text, d: Dict, reader: Reader)
    requires Sighted(reader)
    ensures Entries(text, reader) == Some(d) <==> exists rows :: Reads(Splitlines(text), rows, reader) && DictOf(rows, d)
  {
    var none: seq<Row> := [];
    if Entries(text, reader) == Some(d) {
      var rows := CollectReads(Splitlines(text), none, EMPTY, reader);
      assert none + rows == rows;
    }
    forall rows | Reads(Splitlines(text), rows, reader) && DictOf(rows, d) ensures Entries(text, reader) == Some(d) {
      assert none + rows == rows;
      ReadsCollect(Splitlines(text), none, EMPTY, rows, d, reader);
    }
  }

  /** The rows as they are written: a digest, two spaces, a path and LF each. */
  function Written(rows: seq<Row>): Text {
    if rows == [] then [] else rows[0].digest + [32, 32] + rows[0].path + [10] + Written(rows[1..])
  }

  lemma {:induction false} UnlinesAreRows(lines: seq<Text>, rows: seq<Row>)
    requires |lines| == |rows| && forall i | 0 <= i < |rows| :: lines[i] == rows[i].digest + [32, 32] + rows[i].path
    ensures Unlines(lines) == Written(rows)
  {
    if rows != [] {
      assert lines[0] == rows[0].digest + [32, 32] + rows[0].path;
      UnlinesAreRows(lines[1..], rows[1..]);
    }
  }

  /** The text of a dict is its rows in order. */
  lemma PrintIs(d: Dict, rows: seq<Row>)
    requires DictOf(rows, d)
    ensures d.Valid() && Print(d) == Written(rows)
  {
    DictValid(rows, d);
    var lines := LinesOf(d, d.keys);
    forall i | 0 <= i < |rows| ensures lines[i] == rows[i].digest + [32, 32] + rows[i].path { assert KeptAt(rows, d, i); }
    UnlinesAreRows(lines, rows);
  }

  // ----- the refresh -----

  /** The staged bytes of a document, hashed. */
  ghost predicate StagedAs(repo: Repo, path: Text, digest: Text) {
    repo.blob(path).Some? && repo.sha256(repo.blob(path).value) == digest
  }

  /** Regular files outside a merge, at accepted paths. */
  ghost predicate Regular(records: seq<Staged>, reader: Reader) {
    forall s | s in records && reader.document(s.path) ::
      (s.mode == Lit("100644") || s.mode == Lit("100755")) && s.stage == Lit("0") && reader.accepts(s.path)
  }

  /** The staged documents are the committed ones and the named ones. */
  ghost predicate Inventoried(records: seq<Staged>, baseline: Dict, named: seq<Text>, reader: Reader) {
    forall path :: path in baseline.keys || path in named <==>
      exists s :: s in records && s.path == path && reader.document(path)
  }

  /** A committed document that was not named: in the manifest and in the index as it was committed. */
  ghost predicate Kept(repo: Repo, baseline: Dict, current: Dict, path: Text) {
    && path in baseline.values && path in current.values && current.values[path] == baseline.values[path]
    && StagedAs(repo, path, baseline.values[path])
  }

  /** All that a refresh asks for. */
  ghost predicate Permits(repo: Repo, manifest: Option<Text>, named: seq<Text>, reader: Reader, baseline: Dict, current: Dict) {
    && (forall path | path in named :: reader.accepts(path)) && !repo.unmerged
    && repo.head.Some? && Entries(repo.head.value, reader) == Some(baseline)
    && manifest.Some? && Entries(manifest.value, reader) == Some(current)
    && repo.staged.Some? && Regular(repo.staged.value, reader) && Inventoried(repo.staged.value, baseline, named, reader)
    && (forall path | path in current.keys :: path in baseline.keys || path in named)
    && (forall path | path in baseline.keys && path !in named :: Kept(repo, baseline, current, path))
    && forall path | path in named :: repo.blob(path).Some?
  }

  /** `x` was named before `y` was. */
  ghost predicate NamedFirst(named: seq<Text>, x: Text, y: Text) {
    exists i | 0 <= i < |named| :: named[i] == x && y !in named[..i + 1]
  }

  /** The committed entries in their order, then the new ones in the order of their first naming. */
  ghost predicate Appended(baseline: Dict, named: seq<Text>, d: Dict) {
    && baseline.keys <= d.keys
    && (forall path :: path in d.keys <==> path in baseline.keys || path in named)
    && forall x, y | |baseline.keys| <= x < y < |d.keys| :: NamedFirst(named, d.keys[x], d.keys[y])
  }

  /** What is written: new digests for the named documents, the committed ones for the others. */
  ghost predicate Outcome(repo: Repo, named: seq<Text>, baseline: Dict, d: Dict) {
    && d.Valid() && Appended(baseline, named, d)
    && (forall path | path in d.values && path in named :: StagedAs(repo, path, d.values[path]))
    && forall path | path in d.values && path !in named :: path in baseline.values && d.values[path] == baseline.values[path]
  }

  lemma InventoriedIff(records: seq<Staged>, baseline: Dict, named: seq<Text>, reader: Reader)
    ensures Inventoried(records, baseline, named, reader) <==> DocumentPaths(records, reader) == Wanted(baseline, named)
  {
    forall path ensures path in DocumentPaths(records, reader) <==> exists s :: s in records && s.path == path && reader.document(path) {}
    forall path ensures path in Wanted(baseline, named) <==> path in baseline.keys || path in named {}
    if Inventoried(records, baseline, named, reader) {
      forall path ensures path in DocumentPaths(records, reader) <==> path in Wanted(baseline, named) {}
    }
  }

  lemma RegularIff(records: seq<Staged>, reader: Reader)
    ensures Regular(records, reader) <==> AllResolved(records, reader)
  {
    if AllResolved(records, reader) {
      forall s | s in records && reader.document(s.path)
        ensures (s.mode == Lit("100644") || s.mode == Lit("100755")) && s.stage == Lit("0") && reader.accepts(s.path)
      {
        var i :| 0 <= i < |records| && records[i] == s;
      }
    }
  }

  lemma KeptIff(repo: Repo, baseline: Dict, current: Dict, named: seq<Text>)
    ensures (forall path | path in baseline.keys && path !in named :: Kept(repo, baseline, current, path)) <==>
      NoDrift(repo, baseline, current, named, baseline.keys)
  {
    if NoDrift(repo, baseline, current, named, baseline.keys) {
      forall path | path in baseline.keys && path !in named ensures Kept(repo, baseline, current, path) {
        var i :| 0 <= i < |baseline.keys| && baseline.keys[i] == path;
      }
    }
    forall i | 0 <= i < |baseline.keys| ensures baseline.keys[i] in baseline.keys {}
  }

  lemma {:induction false} UpdateIff(repo: Repo, d: Dict, named: seq<Text>)
    ensures Update(repo, d, named).Some? <==> forall path | path in named :: repo.blob(path).Some?
    decreases |named|
  {
    if named != [] {
      var k, rest := named[0], named[1..];
      assert named == [k] + rest;
      if Hash(repo, k).Some? { UpdateIff(repo, d.Put(k, Hash(repo, k).value), rest); }
    }
  }

  lemma AcceptedIff(named: seq<Text>, reader: Reader)
    ensures AllAccepted(named, reader) <==> forall path | path in named :: reader.accepts(path)
  {}

  lemma ConsistentIff(repo: Repo, baseline: Dict, current: Dict, named: seq<Text>, reader: Reader)
    ensures Consistent(repo, baseline, current, named, reader) <==>
      && repo.staged.Some? && Regular(repo.staged.value, reader) && Inventoried(repo.staged.value, baseline, named, reader)
      && (forall path | path in current.keys :: path in baseline.keys || path in named)
      && (forall path | path in baseline.keys && path !in named :: Kept(repo, baseline, current, path))
  {
    if repo.staged.Some? {
      RegularIff(repo.staged.value, reader);
      InventoriedIff(repo.staged.value, baseline, named, reader);
      KeptIff(repo, baseline, current, named);
      forall path ensures path in Wanted(baseline, named) <==> path in baseline.keys || path in named {}
    }
  }

  /** A refresh succeeds exactly when all this holds of what it reads. */
  lemma RefreshedIff(repo: Repo, manifest: Option<Text>, named: seq<Text>, reader: Reader)
    ensures Refreshed(repo, manifest, named, reader).Some? <==>
      exists baseline, current :: Permits(repo, manifest, named, reader, baseline, current)
  {
    AcceptedIff(named, reader);
    if repo.head.Some? && manifest.Some? {
      var b, c := Entries(repo.head.value, reader), Entries(manifest.value, reader);
      if b.Some? && c.Some? {
        ConsistentIff(repo, b.value, c.value, named, reader);
        UpdateIff(repo, b.value, named);
        assert Refreshed(repo, manifest, named, reader).Some? <==> Permits(repo, manifest, named, reader, b.value, c.value);
      }
    }
  }

  // ----- the order of what is written -----

  lemma {:induction false} UpdateOrder(repo: Repo, d: Dict, named: seq<Text>)
    requires d.Valid() && Update(repo, d, named).Some?
    ensures Appended(d, named, Update(repo, d, named).value)
    decreases |named|
  {
    if named == [] {
      assert Update(repo, d, named).value == d;
    } else {
      var digest := Hash(repo, named[0]).value;
      var more := d.Put(named[0], digest);
      PutValid(d, named[0], digest);
      UpdateOrder(repo, more, named[1..]);
      UpdateEffect(repo, more, named[1..]);
      var r := Update(repo, more, named[1..]).value;
      assert Update(repo, d, named).value == r;
      AppendedStep(d, named, digest, r);
    }
  }

  lemma NamedLater(k: Text, rest: seq<Text>, x: Text, y: Text)
    requires y != k && (x == k || NamedFirst(rest, x, y))
    ensures NamedFirst([k] + rest, x, y)
  {
    var named := [k] + rest;
    if x == k {
      assert named[0] == x && named[..1] == [k];
    } else {
      var i :| 0 <= i < |rest| && rest[i] == x && y !in rest[..i + 1];
      assert named[i + 1] == x && named[..i + 2] == [k] + rest[..i + 1];
    }
  }

  lemma PutNew(d: Dict, more: Dict, k: Text, digest: Text, keys: seq<Text>, x: nat, y: nat)
    requires d.Valid() && more == d.Put(k, digest) && more.keys <= keys
    requires |d.keys| <= x < y < |keys| && forall i, j | 0 <= i < j < |keys| :: keys[i] != keys[j]
    ensures keys[y] != k && (x < |more.keys| ==> keys[x] == k)
  {
    assert k in more.keys;
    if x < |more.keys| { assert keys[x] == more.keys[x]; }
    if y < |more.keys| { assert false; }
  }

  lemma AppendedStep(d: Dict, named: seq<Text>, digest: Text, r: Dict)
    requires d.Valid() && named != [] && Appended(d.Put(named[0], digest), named[1..], r)
    requires r.Valid()
    ensures Appended(d, named, r)
  {
    var k, rest, more := named[0], named[1..], d.Put(named[0], digest);
    assert named == [k] + rest;
    assert d.keys <= more.keys;
    forall x, y | |d.keys| <= x < y < |r.keys| ensures NamedFirst(named, r.keys[x], r.keys[y]) {
      PutNew(d, more, k, digest, r.keys, x, y);
      assert x >= |more.keys| ==> NamedFirst(rest, r.keys[x], r.keys[y]);
      NamedLater(k, rest, r.keys[x], r.keys[y]);
    }
  }

  lemma HashIs(repo: Repo, path: Text, digest: Text)
    ensures Hash(repo, path) == Some(digest) <==> StagedAs(repo, path, digest)
  {}

  lemma RefreshUpdates(repo: Repo, manifest: Option<Text>, named: seq<Text>, reader: Reader, baseline: Dict, d: Dict)
    requires Baseline(repo, reader, baseline) && Refreshed(repo, manifest, named, reader) == Some(d)
    ensures Update(repo, baseline, named) == Some(d)
  {}

  /** What a successful refresh writes. */
  lemma RefreshedIs(repo: Repo, manifest: Option<Text>, named: seq<Text>, reader: Reader, baseline: Dict, d: Dict)
    requires Baseline(repo, reader, baseline) && Refreshed(repo, manifest, named, reader) == Some(d)
    ensures Outcome(repo, named, baseline, d)
  {
    BaselineProper(repo, reader, baseline);
    RefreshMapsStagedDocuments(repo, manifest, named, reader, baseline, d);
    RefreshUpdates(repo, manifest, named, reader, baseline, d);
    UpdateOrder(repo, baseline, named);
    forall path | path in d.values && path in named ensures StagedAs(repo, path, d.values[path]) {
      HashIs(repo, path, d.values[path]);
    }
  }
}
