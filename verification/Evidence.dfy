/**
  The structured reports children print and the harness reads back, and the
  pytest plugin that gathers them (scripts/_mutations.py).
 */
module Evidence {
  import opened Texts
  import opened Wrappers
  import opened Sorting
  import opened Lines
  import opened Json

  const COLLECTION := Lit("MUTATION_COLLECTION")
  const BASELINE_PASSED := Lit("MUTATION_BASELINE_PASSED")
  const ASSERTION_FAILURE := Lit("MUTATION_ASSERTION_FAILURE")

  function Prefix(marker: Text): Text { marker + [SPACE] }

  /** The rest of every line that starts with the prefix. */
  function Reports(lines: seq<Text>, prefix: Text): seq<Text> {
    if lines == [] then []
    else (if prefix <= lines[0] then [lines[0][|prefix|..]] else []) + Reports(lines[1..], prefix)
  }

  /** A nonempty list of nonempty strings, or nothing. */
  function NodesOf(v: Value): Option<seq<Text>> {
    if v.Arr? && v.items != [] && forall i | 0 <= i < |v.items| :: v.items[i].Str? && v.items[i].s != [] then
      Some(seq(|v.items|, i requires 0 <= i < |v.items| => if v.items[i].Str? then v.items[i].s else []))
    else None
  }

  function EvidenceCollection(output: Text, marker: Text, depth: nat): Option<seq<Text>> {
    SoleReport(Reports(Splitlines(output), Prefix(marker)), depth)
  }

  function SoleReport(reports: seq<Text>, depth: nat): Option<seq<Text>> {
    if |reports| != 1 then None
    else
      var v :- Loads(reports[0], depth);
      NodesOf(v)
  }

  function EvidenceNodeids(output: Text, marker: Text, depth: nat): set<Text> {
    match EvidenceCollection(output, marker, depth)
    case Some(nodes) => set n | n in nodes
    case None => {}
  }

  // ----- printing a report -----

  function Strs(nodes: seq<Text>): seq<Value> {
    seq(|nodes|, i requires 0 <= i < |nodes| => Str(nodes[i]))
  }

  /** print(marker, json.dumps(nodes)), without the line end. */
  function ReportLine(marker: Text, nodes: seq<Text>): Text {
    Prefix(marker) + Dumps(Arr(Strs(nodes)))
  }

  predicate NodeList(nodes: seq<Text>) {
    nodes != [] && forall n | n in nodes :: n != []
  }

  function MergeAll(nodes: seq<Text>): seq<Text> {
    seq(|nodes|, i requires 0 <= i < |nodes| => Merge(nodes[i]))
  }

  lemma {:induction false} MergedStrs(nodes: seq<Text>)
    ensures MergedItems(Strs(nodes)) == Strs(MergeAll(nodes))
  {
    if nodes != [] {
      MergedStrs(nodes[1..]);
      assert Strs(nodes)[1..] == Strs(nodes[1..]);
      assert Strs(MergeAll(nodes))[1..] == Strs(MergeAll(nodes[1..]));
    }
  }

  lemma LoadsReport(nodes: seq<Text>, depth: nat)
    requires NodeList(nodes) && depth >= 1
    ensures Loads(Dumps(Arr(Strs(nodes))), depth) == Some(Arr(Strs(MergeAll(nodes))))
    ensures NodesOf(Arr(Strs(MergeAll(nodes)))) == Some(MergeAll(nodes))
  {
    var v := Arr(Strs(nodes));
    assert Exact(v) && Within(v, depth);
    LoadsDumps(v, false, [], depth);
    MergedStrs(nodes);
    forall i | 0 <= i < |nodes| ensures Merge(nodes[i]) != [] { assert nodes[i] in nodes; }
    var merged := NodesOf(Arr(Strs(MergeAll(nodes))));
    assert merged.value == MergeAll(nodes);
  }

  /** ASCII escaping leaves nothing for splitlines to break on. */
  lemma ReportUnbroken(marker: Text, nodes: seq<Text>)
    requires Unbroken(marker)
    ensures Unbroken(ReportLine(marker, nodes))
  {
    var v := Arr(Strs(nodes));
    PrintPrintable(v, false, []);
    var d := Dumps(v);
    forall i | 0 <= i < |d| ensures !IsBreak(d[i]) { assert d[i] in d; }
  }

  lemma {:induction false} ReportsAppend(a: seq<Text>, b: seq<Text>, prefix: Text)
    ensures Reports(a + b, prefix) == Reports(a, prefix) + Reports(b, prefix)
  {
    if a == [] {
      assert a + b == b;
    } else {
      assert (a + b)[1..] == a[1..] + b;
      ReportsAppend(a[1..], b, prefix);
    }
  }

  lemma {:induction false} NoReports(lines: seq<Text>, prefix: Text)
    requires forall l | l in lines :: !(prefix <= l)
    ensures Reports(lines, prefix) == []
  {
    if lines != [] {
      assert lines[0] in lines && forall l | l in lines[1..] :: l in lines;
      NoReports(lines[1..], prefix);
    }
  }

  lemma OneReport(line: Text, prefix: Text)
    requires prefix <= line
    ensures Reports([line], prefix) == [line[|prefix|..]]
  {}

  /** Text made of whole lines, none of which starts with the marker. */
  predicate Noise(t: Text, marker: Text) {
    (t != [] ==> t[|t| - 1] == LF) && forall l | l in Splitlines(t) :: !(Prefix(marker) <= l)
  }

  /** The reports a whole line contributes between two stretches of noise. */
  lemma ReportsAround(before: Text, line: Text, after: Text, marker: Text)
    requires Noise(before, marker) && Unbroken(line)
    ensures Reports(Splitlines(before + (line + [LF] + after)), Prefix(marker))
         == Reports([line], Prefix(marker)) + Reports(Splitlines(after), Prefix(marker))
  {
    SplitlinesFirst(line, after);
    var rest := line + [LF] + after;
    if before == [] {
      assert before + rest == rest;
    } else {
      SplitlinesAppend(before, rest);
      ReportsAppend(Splitlines(before), Splitlines(rest), Prefix(marker));
    }
    NoReports(Splitlines(before), Prefix(marker));
    ReportsAppend([line], Splitlines(after), Prefix(marker));
  }

  /** A single report amid noise is read back, with its surrogate pairs merged. */
  lemma ReportReadBack(before: Text, after: Text, marker: Text, nodes: seq<Text>, depth: nat)
    requires Noise(before, marker) && (forall l | l in Splitlines(after) :: !(Prefix(marker) <= l))
    requires Unbroken(marker) && NodeList(nodes) && depth >= 1
    ensures EvidenceCollection(before + (ReportLine(marker, nodes) + [LF] + after), marker, depth) == Some(MergeAll(nodes))
  {
    var line := ReportLine(marker, nodes);
    ReportUnbroken(marker, nodes);
    ReportsAround(before, line, after, marker);
    NoReports(Splitlines(after), Prefix(marker));
    var body := Dumps(Arr(Strs(nodes)));
    assert Prefix(marker) <= line && line[|Prefix(marker)|..] == body;
    assert Reports([line], Prefix(marker)) == [body] by { OneReport(line, Prefix(marker)); }
    assert [body] + [] == [body];
    LoadsReport(nodes, depth);
  }

  /** The list survives exactly when no node id holds an adjacent surrogate pair. */
  lemma ReportRoundTrip(before: Text, after: Text, marker: Text, nodes: seq<Text>, depth: nat)
    requires Noise(before, marker) && (forall l | l in Splitlines(after) :: !(Prefix(marker) <= l))
    requires Unbroken(marker) && NodeList(nodes) && depth >= 1
    ensures EvidenceCollection(before + (ReportLine(marker, nodes) + [LF] + after), marker, depth) == Some(nodes)
      <==> forall n | n in nodes :: !Paired(n)
  {
    ReportReadBack(before, after, marker, nodes, depth);
    forall i | 0 <= i < |nodes| ensures Merge(nodes[i]) == nodes[i] <==> !Paired(nodes[i]) { MergeFixed(nodes[i]); }
    if MergeAll(nodes) == nodes {
      forall n | n in nodes ensures !Paired(n) {
        var i :| 0 <= i < |nodes| && nodes[i] == n;
        assert MergeAll(nodes)[i] == Merge(n);
      }
    }
    if forall n | n in nodes :: !Paired(n) {
      forall i | 0 <= i < |nodes| ensures MergeAll(nodes)[i] == nodes[i] { assert nodes[i] in nodes; }
    }
  }

  lemma PairMerges(nodes: seq<Text>)
    requires nodes == [[0xD800, 0xDC00]]
    ensures MergeAll(nodes) == [[0x10000]] && NodeList(nodes)
  {
    assert Merge(nodes[0]) == [0x10000] by { assert nodes[0][2..] == []; }
  }

  lemma OnlyReport(marker: Text, nodes: seq<Text>, depth: nat)
    requires Unbroken(marker) && NodeList(nodes) && depth >= 1
    ensures EvidenceCollection(ReportLine(marker, nodes) + [LF], marker, depth) == Some(MergeAll(nodes))
  {
    ReportReadBack([], [], marker, nodes, depth);
    assert [] + (ReportLine(marker, nodes) + [LF] + []) == ReportLine(marker, nodes) + [LF];
  }

  /** A node id that does not survive: the pair comes back as U+10000. */
  lemma PairedNodeIsRewritten(marker: Text, depth: nat)
    requires Unbroken(marker) && depth >= 1
    ensures var nodes: seq<Text> := [[0xD800, 0xDC00]];
      EvidenceCollection(ReportLine(marker, nodes) + [LF], marker, depth) == Some([[0x10000]])
  {
    var nodes: seq<Text> := [[0xD800, 0xDC00]];
    PairMerges(nodes);
    OnlyReport(marker, nodes, depth);
  }

  /** No report line, nothing credited. */
  lemma MissingReportRefused(output: Text, marker: Text, depth: nat)
    requires forall l | l in Splitlines(output) :: !(Prefix(marker) <= l)
    ensures EvidenceCollection(output, marker, depth).None?
  {
    NoReports(Splitlines(output), Prefix(marker));
  }

  lemma ReportsSplit(lines: seq<Text>, i: nat, prefix: Text)
    requires i < |lines| && prefix <= lines[i]
    ensures |Reports(lines, prefix)| >= 1 + |Reports(lines[i + 1..], prefix)|
  {
    assert lines == lines[..i] + ([lines[i]] + lines[i + 1..]);
    ReportsAppend(lines[..i], [lines[i]] + lines[i + 1..], prefix);
    ReportsAppend([lines[i]], lines[i + 1..], prefix);
  }

  lemma TwoReports(lines: seq<Text>, i: nat, j: nat, prefix: Text)
    requires i < j < |lines| && prefix <= lines[i] && prefix <= lines[j]
    ensures |Reports(lines, prefix)| >= 2
  {
    ReportsSplit(lines, i, prefix);
    assert lines[i + 1..][j - i - 1] == lines[j];
    ReportsSplit(lines[i + 1..], j - i - 1, prefix);
  }

  /** Two report lines, nothing credited. */
  lemma RepeatedReportRefused(output: Text, marker: Text, depth: nat, i: nat, j: nat)
    requires i < j < |Splitlines(output)|
    requires Prefix(marker) <= Splitlines(output)[i] && Prefix(marker) <= Splitlines(output)[j]
    ensures EvidenceCollection(output, marker, depth).None?
  {
    TwoReports(Splitlines(output), i, j, Prefix(marker));
  }

  // ----- exactly which output is credited -----

  /** A line of the output that starts with the marker and a space, and what follows. */
  ghost predicate MarkedAt(output: Text, marker: Text, i: nat, rest: Text) {
    i < |Splitlines(output)| && Splitlines(output)[i] == marker + [32] + rest
  }

  /** The one such line there is. */
  ghost predicate SoleMarked(output: Text, marker: Text, rest: Text) {
    exists i: nat :: MarkedAt(output, marker, i, rest) && forall j: nat, other | MarkedAt(output, marker, j, other) :: j == i
  }

  /** A JSON list of these strings, none of them empty. */
  ghost predicate ListsNodes(text: Text, nodes: seq<Text>, depth: nat) {
    exists items :: Loads(text, depth) == Some(Arr(items)) && nodes != [] && |items| == |nodes|
      && forall i | 0 <= i < |items| :: items[i] == Str(nodes[i]) && nodes[i] != []
  }

  lemma LineMarked(output: Text, marker: Text, i: nat)
    requires i < |Splitlines(output)|
    ensures Prefix(marker) <= Splitlines(output)[i] <==> exists rest :: MarkedAt(output, marker, i, rest)
  {
    var line, prefix := Splitlines(output)[i], Prefix(marker);
    if prefix <= line {
      assert line[..|prefix|] == prefix;
      assert MarkedAt(output, marker, i, line[|prefix|..]);
    }
  }

  lemma NoMarked(output: Text, marker: Text)
    requires forall i: nat, rest :: !MarkedAt(output, marker, i, rest)
    ensures Reports(Splitlines(output), Prefix(marker)) == []
  {
    var lines := Splitlines(output);
    forall l | l in lines ensures !(Prefix(marker) <= l) {
      var i :| 0 <= i < |lines| && lines[i] == l;
      LineMarked(output, marker, i);
    }
    NoReports(lines, Prefix(marker));
  }

  lemma SoleMarkedReport(output: Text, marker: Text, rest: Text)
    requires SoleMarked(output, marker, rest)
    ensures Reports(Splitlines(output), Prefix(marker)) == [rest]
  {
    var lines, prefix := Splitlines(output), Prefix(marker);
    var i: nat :| MarkedAt(output, marker, i, rest) && forall j: nat, other | MarkedAt(output, marker, j, other) :: j == i;
    forall j | 0 <= j < |lines| && j != i ensures !(prefix <= lines[j]) { LineMarked(output, marker, j); }
    assert lines == lines[..i] + ([lines[i]] + lines[i + 1..]);
    ReportsAppend(lines[..i], [lines[i]] + lines[i + 1..], prefix);
    ReportsAppend([lines[i]], lines[i + 1..], prefix);
    NoReports(lines[..i], prefix);
    NoReports(lines[i + 1..], prefix);
    OneReport(lines[i], prefix);
    assert lines[i][|prefix|..] == rest;
  }

  lemma TwoMarked(output: Text, marker: Text, i: nat, a: Text, j: nat, b: Text)
    requires MarkedAt(output, marker, i, a) && MarkedAt(output, marker, j, b) && i != j
    ensures |Reports(Splitlines(output), Prefix(marker))| >= 2
  {
    if i < j { TwoReports(Splitlines(output), i, j, Prefix(marker)); } else { TwoReports(Splitlines(output), j, i, Prefix(marker)); }
  }

  lemma ReportsIff(output: Text, marker: Text)
    ensures var r := Reports(Splitlines(output), Prefix(marker));
      if |r| == 1 then SoleMarked(output, marker, r[0]) else forall rest :: !SoleMarked(output, marker, rest)
  {
    var r := Reports(Splitlines(output), Prefix(marker));
    forall rest | SoleMarked(output, marker, rest) ensures r == [rest] { SoleMarkedReport(output, marker, rest); }
    if |r| == 1 {
      if forall i: nat, rest :: !MarkedAt(output, marker, i, rest) { NoMarked(output, marker); }
      var i: nat, rest :| MarkedAt(output, marker, i, rest);
      forall j: nat, other | MarkedAt(output, marker, j, other) ensures j == i {
        if j != i { TwoMarked(output, marker, i, rest, j, other); }
      }
      assert SoleMarked(output, marker, rest);
    }
  }

  lemma NodesIff(text: Text, nodes: seq<Text>, depth: nat)
    ensures (Loads(text, depth).Some? && NodesOf(Loads(text, depth).value) == Some(nodes)) <==> ListsNodes(text, nodes, depth)
  {
    if Loads(text, depth).Some? && NodesOf(Loads(text, depth).value) == Some(nodes) {
      var items := Loads(text, depth).value.items;
      assert forall i | 0 <= i < |items| :: items[i] == Str(nodes[i]);
    }
    if ListsNodes(text, nodes, depth) {
      var items :| Loads(text, depth) == Some(Arr(items)) && nodes != [] && |items| == |nodes|
        && forall i | 0 <= i < |items| :: items[i] == Str(nodes[i]) && nodes[i] != [];
      assert NodesOf(Arr(items)).value == nodes;
    }
  }

  /** A list is credited exactly when one line carries the marker and holds it, nonempty strings in a nonempty list. */
  lemma CollectionIff(output: Text, marker: Text, nodes: seq<Text>, depth: nat)
    ensures EvidenceCollection(output, marker, depth) == Some(nodes) <==>
      exists rest :: SoleMarked(output, marker, rest) && ListsNodes(rest, nodes, depth)
  {
    ReportsIff(output, marker);
    var r := Reports(Splitlines(output), Prefix(marker));
    if |r| == 1 { NodesIff(r[0], nodes, depth); }
    forall rest | SoleMarked(output, marker, rest) ensures r == [rest] { SoleMarkedReport(output, marker, rest); }
  }

  /** The lines that children print. */
  lemma ReportLineIs(nodes: seq<Text>)
    ensures ReportLine(COLLECTION, nodes) == Lit("MUTATION_COLLECTION") + [32] + Dumps(Arr(Strs(nodes)))
    ensures ReportLine(BASELINE_PASSED, nodes) == Lit("MUTATION_BASELINE_PASSED") + [32] + Dumps(Arr(Strs(nodes)))
    ensures ReportLine(ASSERTION_FAILURE, nodes) == Lit("MUTATION_ASSERTION_FAILURE") + [32] + Dumps(Arr(Strs(nodes)))
  {}
}
