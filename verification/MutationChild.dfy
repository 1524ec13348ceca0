/**
  The child side of a mutation run: the pytest hooks the plugin records, and the
  marker lines printed from them (scripts/_mutations.py).
 */
module MutationChild {
  import opened Texts
  import opened Wrappers
  import opened Sorting
  import opened Lines
  import opened Json
  import opened Evidence

  datatype Phase = Setup | Call | Teardown
  datatype Outcome = Passed | Failed | Skipped

  /** call.excinfo: none, an AssertionError or pytest.fail, or anything else. */
  datatype Raised = Nothing | Assertion | Other

  datatype Hook =
    | TestLoop(items: seq<Text>)
    | MakeReport(node: Text, when: Phase, raised: Raised)
    | CollectReport(collected: Outcome)
    | LogReport(node: Text, when: Phase, outcome: Outcome, wasXfail: bool)

  /** The plugin's fields. */
  datatype Gathered = Gathered(assertions: set<Text>, failedCalls: set<Text>, errors: nat, passed: set<Text>,
                               nonpassing: nat, collection: Option<seq<Text>>, activated: bool)

  const NOTHING := Gathered({}, {}, 0, {}, 0, None, false)

  function Observe(g: Gathered, h: Hook, baseline: bool): Gathered {
    match h
    case TestLoop(items) => g.(collection := Some(items), activated := g.activated || !baseline)
    case MakeReport(node, when, raised) =>
      if raised == Nothing then g
      else if when == Call && raised == Assertion then g.(assertions := g.assertions + {node})
      else g.(errors := g.errors + 1)
    case CollectReport(collected) =>
      if collected == Failed then g.(errors := g.errors + 1)
      else if collected == Skipped then g.(nonpassing := g.nonpassing + 1)
      else g
    case LogReport(node, when, outcome, wasXfail) =>
      var g1 := if when == Call && outcome == Failed && !wasXfail then g.(failedCalls := g.failedCalls + {node}) else g;
      if outcome != Passed || wasXfail then g1.(nonpassing := g1.nonpassing + 1)
      else if when == Call then g1.(passed := g1.passed + {node})
      else g1
  }

  /** What the plugin holds after a session's hooks. */
  function Gather(hooks: seq<Hook>, baseline: bool): Gathered {
    if hooks == [] then NOTHING
    else Observe(Gather(hooks[..|hooks| - 1], baseline), hooks[|hooks| - 1], baseline)
  }

  /** The plugin object; each hook changes its fields in place. */
  class Plugin {
    var assertions: set<Text>
    var failedCalls: set<Text>
    var errors: nat
    var passed: set<Text>
    var nonpassing: nat
    var collection: Option<seq<Text>>
    var activated: bool

    ghost function State(): Gathered
      reads this
    {
      Gathered(assertions, failedCalls, errors, passed, nonpassing, collection, activated)
    }

    constructor ()
      ensures State() == NOTHING
    {
      assertions, failedCalls, errors, passed, nonpassing, collection, activated := {}, {}, 0, {}, 0, None, false;
    }

    method RunTestLoop(items: seq<Text>, baseline: bool)
      modifies this
      ensures State() == Observe(old(State()), TestLoop(items), baseline)
    {
      collection := Some(items);
      if !baseline {
        activated := true;
      }
    }

    method MakesReport(node: Text, when: Phase, raised: Raised)
      modifies this
      ensures forall b :: State() == Observe(old(State()), MakeReport(node, when, raised), b)
    {
      if raised != Nothing {
        if when == Call && raised == Assertion {
          assertions := assertions + {node};
        } else {
          errors := errors + 1;
        }
      }
    }

    method Collects(collected: Outcome)
      modifies this
      ensures forall b :: State() == Observe(old(State()), CollectReport(collected), b)
    {
      if collected == Failed {
        errors := errors + 1;
      }
      if collected == Skipped {
        nonpassing := nonpassing + 1;
      }
    }

    method LogsReport(node: Text, when: Phase, outcome: Outcome, wasXfail: bool)
      modifies this
      ensures forall b :: State() == Observe(old(State()), LogReport(node, when, outcome, wasXfail), b)
    {
      if when == Call && outcome == Failed && !wasXfail {
        failedCalls := failedCalls + {node};
      }
      if outcome != Passed || wasXfail {
        nonpassing := nonpassing + 1;
      } else if when == Call {
        passed := passed + {node};
      }
    }

    /** A whole session leaves the plugin holding the fold of its hooks. */
    method Session(hooks: seq<Hook>, baseline: bool)
      requires State() == NOTHING
      modifies this
      ensures State() == Gather(hooks, baseline)
    {
      for i := 0 to |hooks|
        invariant State() == Gather(hooks[..i], baseline)
      {
        assert hooks[..i + 1][..i] == hooks[..i];
        match hooks[i]
        case TestLoop(items) => RunTestLoop(items, baseline);
        case MakeReport(node, when, raised) => MakesReport(node, when, raised);
        case CollectReport(collected) => Collects(collected);
        case LogReport(node, when, outcome, wasXfail) => LogsReport(node, when, outcome, wasXfail);
      }
      assert hooks[..|hooks|] == hooks;
    }
  }

  // ----- what the counters and sets witness -----

  lemma {:induction false} PassedWitness(hooks: seq<Hook>, baseline: bool)
    ensures forall n | n in Gather(hooks, baseline).passed :: LogReport(n, Call, Passed, false) in hooks
  {
    if hooks != [] {
      PassedWitness(hooks[..|hooks| - 1], baseline);
      assert hooks == hooks[..|hooks| - 1] + [hooks[|hooks| - 1]];
    }
  }

  lemma {:induction false} FailedWitness(hooks: seq<Hook>, baseline: bool)
    ensures forall n | n in Gather(hooks, baseline).assertions :: MakeReport(n, Call, Assertion) in hooks
    ensures forall n | n in Gather(hooks, baseline).failedCalls :: LogReport(n, Call, Failed, false) in hooks
  {
    if hooks != [] {
      FailedWitness(hooks[..|hooks| - 1], baseline);
      assert hooks == hooks[..|hooks| - 1] + [hooks[|hooks| - 1]];
    }
  }

  /** A hook that reports neither an error nor anything short of a pass. */
  predicate Clean(h: Hook) {
    match h
    case TestLoop(_) => true
    case MakeReport(_, when, raised) => raised == Nothing || (when == Call && raised == Assertion)
    case CollectReport(collected) => collected == Passed
    case LogReport(_, _, outcome, wasXfail) => outcome == Passed && !wasXfail
  }

  lemma ObserveClean(g: Gathered, h: Hook, baseline: bool)
    requires Observe(g, h, baseline).errors == 0 && Observe(g, h, baseline).nonpassing == 0
    ensures g.errors == 0 && g.nonpassing == 0 && Clean(h)
  {}

  lemma {:induction false} CleanWitness(hooks: seq<Hook>, baseline: bool)
    requires Gather(hooks, baseline).errors == 0 && Gather(hooks, baseline).nonpassing == 0
    ensures forall h | h in hooks :: Clean(h)
  {
    if hooks != [] {
      ObserveClean(Gather(hooks[..|hooks| - 1], baseline), hooks[|hooks| - 1], baseline);
      CleanWitness(hooks[..|hooks| - 1], baseline);
      assert hooks == hooks[..|hooks| - 1] + [hooks[|hooks| - 1]];
    }
  }

  // ----- the printed lines -----

  ghost function Enumerate(s: set<Text>): (r: seq<Text>)
    ensures forall x :: x in r <==> x in s
  {
    if s == {} then []
    else
      var x :| x in s;
      [x] + Enumerate(s - {x})
  }

  /** sorted(s). */
  ghost function SortedNodes(s: set<Text>): (r: seq<Text>) {
    SortDistinct(Enumerate(s), TextKey)
  }

  lemma SortedNodesElements(s: set<Text>)
    ensures forall x :: x in SortedNodes(s) <==> x in s
  {
    SortDistinctOrder(Enumerate(s), TextKey);
  }

  predicate CreditsBaseline(g: Gathered, baseline: bool, status: int) {
    && baseline && g.collection.Some? && g.collection.value != [] && status == 0
    && g.passed != {} && g.errors == 0 && g.nonpassing == 0
  }

  predicate CreditsFailure(g: Gathered, status: int) {
    g.activated && status == 1 && g.assertions * g.failedCalls != {} && g.errors == 0
  }

  ghost function Printed(g: Gathered, baseline: bool, status: int): seq<Text> {
    (if g.collection.Some? then [ReportLine(COLLECTION, g.collection.value)] else []) + Credit(g, baseline, status)
  }

  ghost function Credit(g: Gathered, baseline: bool, status: int): seq<Text> {
    if CreditsBaseline(g, baseline, status) then [ReportLine(BASELINE_PASSED, SortedNodes(g.passed))]
    else if CreditsFailure(g, status) then [ReportLine(ASSERTION_FAILURE, SortedNodes(g.assertions * g.failedCalls))]
    else []
  }

  // ----- what the parent reads -----

  /** One child: its hooks, its status, and the whole-line noise around what it printed. */
  datatype Account = Account(hooks: seq<Hook>, status: int, reported: bool, before: Text, after: Text)

  ghost function Stdout(a: Account, baseline: bool): Text {
    a.before + (Unlines(if a.reported then Printed(Gather(a.hooks, baseline), baseline, a.status) else []) + a.after)
  }

  predicate Quiet(t: Text) {
    Noise(t, COLLECTION) && Noise(t, BASELINE_PASSED) && Noise(t, ASSERTION_FAILURE)
  }

  predicate NodeId(n: Text) { n != [] && !Paired(n) }

  predicate HookIds(h: Hook) {
    match h
    case TestLoop(items) => forall n | n in items :: NodeId(n)
    case MakeReport(node, _, _) => NodeId(node)
    case LogReport(node, _, _, _) => NodeId(node)
    case CollectReport(_) => true
  }

  /** Only the harness prints marker lines, and node ids are nonempty without surrogate pairs. */
  predicate Trustworthy(a: Account) {
    Quiet(a.before) && Quiet(a.after) && forall h | h in a.hooks :: HookIds(h)
  }

  lemma MarkersDiffer()
    ensures Unbroken(COLLECTION) && Unbroken(BASELINE_PASSED) && Unbroken(ASSERTION_FAILURE)
    ensures COLLECTION[9] == 67 && BASELINE_PASSED[9] == 66 && ASSERTION_FAILURE[9] == 65
  {}

  lemma OtherMarker(marker: Text, other: Text, nodes: seq<Text>)
    requires |marker| > 9 && |other| > 9 && marker[9] != other[9]
    ensures !(Prefix(marker) <= ReportLine(other, nodes))
  {
    assert ReportLine(other, nodes)[9] == other[9];
    assert Prefix(marker)[9] == marker[9];
  }

  lemma OwnMarker(marker: Text, nodes: seq<Text>)
    ensures Reports([ReportLine(marker, nodes)], Prefix(marker)) == [Dumps(Arr(Strs(nodes)))]
  {
    OneReport(ReportLine(marker, nodes), Prefix(marker));
    assert ReportLine(marker, nodes)[|Prefix(marker)|..] == Dumps(Arr(Strs(nodes)));
  }

  /** The reports of a child's output are those of the lines it printed. */
  lemma {:induction false} ReportsOfUnlines(before: Text, lines: seq<Text>, after: Text, marker: Text)
    requires Noise(before, marker) && Noise(after, marker) && forall l | l in lines :: Unbroken(l)
    ensures Reports(Splitlines(before + (Unlines(lines) + after)), Prefix(marker)) == Reports(lines, Prefix(marker))
  {
    LinesAround(lines, after);
    var rest := Unlines(lines) + after;
    if before == [] {
      assert before + rest == rest;
    } else {
      SplitlinesAppend(before, rest);
      ReportsAppend(Splitlines(before), Splitlines(rest), Prefix(marker));
    }
    NoReports(Splitlines(before), Prefix(marker));
    ReportsAppend(lines, Splitlines(after), Prefix(marker));
    NoReports(Splitlines(after), Prefix(marker));
  }

  lemma {:induction false} LinesAround(lines: seq<Text>, after: Text)
    requires forall l | l in lines :: Unbroken(l)
    ensures Splitlines(Unlines(lines) + after) == lines + Splitlines(after)
  {
    if lines == [] {
      assert Unlines(lines) + after == after;
    } else {
      assert lines[0] in lines && forall l | l in lines[1..] :: l in lines;
      LinesAround(lines[1..], after);
      ConcatAssociative(lines[0] + [LF], Unlines(lines[1..]), after);
      SplitlinesFirst(lines[0], Unlines(lines[1..]) + after);
      ConcatAssociative([lines[0]], lines[1..], Splitlines(after));
      assert [lines[0]] + lines[1..] == lines;
    }
  }

  lemma PrintedUnbroken(g: Gathered, baseline: bool, status: int)
    ensures forall l | l in Printed(g, baseline, status) :: Unbroken(l)
  {
    MarkersDiffer();
    if g.collection.Some? { ReportUnbroken(COLLECTION, g.collection.value); }
    ReportUnbroken(BASELINE_PASSED, SortedNodes(g.passed));
    ReportUnbroken(ASSERTION_FAILURE, SortedNodes(g.assertions * g.failedCalls));
  }

  /** Which report each marker finds among the printed lines. */
  lemma PrintedReports(g: Gathered, baseline: bool, status: int)
    ensures Reports(Printed(g, baseline, status), Prefix(COLLECTION)) ==
      if g.collection.Some? then [Dumps(Arr(Strs(g.collection.value)))] else []
    ensures Reports(Printed(g, baseline, status), Prefix(BASELINE_PASSED)) ==
      if CreditsBaseline(g, baseline, status) then [Dumps(Arr(Strs(SortedNodes(g.passed))))] else []
    ensures Reports(Printed(g, baseline, status), Prefix(ASSERTION_FAILURE)) ==
      if !CreditsBaseline(g, baseline, status) && CreditsFailure(g, status)
      then [Dumps(Arr(Strs(SortedNodes(g.assertions * g.failedCalls))))] else []
  {
    var first := if g.collection.Some? then [ReportLine(COLLECTION, g.collection.value)] else [];
    var credit := Credit(g, baseline, status);
    ReportsOfLine(COLLECTION, if g.collection.Some? then g.collection.value else []);
    CreditReports(g, baseline, status);
    ReportsAppend(first, credit, Prefix(COLLECTION));
    ReportsAppend(first, credit, Prefix(BASELINE_PASSED));
    ReportsAppend(first, credit, Prefix(ASSERTION_FAILURE));
  }

  lemma CreditReports(g: Gathered, baseline: bool, status: int)
    ensures Reports(Credit(g, baseline, status), Prefix(COLLECTION)) == []
    ensures Reports(Credit(g, baseline, status), Prefix(BASELINE_PASSED)) ==
      if CreditsBaseline(g, baseline, status) then [Dumps(Arr(Strs(SortedNodes(g.passed))))] else []
    ensures Reports(Credit(g, baseline, status), Prefix(ASSERTION_FAILURE)) ==
      if !CreditsBaseline(g, baseline, status) && CreditsFailure(g, status)
      then [Dumps(Arr(Strs(SortedNodes(g.assertions * g.failedCalls))))] else []
  {
    MarkersDiffer();
    ReportsOfLine(BASELINE_PASSED, SortedNodes(g.passed));
    ReportsOfLine(ASSERTION_FAILURE, SortedNodes(g.assertions * g.failedCalls));
  }

  lemma ReportsOfLine(other: Text, nodes: seq<Text>)
    requires other == COLLECTION || other == BASELINE_PASSED || other == ASSERTION_FAILURE
    ensures Reports([ReportLine(other, nodes)], Prefix(other)) == [Dumps(Arr(Strs(nodes)))]
    ensures forall m | (m == COLLECTION || m == BASELINE_PASSED || m == ASSERTION_FAILURE) && m != other ::
      Reports([ReportLine(other, nodes)], Prefix(m)) == []
  {
    MarkersDiffer();
    OwnMarker(other, nodes);
    forall m | (m == COLLECTION || m == BASELINE_PASSED || m == ASSERTION_FAILURE) && m != other
      ensures Reports([ReportLine(other, nodes)], Prefix(m)) == []
    {
      OtherMarker(m, other, nodes);
      NoReports([ReportLine(other, nodes)], Prefix(m));
    }
  }

  lemma {:induction false} GatheredIds(hooks: seq<Hook>, baseline: bool)
    requires forall h | h in hooks :: HookIds(h)
    ensures var g := Gather(hooks, baseline);
      && (forall n | n in g.passed :: NodeId(n)) && (forall n | n in g.assertions :: NodeId(n))
      && (g.collection.Some? ==> forall n | n in g.collection.value :: NodeId(n))
  {
    if hooks != [] {
      var init, last := hooks[..|hooks| - 1], hooks[|hooks| - 1];
      assert hooks == init + [last];
      GatheredIds(init, baseline);
      assert HookIds(last);
    }
  }

  lemma SoleReportOf(nodes: seq<Text>, depth: nat)
    requires depth >= 1 && nodes != [] && forall n | n in nodes :: NodeId(n)
    ensures SoleReport([Dumps(Arr(Strs(nodes)))], depth) == Some(nodes)
  {
    LoadsReport(nodes, depth);
    forall i | 0 <= i < |nodes| ensures MergeAll(nodes)[i] == nodes[i] {
      assert nodes[i] in nodes;
      MergeFixed(nodes[i]);
    }
    assert MergeAll(nodes) == nodes;
  }

  lemma SoleReportOfEmpty(depth: nat)
    requires depth >= 1
    ensures SoleReport([Dumps(Arr(Strs([])))], depth) == None
  {
    var v := Arr(Strs([]));
    assert Strs([]) == [] && Exact(v) && Within(v, depth);
    LoadsDumps(v, false, [], depth);
  }

  /** The node ids the parent reads under a marker, given the sole report the child printed for it. */
  lemma NodeidsRead(output: Text, marker: Text, nodes: set<Text>, depth: nat)
    requires depth >= 1 && nodes != {} && forall n | n in nodes :: NodeId(n)
    requires Reports(Splitlines(output), Prefix(marker)) == [Dumps(Arr(Strs(SortedNodes(nodes))))]
    ensures EvidenceNodeids(output, marker, depth) == nodes
  {
    SortedNodesElements(nodes);
    var x :| x in nodes;
    assert x in SortedNodes(nodes);
    SoleReportOf(SortedNodes(nodes), depth);
  }

  /** What the parent concludes from a trustworthy child's output is what the child gathered. */
  lemma ParentReads(a: Account, baseline: bool, depth: nat)
    requires Trustworthy(a) && a.reported && depth >= 1
    ensures var g, output := Gather(a.hooks, baseline), Stdout(a, baseline);
      && EvidenceCollection(output, COLLECTION, depth) ==
           (if g.collection.Some? && g.collection.value != [] then g.collection else None)
      && EvidenceNodeids(output, BASELINE_PASSED, depth) ==
           (if CreditsBaseline(g, baseline, a.status) then g.passed else {})
      && EvidenceNodeids(output, ASSERTION_FAILURE, depth) ==
           (if !CreditsBaseline(g, baseline, a.status) && CreditsFailure(g, a.status)
            then g.assertions * g.failedCalls else {})
  {
    var g, output := Gather(a.hooks, baseline), Stdout(a, baseline);
    var printed := Printed(g, baseline, a.status);
    GatheredIds(a.hooks, baseline);
    PrintedUnbroken(g, baseline, a.status);
    PrintedReports(g, baseline, a.status);
    ReportsOfUnlines(a.before, printed, a.after, COLLECTION);
    ReportsOfUnlines(a.before, printed, a.after, BASELINE_PASSED);
    ReportsOfUnlines(a.before, printed, a.after, ASSERTION_FAILURE);
    if g.collection.Some? {
      if g.collection.value == [] { SoleReportOfEmpty(depth); } else { SoleReportOf(g.collection.value, depth); }
    }
    if CreditsBaseline(g, baseline, a.status) { NodeidsRead(output, BASELINE_PASSED, g.passed, depth); }
    else if CreditsFailure(g, a.status) { NodeidsRead(output, ASSERTION_FAILURE, g.assertions * g.failedCalls, depth); }
  }

  /** A child that stopped before reporting gives the parent nothing. */
  lemma ParentReadsNothing(a: Account, baseline: bool, depth: nat)
    requires Trustworthy(a) && !a.reported
    ensures var output := Stdout(a, baseline);
      && EvidenceCollection(output, COLLECTION, depth) == None
      && EvidenceNodeids(output, BASELINE_PASSED, depth) == {}
      && EvidenceNodeids(output, ASSERTION_FAILURE, depth) == {}
  {
    ReportsOfUnlines(a.before, [], a.after, COLLECTION);
    ReportsOfUnlines(a.before, [], a.after, BASELINE_PASSED);
    ReportsOfUnlines(a.before, [], a.after, ASSERTION_FAILURE);
  }
}
