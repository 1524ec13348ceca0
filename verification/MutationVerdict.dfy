/** When a mutant is killed, said of what pytest reported to the two children alone (scripts/_mutations.py). */
module MutationVerdict {
  import opened Texts
  import opened Wrappers
  import opened Evidence
  import opened MutationChild
  import opened MutationHarness

  // ----- what a session's hooks leave behind, both ways -----

  /** An error anywhere but a failed assertion in a call phase, or a failed collection. */
  predicate ReportsError(h: Hook) {
    || (h.MakeReport? && h.raised != Nothing && !(h.when == Call && h.raised == Assertion))
    || (h.CollectReport? && h.collected == Failed)
  }

  /** Something short of a pass. */
  predicate ReportsLess(h: Hook) {
    || (h.CollectReport? && h.collected == Skipped)
    || (h.LogReport? && (h.outcome != Passed || h.wasXfail))
  }

  /** The test loop at i, the last there is, has these tests. */
  predicate LastLoopAt(hooks: seq<Hook>, items: seq<Text>, i: nat) {
    i < |hooks| && hooks[i] == TestLoop(items) && forall j | i < j < |hooks| :: !hooks[j].TestLoop?
  }

  /** The tests as the last test loop had them. */
  ghost predicate LastLoop(hooks: seq<Hook>, items: seq<Text>) { exists i: nat :: LastLoopAt(hooks, items, i) }

  lemma LastLoopMore(hooks: seq<Hook>, h: Hook, items: seq<Text>)
    ensures LastLoop(hooks + [h], items) <==> h == TestLoop(items) || (!h.TestLoop? && LastLoop(hooks, items))
  {
    var more := hooks + [h];
    if LastLoop(hooks, items) && !h.TestLoop? {
      var i: nat :| LastLoopAt(hooks, items, i);
      assert LastLoopAt(more, items, i);
    }
    if h == TestLoop(items) { assert LastLoopAt(more, items, |hooks|); }
    if LastLoop(more, items) {
      var i: nat :| LastLoopAt(more, items, i);
      assert more[|hooks|] == h;
      if i < |hooks| {
        forall j | i < j < |hooks| ensures !hooks[j].TestLoop? { assert more[j] == hooks[j]; }
        assert LastLoopAt(hooks, items, i);
      }
    }
  }

  ghost predicate SetsTold(hooks: seq<Hook>, g: Gathered) {
    && (forall n :: n in g.passed <==> LogReport(n, Call, Passed, false) in hooks)
    && (forall n :: n in g.assertions <==> MakeReport(n, Call, Assertion) in hooks)
    && (forall n :: n in g.failedCalls <==> LogReport(n, Call, Failed, false) in hooks)
  }

  ghost predicate CountsTold(hooks: seq<Hook>, g: Gathered) {
    && (g.errors == 0 <==> forall h | h in hooks :: !ReportsError(h))
    && (g.nonpassing == 0 <==> forall h | h in hooks :: !ReportsLess(h))
  }

  ghost predicate LoopTold(hooks: seq<Hook>, baseline: bool, g: Gathered) {
    && (forall items :: g.collection == Some(items) <==> LastLoop(hooks, items))
    && (g.activated <==> !baseline && g.collection.Some?)
  }

  ghost predicate GatherTold(hooks: seq<Hook>, baseline: bool, g: Gathered) {
    SetsTold(hooks, g) && CountsTold(hooks, g) && LoopTold(hooks, baseline, g)
  }

  lemma MemberMore(hooks: seq<Hook>, h: Hook)
    ensures forall x :: x in hooks + [h] <==> x in hooks || x == h
  {}

  lemma SetsMore(hooks: seq<Hook>, h: Hook, baseline: bool, g: Gathered)
    requires SetsTold(hooks, g)
    ensures SetsTold(hooks + [h], Observe(g, h, baseline))
  {
    MemberMore(hooks, h);
  }

  lemma CountsMore(hooks: seq<Hook>, h: Hook, baseline: bool, g: Gathered)
    requires CountsTold(hooks, g)
    ensures CountsTold(hooks + [h], Observe(g, h, baseline))
  {
    MemberMore(hooks, h);
    var more := hooks + [h];
    assert h in more && forall x | x in hooks :: x in more;
    assert (forall x | x in more :: !ReportsError(x)) <==> (forall x | x in hooks :: !ReportsError(x)) && !ReportsError(h);
    assert (forall x | x in more :: !ReportsLess(x)) <==> (forall x | x in hooks :: !ReportsLess(x)) && !ReportsLess(h);
  }

  lemma LoopMore(hooks: seq<Hook>, h: Hook, baseline: bool, g: Gathered)
    requires LoopTold(hooks, baseline, g)
    ensures LoopTold(hooks + [h], baseline, Observe(g, h, baseline))
  {
    forall items ensures Observe(g, h, baseline).collection == Some(items) <==> LastLoop(hooks + [h], items) {
      LastLoopMore(hooks, h, items);
    }
  }

  lemma ObserveTold(hooks: seq<Hook>, h: Hook, baseline: bool, g: Gathered)
    requires GatherTold(hooks, baseline, g)
    ensures GatherTold(hooks + [h], baseline, Observe(g, h, baseline))
  {
    SetsMore(hooks, h, baseline, g);
    CountsMore(hooks, h, baseline, g);
    LoopMore(hooks, h, baseline, g);
  }

  lemma {:induction false} GatherTells(hooks: seq<Hook>, baseline: bool)
    ensures GatherTold(hooks, baseline, Gather(hooks, baseline))
  {
    if hooks == [] {
    } else {
      var init, last := hooks[..|hooks| - 1], hooks[|hooks| - 1];
      GatherTells(init, baseline);
      ObserveTold(init, last, baseline, Gather(init, baseline));
      assert init + [last] == hooks;
    }
  }

  // ----- caught -----

  /** A clean control: it exits 0, and nothing in it is reported as an error or as less than a pass. */
  predicate CleanControl(control: Account) {
    control.reported && control.status == 0 && forall h | h in control.hooks :: !ReportsError(h) && !ReportsLess(h)
  }

  /** A failing mutant: it exits 1, and nothing but assertions in call phases went wrong. */
  predicate FailingMutant(mutant: Account) {
    mutant.reported && mutant.status == 1 && forall h | h in mutant.hooks :: !ReportsError(h)
  }

  ghost predicate SameTests(control: Account, mutant: Account) {
    exists items :: items != [] && LastLoop(control.hooks, items) && LastLoop(mutant.hooks, items)
  }

  /** One test passed in the control and failed by assertion in its call phase under the mutant. */
  ghost predicate Distinguishes(control: Account, mutant: Account, t: Text) {
    && LogReport(t, Call, Passed, false) in control.hooks
    && MakeReport(t, Call, Assertion) in mutant.hooks && LogReport(t, Call, Failed, false) in mutant.hooks
  }

  ghost predicate Caught(control: Account, mutant: Account) {
    && CleanControl(control) && FailingMutant(mutant) && SameTests(control, mutant)
    && exists t :: Distinguishes(control, mutant, t)
  }

  /** A child that ended as this account has it. */
  ghost predicate Ended(child: Child, a: Account, baseline: bool) {
    Trustworthy(a) && child == Exited(a.status, Stdout(a, baseline))
  }

  /** The control that the parent keeps of a baseline. */
  lemma ControlTold(child: Child, a: Account, depth: nat)
    requires Ended(child, a, true) && depth >= 1
    ensures var c, g := ControlOf(child, depth), Gather(a.hooks, true);
      if CleanControl(a) && g.passed != {} && g.collection.Some? && g.collection.value != []
      then c == Control(g.passed, g.collection) else c == Control({}, None)
  {
    if a.reported { ParentReads(a, true, depth); } else { ParentReadsNothing(a, true, depth); }
    GatherTells(a.hooks, true);
  }

  /** What a mutant's child shows against a control. */
  lemma KilledTold(c: Control, child: Child, a: Account, depth: nat)
    requires Ended(child, a, false) && depth >= 1 && c.collection.Some? && c.collection.value != []
    ensures var g := Gather(a.hooks, false);
      Killed(c, child, depth) <==>
        FailingMutant(a) && g.collection == c.collection && c.passed * (g.assertions * g.failedCalls) != {}
  {
    var g := Gather(a.hooks, false);
    if a.reported { ParentReads(a, false, depth); } else { ParentReadsNothing(a, false, depth); }
    GatherTells(a.hooks, false);
  }

  lemma CaughtTold(control: Account, mutant: Account)
    ensures var c, g := Gather(control.hooks, true), Gather(mutant.hooks, false);
      Caught(control, mutant) <==>
        && CleanControl(control) && FailingMutant(mutant) && c.collection.Some? && c.collection.value != []
        && g.collection == c.collection && c.passed * (g.assertions * g.failedCalls) != {}
  {
    var c, g := Gather(control.hooks, true), Gather(mutant.hooks, false);
    GatherTells(control.hooks, true);
    GatherTells(mutant.hooks, false);
    if t :| Distinguishes(control, mutant, t) { assert t in c.passed * (g.assertions * g.failedCalls); }
    if t :| t in c.passed * (g.assertions * g.failedCalls) { assert Distinguishes(control, mutant, t); }
  }

  /** KILLED is exactly caught: the parent credits a mutant if and only if the reports of the two children show it. */
  lemma KilledIffCaught(mutants: seq<Mutant>, w: World, i: nat, control: Account, mutant: Account)
    requires i < |mutants| && w.depth >= 1
    requires Ended(w.baseline(First(mutants, i)), control, true) && Ended(w.mutant(i), mutant, false)
    ensures MemoFate(mutants, w, i) == Judged(true) <==> Caught(control, mutant)
  {
    var child := w.baseline(First(mutants, i));
    var c := ControlOf(child, w.depth);
    ControlTold(child, control, w.depth);
    CaughtTold(control, mutant);
    if c.passed != {} { KilledTold(c, w.mutant(i), mutant, w.depth); }
  }

  /** A child that did not end by itself is no evidence: no control, no verdict, or the end of the whole run. */
  lemma FateWithoutChild(mutants: seq<Mutant>, w: World, i: nat)
    requires i < |mutants|
    ensures !w.baseline(First(mutants, i)).Exited? ==> MemoFate(mutants, w, i) == NoControl
    ensures w.mutant(i) == TimedOut ==> MemoFate(mutants, w, i) == NoControl || MemoFate(mutants, w, i) == Late
    ensures w.mutant(i) == NotStarted ==> MemoFate(mutants, w, i) == NoControl || MemoFate(mutants, w, i) == Crashed
  {}

  // ----- whose control it is -----

  /** The part of a target before its first colon. */
  ghost predicate IsModule(target: Text, m: Text) {
    COLON !in m && (target == m || (|m| < |target| && m == target[..|m|] && target[|m|] == COLON))
  }

  lemma ModuleIsFirstPart(target: Text)
    ensures IsModule(target, ModuleOf(target))
  {
    SplitIsClean(target, COLON);
    JoinSplit(target, COLON);
    var pieces := Split(target, COLON);
    assert pieces[0] in pieces;
  }

  lemma ModuleHasNoColon(target: Text, m: Text)
    requires IsModule(target, m)
    ensures |m| <= |target| && m == target[..|m|] && forall k | 0 <= k < |m| :: target[k] != COLON
  {
    forall k | 0 <= k < |m| ensures target[k] != COLON { assert m[k] in m; }
  }

  lemma ModuleIsOne(target: Text, a: Text, b: Text)
    requires IsModule(target, a) && IsModule(target, b)
    ensures a == b
  {
    ModuleHasNoColon(target, a);
    ModuleHasNoColon(target, b);
  }

  ghost predicate SameSelection(a: Mutant, b: Mutant) {
    a.test == b.test && exists m :: IsModule(a.target, m) && IsModule(b.target, m)
  }

  lemma SelectionsAgree(a: Mutant, b: Mutant)
    ensures SelectionOf(a) == SelectionOf(b) <==> SameSelection(a, b)
  {
    ModuleIsFirstPart(a.target);
    ModuleIsFirstPart(b.target);
    forall m | IsModule(a.target, m) && IsModule(b.target, m) ensures ModuleOf(a.target) == ModuleOf(b.target) {
      ModuleIsOne(a.target, ModuleOf(a.target), m);
      ModuleIsOne(b.target, ModuleOf(b.target), m);
    }
  }

  /** A mutant is judged by the baseline of the first mutant with its test and its target's module. */
  lemma FirstOfSelection(mutants: seq<Mutant>, i: nat)
    requires i < |mutants|
    ensures SameSelection(mutants[First(mutants, i)], mutants[i])
    ensures forall k | 0 <= k < First(mutants, i) :: !SameSelection(mutants[k], mutants[i])
  {
    var keys, f := Selections(mutants), First(mutants, i);
    SelectionsAgree(mutants[f], mutants[i]);
    forall k | 0 <= k < f ensures !SameSelection(mutants[k], mutants[i]) {
      SelectionsAgree(mutants[k], mutants[i]);
      assert keys[k] == keys[..f][k];
    }
  }

  /** The run succeeds exactly when its source holds still and every mutant is caught. */
  lemma ZeroIffAllCaught(mutants: seq<Mutant>, w: World, controls: seq<Account>, accounts: seq<Account>)
    requires |controls| == |accounts| == |mutants| && w.depth >= 1
    requires forall i | 0 <= i < |mutants| ::
      Ended(w.baseline(First(mutants, i)), controls[i], true) && Ended(w.mutant(i), accounts[i], false)
    ensures ExitOf(Fates(mutants, w), w) == Some(0) <==>
      w.first.Some? && w.second == w.first && forall i | 0 <= i < |mutants| :: Caught(controls[i], accounts[i])
  {
    var fates := Fates(mutants, w);
    forall i | 0 <= i < |mutants| ensures fates[i] == Judged(true) <==> Caught(controls[i], accounts[i]) {
      KilledIffCaught(mutants, w, i, controls[i], accounts[i]);
    }
    if AllKilled(fates) { assert Crashed !in fates; }
  }
}
