/** What a run launches and prints, line by line (scripts/_mutations.py). */
module RunLog {
  import opened Texts
  import opened Wrappers
  import opened Evidence
  import opened MutationChild
  import opened MutationHarness
  import opened MutationVerdict

  // ----- which mutants have a control -----

  /** A control that counts: clean, with a test that passed and a collection that is not empty. */
  ghost predicate Credited(control: Account) {
    && CleanControl(control) && (exists t :: LogReport(t, Call, Passed, false) in control.hooks)
    && exists items :: items != [] && LastLoop(control.hooks, items)
  }

  lemma PassedTold(hooks: seq<Hook>, g: Gathered)
    requires SetsTold(hooks, g)
    ensures g.passed != {} <==> exists t :: LogReport(t, Call, Passed, false) in hooks
  {
    if g.passed != {} { var t :| t in g.passed; assert LogReport(t, Call, Passed, false) in hooks; }
    if t :| LogReport(t, Call, Passed, false) in hooks { assert t in g.passed; }
  }

  lemma CollectionTold(hooks: seq<Hook>, g: Gathered)
    requires LoopTold(hooks, true, g)
    ensures g.collection.Some? && g.collection.value != [] <==> exists items :: items != [] && LastLoop(hooks, items)
  {
    if g.collection.Some? { assert LastLoop(hooks, g.collection.value); }
    if items :| items != [] && LastLoop(hooks, items) { assert g.collection == Some(items); }
  }

  /** The control that the parent keeps has a test exactly when it counts. */
  lemma CreditedTold(child: Child, control: Account, depth: nat)
    requires Ended(child, control, true) && depth >= 1
    ensures ControlOf(child, depth).passed == {} <==> !Credited(control)
  {
    var g := Gather(control.hooks, true);
    ControlTold(child, control, depth);
    GatherTells(control.hooks, true);
    PassedTold(control.hooks, g);
    CollectionTold(control.hooks, g);
  }

  /** A mutant is given up before it is launched exactly when its control does not count. */
  lemma NoControlIff(mutants: seq<Mutant>, w: World, i: nat, control: Account)
    requires i < |mutants| && w.depth >= 1 && Ended(w.baseline(First(mutants, i)), control, true)
    ensures MemoFate(mutants, w, i) == NoControl <==> !Credited(control)
  {
    CreditedTold(w.baseline(First(mutants, i)), control, w.depth);
  }

  // ----- what there is to be launched and printed -----

  /** No mutant before i shares its test and module. */
  ghost predicate Opens(mutants: seq<Mutant>, i: nat) {
    i < |mutants| && forall k | 0 <= k < i :: !SameSelection(mutants[k], mutants[i])
  }

  ghost predicate Called(mutants: seq<Mutant>, i: nat, name: Text) { i < |mutants| && mutants[i].name == name }

  /** What a run that is not cut short launches and prints. */
  ghost predicate Due(mutants: seq<Mutant>, w: World, e: Effect) {
    match e
    case Snapshot => true
    case LaunchBaseline(i) => Opens(mutants, i)
    case LaunchMutant(i) => i < |mutants| && MemoFate(mutants, w, i) != NoControl
    case PrintBaseline(name) =>
      exists i: nat :: Called(mutants, i, name) && Opens(mutants, i) && MemoFate(mutants, w, i) != NoControl
    case PrintUnproven(name) =>
      exists i: nat :: Called(mutants, i, name) && (MemoFate(mutants, w, i) == NoControl || MemoFate(mutants, w, i) == Late)
    case PrintDrift => w.second != w.first
    case PrintVerdict(name, killed) =>
      exists i: nat :: Called(mutants, i, name) && MemoFate(mutants, w, i).Judged?
        && (killed <==> MemoFate(mutants, w, i) == Judged(true) && w.second == w.first)
  }

  lemma OpensIff(mutants: seq<Mutant>, i: nat)
    requires i < |mutants|
    ensures First(mutants, i) == i <==> Opens(mutants, i)
  {
    FirstOfSelection(mutants, i);
  }

  /** What iteration i is due. */
  ghost predicate DueAt(mutants: seq<Mutant>, w: World, i: nat, e: Effect)
    requires i < |mutants|
  {
    var fate := MemoFate(mutants, w, i);
    || (Opens(mutants, i) && (e == LaunchBaseline(i) || (e == PrintBaseline(mutants[i].name) && fate != NoControl)))
    || (e == LaunchMutant(i) && fate != NoControl)
    || (e == PrintUnproven(mutants[i].name) && (fate == NoControl || fate == Late))
  }

  lemma StepTold(mutants: seq<Mutant>, w: World, i: nat, e: Effect)
    requires i < |mutants|
    ensures e in StepOf(mutants, w, i) <==> DueAt(mutants, w, i, e)
  {
    OpensIff(mutants, i);
  }

  lemma {:induction false} InFlatten(steps: seq<seq<Effect>>, e: Effect)
    ensures e in Flatten(steps) <==> exists i :: 0 <= i < |steps| && e in steps[i]
  {
    if steps != [] {
      var n := |steps| - 1;
      InFlatten(steps[..n], e);
      if i :| 0 <= i < |steps| && e in steps[i] {
        assert i < n ==> steps[..n][i] == steps[i];
      }
      if i :| 0 <= i < n && e in steps[..n][i] { assert e in steps[i]; }
    }
  }

  /** What the loop launches and prints. */
  lemma LoopDoes(mutants: seq<Mutant>, w: World, e: Effect)
    ensures e in Flatten(Steps(mutants, w)) <==> exists i :: 0 <= i < |mutants| && DueAt(mutants, w, i, e)
  {
    var steps := Steps(mutants, w);
    InFlatten(steps, e);
    forall i | 0 <= i < |mutants| ensures e in steps[i] <==> DueAt(mutants, w, i, e) { StepTold(mutants, w, i, e); }
  }

  // ----- the verdict lines -----

  /** The mutants judged among the first n, in their order. */
  ghost function JudgedBelow(fates: seq<Fate>, n: nat): seq<nat>
    requires n <= |fates|
  {
    if n == 0 then [] else JudgedBelow(fates, n - 1) + (if fates[n - 1].Judged? then [n - 1] else [])
  }

  /** These are the judged ones among the first n, in their order. */
  ghost predicate AreJudged(fates: seq<Fate>, judged: seq<nat>, n: nat)
    requires n <= |fates|
  {
    && (forall i: nat :: i in judged <==> i < n && fates[i].Judged?)
    && forall j, k | 0 <= j < k < |judged| :: judged[j] < judged[k]
  }

  lemma {:induction false} JudgedInOrder(fates: seq<Fate>, n: nat)
    requires n <= |fates|
    ensures AreJudged(fates, JudgedBelow(fates, n), n)
  {
    if n > 0 {
      JudgedInOrder(fates, n - 1);
      OneMoreJudged(fates, JudgedBelow(fates, n - 1), n);
    }
  }

  lemma OneMoreJudged(fates: seq<Fate>, judged: seq<nat>, n: nat)
    requires 0 < n <= |fates| && AreJudged(fates, judged, n - 1)
    ensures AreJudged(fates, judged + (if fates[n - 1].Judged? then [n - 1] else []), n)
  {
    var more := judged + (if fates[n - 1].Judged? then [n - 1] else []);
    forall i: nat ensures i in more <==> i in judged || (i == n - 1 && fates[i].Judged?) {}
    forall k | 0 <= k < |judged| ensures judged[k] < n - 1 { assert judged[k] in judged; }
  }

  /** An outcome for each of these mutants. */
  ghost predicate OutcomesOf(mutants: seq<Mutant>, fates: seq<Fate>, judged: seq<nat>, outcomes: seq<(Text, bool)>)
    requires |mutants| == |fates|
  {
    && |outcomes| == |judged|
    && forall k | 0 <= k < |judged| :: judged[k] < |mutants|
         && outcomes[k] == (mutants[judged[k]].name, fates[judged[k]] == Judged(true))
  }

  lemma {:induction false} OutcomesTold(mutants: seq<Mutant>, fates: seq<Fate>, n: nat)
    requires n <= |mutants| == |fates|
    ensures OutcomesOf(mutants, fates, JudgedBelow(fates, n), Outcomes(mutants, fates, n))
  {
    if n > 0 { OutcomesTold(mutants, fates, n - 1); }
  }

  /** One line for each judged mutant, in their order: KILLED if it was killed and the source held still. */
  ghost predicate VerdictLines(mutants: seq<Mutant>, w: World, judged: seq<nat>, lines: seq<Effect>) {
    && (forall i: nat :: i in judged <==> i < |mutants| && MemoFate(mutants, w, i).Judged?)
    && (forall j, k | 0 <= j < k < |judged| :: judged[j] < judged[k])
    && |lines| == |judged|
    && forall k | 0 <= k < |judged| :: judged[k] < |mutants| && lines[k] ==
         PrintVerdict(mutants[judged[k]].name, MemoFate(mutants, w, judged[k]) == Judged(true) && w.second == w.first)
  }

  lemma LinesTold(mutants: seq<Mutant>, w: World, fates: seq<Fate>)
    requires w.first.Some? && fates == Fates(mutants, w)
    ensures VerdictLines(mutants, w, JudgedBelow(fates, |mutants|), Published(Outcomes(mutants, fates, |mutants|), Stable(w)))
  {
    JudgedInOrder(fates, |mutants|);
    OutcomesTold(mutants, fates, |mutants|);
    PublishedAt(Outcomes(mutants, fates, |mutants|), Stable(w));
    assert forall i | 0 <= i < |fates| :: fates[i] == MemoFate(mutants, w, i);
  }

  // ----- the whole log -----

  /** Of a run that is not cut short, what it launches and prints, and its last lines. */
  lemma LogTells(mutants: seq<Mutant>, w: World, log: seq<Effect>)
    requires w.first.Some? && log == FullLog(mutants, w)
    ensures forall e :: e in log <==> Due(mutants, w, e)
    ensures exists judged, lines :: VerdictLines(mutants, w, judged, lines) && VerdictsIn(log) == lines
  {
    forall e ensures e in log <==> Due(mutants, w, e) { LogHas(mutants, w, e); }
    var effects, outcomes := Flatten(Steps(mutants, w)), Outcomes(mutants, Fates(mutants, w), |mutants|);
    LinesTold(mutants, w, Fates(mutants, w));
    NoVerdictsYet(mutants, w, |mutants|);
    TakeAll(Steps(mutants, w));
    LastVerdicts(effects, w, outcomes);
  }

  lemma LogHas(mutants: seq<Mutant>, w: World, e: Effect)
    requires w.first.Some?
    ensures e in FullLog(mutants, w) <==> Due(mutants, w, e)
  {
    var fates := Fates(mutants, w);
    var lines := Published(Outcomes(mutants, fates, |mutants|), Stable(w));
    LoopDoes(mutants, w, e);
    LinesTold(mutants, w, fates);
    LinesHave(mutants, w, JudgedBelow(fates, |mutants|), lines, e);
    LoopDue(mutants, w, e);
    assert e in FullLog(mutants, w) <==> e == Snapshot || e in Flatten(Steps(mutants, w)) || e in Ending(w) || e in lines;
  }

  /** The verdict lines among what is due. */
  lemma LinesHave(mutants: seq<Mutant>, w: World, judged: seq<nat>, lines: seq<Effect>, e: Effect)
    requires VerdictLines(mutants, w, judged, lines)
    ensures e in lines <==> e.PrintVerdict? && Due(mutants, w, e)
  {
    if k :| 0 <= k < |lines| && lines[k] == e { assert Called(mutants, judged[k], e.name) && judged[k] in judged; }
    if e.PrintVerdict? && Due(mutants, w, e) {
      var i: nat :| Called(mutants, i, e.name) && MemoFate(mutants, w, i).Judged?
        && (e.killed <==> MemoFate(mutants, w, i) == Judged(true) && w.second == w.first);
      assert i in judged;
      var k :| 0 <= k < |judged| && judged[k] == i;
      assert lines[k] == e;
    }
  }

  /** What the loop does among what is due. */
  lemma LoopDue(mutants: seq<Mutant>, w: World, e: Effect)
    ensures (exists i :: 0 <= i < |mutants| && DueAt(mutants, w, i, e)) <==>
      (e.LaunchBaseline? || e.LaunchMutant? || e.PrintBaseline? || e.PrintUnproven?) && Due(mutants, w, e)
  {
    if i :| 0 <= i < |mutants| && DueAt(mutants, w, i, e) {
      if e.PrintBaseline? || e.PrintUnproven? { assert Called(mutants, i, e.name); }
    }
    match e {
      case LaunchBaseline(i) => if Opens(mutants, i) { assert DueAt(mutants, w, i, e); }
      case LaunchMutant(i) => if i < |mutants| && MemoFate(mutants, w, i) != NoControl { assert DueAt(mutants, w, i, e); }
      case PrintBaseline(name) =>
        if i: nat :| Called(mutants, i, name) && Opens(mutants, i) && MemoFate(mutants, w, i) != NoControl {
          assert DueAt(mutants, w, i, e);
        }
      case PrintUnproven(name) =>
        if i: nat :| Called(mutants, i, name) && (MemoFate(mutants, w, i) == NoControl || MemoFate(mutants, w, i) == Late) {
          assert DueAt(mutants, w, i, e);
        }
      case _ =>
    }
  }
}
