/**
  The parent loop of a mutation run: memoised baselines, one child per mutant,
  and verdicts withheld until the source is read again (scripts/_mutations.py).
 */
module MutationHarness {
  import opened Texts
  import opened Wrappers
  import opened Evidence
  import opened MutationChild

  const COLON: Code := 58

  datatype Mutant = Mutant(name: Text, target: Text, before: Text, after: Text, test: Text)

  /** A child's end: its exit code and output, a timeout, or an OSError at launch. */
  datatype Child = Exited(returncode: int, stdout: Text) | TimedOut | NotStarted

  /** What the run meets outside: both snapshots, and the child each launch would be. */
  datatype World = World(first: Option<Text>, second: Option<Text>,
                         baseline: nat -> Child, mutant: nat -> Child, depth: nat)

  /** sys.argv of a child: the mutant it is for, and whether it is that mutant's baseline. */
  datatype Argv = Argv(index: nat, baseline: bool)

  /**
    The two branches of a child as functions of what each reads of its mutant: a baseline imports the target's
    module and runs the test; a mutant also prepares the changed function.
   */
  datatype Branches = Branches(baseline: (Text, Text) -> Child, mutant: (Text, Text, Text, Text) -> Child)

  /** target.split(":")[0] */
  function ModuleOf(target: Text): Text { Split(target, COLON)[0] }

  function ChildOf(mutants: seq<Mutant>, branches: Branches, argv: Argv): Child
    requires argv.index < |mutants|
  {
    var m := mutants[argv.index];
    if argv.baseline then branches.baseline(ModuleOf(m.target), m.test)
    else branches.mutant(m.target, m.before, m.after, m.test)
  }

  /** The world in which every launch gives what its child computes. */
  function WorldOf(mutants: seq<Mutant>, branches: Branches, first: Option<Text>, second: Option<Text>, depth: nat): World {
    World(first, second,
          (i: nat) => if i < |mutants| then ChildOf(mutants, branches, Argv(i, true)) else NotStarted,
          (i: nat) => if i < |mutants| then ChildOf(mutants, branches, Argv(i, false)) else NotStarted, depth)
  }

  type Selection = (Text, Text)

  function SelectionOf(m: Mutant): Selection {
    (m.test, ModuleOf(m.target))
  }

  /** A cached baseline: the tests that passed and the collection they passed in. */
  datatype Control = Control(passed: set<Text>, collection: Option<seq<Text>>)

  function ControlOf(child: Child, depth: nat): Control {
    if !child.Exited? || child.returncode != 0 then Control({}, None)
    else
      var passed := EvidenceNodeids(child.stdout, BASELINE_PASSED, depth);
      var collection := EvidenceCollection(child.stdout, COLLECTION, depth);
      if passed == {} || collection.None? then Control({}, None) else Control(passed, collection)
  }

  function Killed(c: Control, child: Child, depth: nat): bool {
    && child.Exited? && child.returncode == 1
    && c.collection == EvidenceCollection(child.stdout, COLLECTION, depth)
    && c.passed * EvidenceNodeids(child.stdout, ASSERTION_FAILURE, depth) != {}
  }

  datatype Fate = NoControl | Late | Crashed | Judged(killed: bool)

  /** How one mutant fares against a control; an OSError launching the mutant is not caught. */
  function FateOf(c: Control, child: Child, depth: nat): Fate {
    if c.passed == {} then NoControl
    else match child
      case TimedOut => Late
      case NotStarted => Crashed
      case Exited(_, _) => Judged(Killed(c, child, depth))
  }

  // ----- effects -----

  datatype Effect =
    | Snapshot
    | LaunchBaseline(index: nat)
    | LaunchMutant(index: nat)
    | PrintBaseline(name: Text)
    | PrintUnproven(name: Text)
    | PrintDrift
    | PrintVerdict(name: Text, killed: bool)

  /** The cache key of every mutant. */
  function Selections(mutants: seq<Mutant>): (r: seq<Selection>)
    ensures |r| == |mutants|
    ensures forall i | 0 <= i < |r| :: r[i] == SelectionOf(mutants[i])
  {
    seq(|mutants|, i requires 0 <= i < |mutants| => SelectionOf(mutants[i]))
  }

  /** The first position holding the same key as position i. */
  function FirstOf<K(==)>(keys: seq<K>, i: nat): (j: nat)
    requires i < |keys|
    ensures j <= i && keys[j] == keys[i] && keys[i] !in keys[..j]
  {
    if keys[0] == keys[i] then 0
    else
      var j := FirstOf(keys[1..], i - 1);
      assert keys[..j + 1] == [keys[0]] + keys[1..][..j];
      j + 1
  }

  /** The first mutant with the same selection as mutant i. */
  function First(mutants: seq<Mutant>, i: nat): (j: nat)
    requires i < |mutants|
    ensures j <= i
  {
    FirstOf(Selections(mutants), i)
  }

  /** Mutant i's fate under the cached baseline of its selection. */
  function MemoFate(mutants: seq<Mutant>, w: World, i: nat): Fate
    requires i < |mutants|
  {
    FateOf(ControlOf(w.baseline(First(mutants, i)), w.depth), w.mutant(i), w.depth)
  }

  /** Every mutant's fate in a run that memoises baselines. */
  function Fates(mutants: seq<Mutant>, w: World): (r: seq<Fate>)
    ensures |r| == |mutants|
  {
    seq(|mutants|, i requires 0 <= i < |mutants| => MemoFate(mutants, w, i))
  }

  /** Mutant i's fate when its baseline is run again just for it. */
  function FreshFate(w: World, i: nat): Fate {
    FateOf(ControlOf(w.baseline(i), w.depth), w.mutant(i), w.depth)
  }

  /** Iteration i's baseline child, launched for the first mutant of a selection only. */
  function Opening(mutants: seq<Mutant>, w: World, i: nat): seq<Effect>
    requires i < |mutants|
  {
    if First(mutants, i) != i then []
    else [LaunchBaseline(i)]
         + (if ControlOf(w.baseline(i), w.depth).passed != {} then [PrintBaseline(mutants[i].name)] else [])
  }

  /** What iteration i does with its mutant. */
  function Closing(m: Mutant, fate: Fate, i: nat): seq<Effect> {
    match fate
    case NoControl => [PrintUnproven(m.name)]
    case Late => [LaunchMutant(i), PrintUnproven(m.name)]
    case _ => [LaunchMutant(i)]
  }

  function StepOf(mutants: seq<Mutant>, w: World, i: nat): seq<Effect>
    requires i < |mutants|
  {
    Opening(mutants, w, i) + Closing(mutants[i], MemoFate(mutants, w, i), i)
  }

  /** What every iteration launches and prints. */
  function Steps(mutants: seq<Mutant>, w: World): (r: seq<seq<Effect>>)
    ensures |r| == |mutants|
  {
    seq(|mutants|, i requires 0 <= i < |mutants| => StepOf(mutants, w, i))
  }

  function Flatten(steps: seq<seq<Effect>>): seq<Effect> {
    if steps == [] then [] else Flatten(steps[..|steps| - 1]) + steps[|steps| - 1]
  }

  /** The judged mutants among the first n. */
  function Outcomes(mutants: seq<Mutant>, fates: seq<Fate>, n: nat): seq<(Text, bool)>
    requires n <= |mutants| == |fates|
  {
    if n == 0 then [] else Outcomes(mutants, fates, n - 1) + OutcomeOf(mutants[n - 1], fates[n - 1])
  }

  function OutcomeOf(m: Mutant, fate: Fate): seq<(Text, bool)> {
    match fate
    case Judged(killed) => [(m.name, killed)]
    case _ => []
  }

  function Published(outcomes: seq<(Text, bool)>, stable: bool): seq<Effect> {
    if outcomes == [] then []
    else [PrintVerdict(outcomes[0].0, outcomes[0].1 && stable)] + Published(outcomes[1..], stable)
  }

  predicate Stable(w: World) {
    w.first.Some? && w.second == w.first
  }

  predicate AllKilled(fates: seq<Fate>) {
    forall i | 0 <= i < |fates| :: fates[i] == Judged(true)
  }

  /** The effects of a run that is not cut short. */
  function FullLog(mutants: seq<Mutant>, w: World): seq<Effect> {
    [Snapshot] + Flatten(Steps(mutants, w)) + Ending(w)
    + Published(Outcomes(mutants, Fates(mutants, w), |mutants|), Stable(w))
  }

  /** The second snapshot, and the complaint when it differs. */
  function Ending(w: World): seq<Effect> {
    [Snapshot] + (if Stable(w) then [] else [PrintDrift])
  }

  // ----- the loop -----

  /** The cache holds the wanted value of every key met so far, and no other key. */
  ghost predicate CacheOk<K(!new), V>(cache: map<K, V>, keys: seq<K>, wanted: seq<V>, n: nat)
    requires n <= |keys| == |wanted|
  {
    && (forall j | 0 <= j < n :: keys[j] in cache && cache[keys[j]] == wanted[j])
    && (forall k | k in cache :: k in keys[..n])
  }

  lemma SameFirst<K>(keys: seq<K>, i: nat, j: nat)
    requires i < |keys| && j < |keys| && keys[i] == keys[j]
    ensures FirstOf(keys, i) == FirstOf(keys, j)
  {}

  lemma FirstOfFirst<K>(keys: seq<K>, i: nat)
    requires i < |keys|
    ensures FirstOf(keys, FirstOf(keys, i)) == FirstOf(keys, i)
  {
    SameFirst(keys, FirstOf(keys, i), i);
  }

  /** A key is new exactly at its first position. */
  lemma NewKey<K(!new), V>(cache: map<K, V>, keys: seq<K>, wanted: seq<V>, n: nat)
    requires n < |keys| == |wanted| && CacheOk(cache, keys, wanted, n)
    ensures keys[n] in cache <==> FirstOf(keys, n) != n
    ensures FirstOf(keys, n) < n ==> cache[keys[n]] == wanted[FirstOf(keys, n)]
  {
    var f := FirstOf(keys, n);
  }

  lemma CacheGrows<K(!new), V>(cache: map<K, V>, keys: seq<K>, wanted: seq<V>, n: nat)
    requires n < |keys| == |wanted| && CacheOk(cache, keys, wanted, n)
    requires forall i, j | 0 <= i < n && j == n && keys[i] == keys[j] :: wanted[i] == wanted[j]
    ensures CacheOk(cache[keys[n] := wanted[n]], keys, wanted, n + 1)
  {
    TakeMore(keys, n);
    assert keys[n] in keys[..n + 1];
    assert forall k | k in keys[..n] :: k in keys[..n + 1];
  }

  /** The control each mutant is to be judged by: its selection's first baseline. */
  ghost function Controls(mutants: seq<Mutant>, w: World): (r: seq<Control>)
    ensures |r| == |mutants|
    ensures forall i | 0 <= i < |r| :: r[i] == ControlOf(w.baseline(First(mutants, i)), w.depth)
  {
    seq(|mutants|, i requires 0 <= i < |mutants| => ControlOf(w.baseline(First(mutants, i)), w.depth))
  }

  ghost predicate Cached(baselines: map<Selection, Control>, mutants: seq<Mutant>, w: World, n: nat)
    requires n <= |mutants|
  {
    CacheOk(baselines, Selections(mutants), Controls(mutants, w), n)
  }

  /** What the cache has for mutant index, and what it is once its control has been put there. */
  lemma CachedControl(mutants: seq<Mutant>, w: World, index: nat, baselines: map<Selection, Control>, control: Control)
    requires index < |mutants| && Cached(baselines, mutants, w, index)
    requires control == ControlOf(w.baseline(First(mutants, index)), w.depth)
    ensures SelectionOf(mutants[index]) in baselines <==> First(mutants, index) != index
    ensures SelectionOf(mutants[index]) in baselines ==> baselines[SelectionOf(mutants[index])] == control
    ensures Cached(baselines[SelectionOf(mutants[index]) := control], mutants, w, index + 1)
  {
    var keys, controls := Selections(mutants), Controls(mutants, w);
    NewKey(baselines, keys, controls, index);
    FirstOfFirst(keys, index);
    forall j | 0 <= j < index && keys[j] == keys[index] ensures controls[j] == controls[index] {
      SameFirst(keys, j, index);
    }
    CacheGrows(baselines, keys, controls, index);
  }

  lemma StaysCached(cache: map<Selection, Control>, key: Selection)
    requires key in cache
    ensures cache[key := cache[key]] == cache
  {}

  /** The control for mutant index, from the cache or from a fresh baseline child. */
  method Baseline(mutants: seq<Mutant>, w: World, index: nat, baselines: map<Selection, Control>)
    returns (updated: map<Selection, Control>, control: Control, effects: seq<Effect>)
    requires index < |mutants| && Cached(baselines, mutants, w, index)
    ensures Cached(updated, mutants, w, index + 1)
    ensures control == ControlOf(w.baseline(First(mutants, index)), w.depth)
    ensures effects == Opening(mutants, w, index)
  {
    var selection := SelectionOf(mutants[index]);
    CachedControl(mutants, w, index, baselines, ControlOf(w.baseline(First(mutants, index)), w.depth));
    if selection !in baselines {
      effects := [LaunchBaseline(index)];
      control := ControlOf(w.baseline(index), w.depth);
      updated := baselines[selection := control];
      if control.passed != {} {
        effects := effects + [PrintBaseline(mutants[index].name)];
      } else {
        effects := effects + [];
      }
    } else {
      updated, control, effects := baselines, baselines[selection], [];
      StaysCached(baselines, selection);
    }
  }

  /** The mutant's own child, when its control passed. */
  method Judge(m: Mutant, w: World, index: nat, control: Control) returns (fate: Fate, effects: seq<Effect>)
    ensures fate == FateOf(control, w.mutant(index), w.depth)
    ensures effects == Closing(m, fate, index)
  {
    if control.passed == {} {
      return NoControl, [PrintUnproven(m.name)];
    }
    match w.mutant(index) {
      case TimedOut => return Late, [LaunchMutant(index), PrintUnproven(m.name)];
      case NotStarted => return Crashed, [LaunchMutant(index)];
      case Exited(_, _) => return Judged(Killed(control, w.mutant(index), w.depth)), [LaunchMutant(index)];
    }
  }

  /** One pass of the loop body. */
  method Iterate(mutants: seq<Mutant>, w: World, index: nat, baselines: map<Selection, Control>)
    returns (updated: map<Selection, Control>, fate: Fate, effects: seq<Effect>)
    requires index < |mutants| && Cached(baselines, mutants, w, index)
    ensures Cached(updated, mutants, w, index + 1)
    ensures fate == MemoFate(mutants, w, index) && effects == StepOf(mutants, w, index)
  {
    var control, opening, closing;
    updated, control, opening := Baseline(mutants, w, index, baselines);
    fate, closing := Judge(mutants[index], w, index, control);
    effects := opening + closing;
  }

  /** The verdict lines, in the order the mutants were judged. */
  method Publish(outcomes: seq<(Text, bool)>, stable: bool) returns (lines: seq<Effect>)
    ensures lines == Published(outcomes, stable)
  {
    lines := [];
    assert outcomes[0..] == outcomes && [] + Published(outcomes, stable) == Published(outcomes, stable);
    for k := 0 to |outcomes|
      invariant Published(outcomes, stable) == lines + Published(outcomes[k..], stable)
    {
      assert outcomes[k..][1..] == outcomes[k + 1..];
      var line := PrintVerdict(outcomes[k].0, outcomes[k].1 && stable);
      ConcatAssociative(lines, [line], Published(outcomes[k + 1..], stable));
      lines := lines + [line];
    }
    assert outcomes[|outcomes|..] == [] && lines + [] == lines;
  }

  lemma FlattenMore(steps: seq<seq<Effect>>, n: nat)
    requires n < |steps|
    ensures Flatten(steps[..n + 1]) == Flatten(steps[..n]) + steps[n]
  {
    assert steps[..n + 1][..n] == steps[..n];
  }

  lemma KilledMore(fates: seq<Fate>, fate: Fate)
    ensures AllKilled(fates + [fate]) <==> AllKilled(fates) && fate == Judged(true)
    ensures Crashed in fates + [fate] <==> Crashed in fates || fate == Crashed
  {
    var all := fates + [fate];
    assert all[|fates|] == fate && forall i | 0 <= i < |fates| :: all[i] == fates[i];
  }

  /** What the loop has once the first n mutants have been judged without a crash. */
  ghost predicate SoFar(mutants: seq<Mutant>, fates: seq<Fate>, steps: seq<seq<Effect>>, n: nat,
                        failed: bool, outcomes: seq<(Text, bool)>, log: seq<Effect>)
    requires n <= |mutants| == |fates| == |steps|
  {
    && Crashed !in fates[..n] && log == Flatten(steps[..n])
    && (failed <==> !AllKilled(fates[..n])) && outcomes == Outcomes(mutants, fates, n)
  }

  lemma StartsEmpty(mutants: seq<Mutant>, fates: seq<Fate>, steps: seq<seq<Effect>>)
    requires |mutants| == |fates| == |steps|
    ensures SoFar(mutants, fates, steps, 0, false, [], [])
  {}

  /** One more mutant. */
  lemma OneMore(mutants: seq<Mutant>, fates: seq<Fate>, steps: seq<seq<Effect>>, n: nat,
                failed: bool, outcomes: seq<(Text, bool)>, log: seq<Effect>)
    requires n < |mutants| == |fates| == |steps| && SoFar(mutants, fates, steps, n, failed, outcomes, log)
    ensures log + steps[n] == Flatten(steps[..n + 1])
    ensures fates[n] != Crashed ==>
      SoFar(mutants, fates, steps, n + 1, failed || fates[n] != Judged(true), outcomes + OutcomeOf(mutants[n], fates[n]), log + steps[n])
  {
    TakeMore(fates, n);
    KilledMore(fates[..n], fates[n]);
    FlattenMore(steps, n);
  }

  lemma AllDone(mutants: seq<Mutant>, fates: seq<Fate>, steps: seq<seq<Effect>>,
                failed: bool, outcomes: seq<(Text, bool)>, log: seq<Effect>)
    requires |mutants| == |fates| == |steps| && SoFar(mutants, fates, steps, |mutants|, failed, outcomes, log)
    ensures Crashed !in fates && (failed <==> !AllKilled(fates))
    ensures outcomes == Outcomes(mutants, fates, |mutants|) && log == Flatten(steps)
  {
    TakeAll(steps);
    TakeAll(fates);
  }

  /** The loop over the mutants; an uncaught OSError leaves it early. */
  method Loop(mutants: seq<Mutant>, w: World, ghost fates: seq<Fate>, ghost steps: seq<seq<Effect>>)
    returns (crashed: bool, failed: bool, outcomes: seq<(Text, bool)>, log: seq<Effect>)
    requires |fates| == |steps| == |mutants|
    requires forall i {:trigger MemoFate(mutants, w, i)} | 0 <= i < |mutants| :: fates[i] == MemoFate(mutants, w, i)
    requires forall i {:trigger StepOf(mutants, w, i)} | 0 <= i < |mutants| :: steps[i] == StepOf(mutants, w, i)
    ensures crashed <==> Crashed in fates
    ensures crashed ==> exists n | 0 <= n <= |steps| :: log == Flatten(steps[..n])
    ensures !crashed ==>
      (failed <==> !AllKilled(fates)) && outcomes == Outcomes(mutants, fates, |mutants|) && log == Flatten(steps)
  {
    var baselines: map<Selection, Control> := map[];
    outcomes, failed, log := [], false, [];
    StartsEmpty(mutants, fates, steps);
    for index := 0 to |mutants|
      invariant Cached(baselines, mutants, w, index)
      invariant SoFar(mutants, fates, steps, index, failed, outcomes, log)
    {
      var fate, effects;
      baselines, fate, effects := Iterate(mutants, w, index, baselines);
      OneMore(mutants, fates, steps, index, failed, outcomes, log);
      log := log + effects;
      if fate == Crashed {
        return true, failed, outcomes, log;
      }
      outcomes := outcomes + OutcomeOf(mutants[index], fate);
      failed := failed || fate != Judged(true);
    }
    AllDone(mutants, fates, steps, failed, outcomes, log);
    crashed := false;
  }

  /** run(mutants): the exit status, or None when an uncaught OSError ends it. */
  method Run(mutants: seq<Mutant>, w: World) returns (exit: Option<int>, log: seq<Effect>)
    ensures w.first.None? ==> exit == Some(1) && log == [Snapshot, PrintDrift]
    ensures w.first.Some? ==> (exit.None? <==> Crashed in Fates(mutants, w))
    ensures w.first.Some? && exit.Some? ==>
      log == FullLog(mutants, w) && exit == Some(if AllKilled(Fates(mutants, w)) && Stable(w) then 0 else 1)
    ensures exit.None? ==> forall e | e in log :: !e.PrintVerdict?
    ensures exit == ExitOf(Fates(mutants, w), w) && VerdictsIn(log) == LinesOf(mutants, Fates(mutants, w), w)
  {
    if w.first.None? {
      return Some(1), [Snapshot, PrintDrift];
    }
    var crashed, failed, outcomes, effects := Loop(mutants, w, Fates(mutants, w), Steps(mutants, w));
    log := [Snapshot] + effects;
    if crashed {
      ghost var n :| 0 <= n <= |mutants| && effects == Flatten(Steps(mutants, w)[..n]);
      NoVerdictsYet(mutants, w, n);
      NoVerdicts(log);
      return None, log;
    }
    var stable := w.second == w.first;
    log := log + ([Snapshot] + (if stable then [] else [PrintDrift]));
    var lines := Publish(outcomes, stable);
    NoVerdictsYet(mutants, w, |mutants|);
    TakeAll(Steps(mutants, w));
    LastVerdicts(effects, w, outcomes);
    return Some(if failed || !stable then 1 else 0), log + lines;
  }

  predicate Silent(effects: seq<Effect>) {
    forall e | e in effects :: !e.PrintVerdict? && e != Snapshot
  }

  lemma StepSilent(mutants: seq<Mutant>, w: World, i: nat)
    requires i < |mutants|
    ensures Silent(Steps(mutants, w)[i])
  {
    assert Silent(Opening(mutants, w, i));
    assert Silent(Closing(mutants[i], MemoFate(mutants, w, i), i));
  }

  lemma SilentAppend(a: seq<Effect>, b: seq<Effect>)
    requires Silent(a) && Silent(b)
    ensures Silent(a + b)
  {}

  lemma {:induction false} NoVerdictsYet(mutants: seq<Mutant>, w: World, n: nat)
    requires n <= |mutants|
    ensures Silent(Flatten(Steps(mutants, w)[..n]))
  {
    if n > 0 {
      var steps := Steps(mutants, w);
      NoVerdictsYet(mutants, w, n - 1);
      FlattenMore(steps, n - 1);
      StepSilent(mutants, w, n - 1);
      SilentAppend(Flatten(steps[..n - 1]), steps[n - 1]);
    }
  }

  // ----- what an exit status of zero means -----

  /** The lines that report every listed mutant KILLED. */
  function KilledLines(mutants: seq<Mutant>): (r: seq<Effect>)
    ensures |r| == |mutants|
    ensures forall i | 0 <= i < |r| :: r[i] == PrintVerdict(mutants[i].name, true)
  {
    seq(|mutants|, i requires 0 <= i < |mutants| => PrintVerdict(mutants[i].name, true))
  }

  lemma {:induction false} PublishedAt(outcomes: seq<(Text, bool)>, stable: bool)
    ensures |Published(outcomes, stable)| == |outcomes|
    ensures forall k | 0 <= k < |outcomes| ::
      Published(outcomes, stable)[k] == PrintVerdict(outcomes[k].0, outcomes[k].1 && stable)
  {
    if outcomes != [] { PublishedAt(outcomes[1..], stable); }
  }

  /** Only when every mutant was judged is there an outcome for each. */
  lemma {:induction false} OutcomesCount(mutants: seq<Mutant>, fates: seq<Fate>, n: nat)
    requires n <= |mutants| == |fates|
    ensures |Outcomes(mutants, fates, n)| <= n
    ensures |Outcomes(mutants, fates, n)| == n ==> forall i | 0 <= i < n ::
      fates[i].Judged? && Outcomes(mutants, fates, n)[i] == (mutants[i].name, fates[i].killed)
    ensures (forall i | 0 <= i < n :: fates[i].Judged?) ==> |Outcomes(mutants, fates, n)| == n
  {
    if n > 0 { OutcomesCount(mutants, fates, n - 1); }
  }

  /**
    Success is exactly: every listed mutant reported KILLED -- except that an
    empty list reports nothing and still needs an unchanged source.
   */
  lemma ZeroIffAllReportedKilled(mutants: seq<Mutant>, fates: seq<Fate>, stable: bool)
    requires |mutants| == |fates|
    ensures AllKilled(fates) && stable <==>
      && Published(Outcomes(mutants, fates, |mutants|), stable) == KilledLines(mutants)
      && (mutants == [] ==> stable)
  {
    var n := |mutants|;
    var outcomes := Outcomes(mutants, fates, n);
    OutcomesCount(mutants, fates, n);
    PublishedAt(outcomes, stable);
    var lines := Published(outcomes, stable);
    if lines == KilledLines(mutants) {
      forall i | 0 <= i < n ensures fates[i] == Judged(true) && stable {
        assert lines[i] == PrintVerdict(mutants[i].name, true);
      }
    }
    if AllKilled(fates) && stable {
      assert lines == KilledLines(mutants);
    }
  }

  /** The exception is real: nothing listed, nothing unreported, and still a failure. */
  lemma EmptyListCanFail(w: World)
    requires w.first.Some? && w.second != w.first
    ensures Published(Outcomes([], Fates([], w), 0), Stable(w)) == KilledLines([])
    ensures !(AllKilled(Fates([], w)) && Stable(w))
  {}

  /** Every verdict follows the second snapshot, and none says KILLED unless it matched the first. */
  lemma VerdictsFollowSecondSnapshot(mutants: seq<Mutant>, w: World, k: nat)
    requires k < |FullLog(mutants, w)| && FullLog(mutants, w)[k].PrintVerdict?
    ensures exists i, j :: 0 <= i < j < k && FullLog(mutants, w)[i] == Snapshot && FullLog(mutants, w)[j] == Snapshot
    ensures FullLog(mutants, w)[k].killed ==> Stable(w)
  {
    var n := |mutants|;
    var effects, outcomes := Flatten(Steps(mutants, w)), Outcomes(mutants, Fates(mutants, w), n);
    NoVerdictsYet(mutants, w, n);
    TakeAll(Steps(mutants, w));
    PublishedAt(outcomes, Stable(w));
    LogLayout(effects, Ending(w), Published(outcomes, Stable(w)), k);
  }

  lemma LogLayout(effects: seq<Effect>, ending: seq<Effect>, lines: seq<Effect>, k: nat)
    requires Silent(effects) && ending != [] && ending[0] == Snapshot
    requires forall e | e in ending :: !e.PrintVerdict?
    requires var log := [Snapshot] + effects + ending + lines; k < |log| && log[k].PrintVerdict?
    ensures var log := [Snapshot] + effects + ending + lines;
      log[0] == Snapshot && 0 < 1 + |effects| < k && log[1 + |effects|] == Snapshot
      && k >= 1 + |effects| + |ending| && log[k] == lines[k - 1 - |effects| - |ending|]
  {
    var log := [Snapshot] + effects + ending + lines;
    assert forall x | 0 <= x < |effects| :: log[1 + x] == effects[x] && effects[x] in effects;
    assert forall x | 0 <= x < |ending| :: log[1 + |effects| + x] == ending[x] && ending[x] in ending;
    assert k >= 1 + |effects| + |ending| by {
      assert k >= 1 && !(0 <= k - 1 < |effects|) && !(0 <= k - 1 - |effects| < |ending|);
    }
  }

  // ----- what KILLED means -----

  /**
    A KILLED mutant was caught: some test passed in its clean, unmutated control,
    and with the same collection failed by assertion in its call phase once the
    mutant was active.
   */
  lemma KilledMeansCaught(mutants: seq<Mutant>, w: World, i: nat, control: Account, mutant: Account)
    requires i < |mutants| && w.depth >= 1 && MemoFate(mutants, w, i) == Judged(true)
    requires w.baseline(First(mutants, i)) == Exited(control.status, Stdout(control, true))
    requires w.mutant(i) == Exited(mutant.status, Stdout(mutant, false))
    requires Trustworthy(control) && Trustworthy(mutant)
    ensures SelectionOf(mutants[First(mutants, i)]) == SelectionOf(mutants[i])
    ensures control.status == 0 && mutant.status == 1
    ensures forall h | h in control.hooks :: Clean(h)
    ensures Gather(mutant.hooks, false).activated && Gather(mutant.hooks, false).errors == 0
    ensures Gather(control.hooks, true).collection.Some?
    ensures Gather(control.hooks, true).collection == Gather(mutant.hooks, false).collection
    ensures exists t | LogReport(t, Call, Passed, false) in control.hooks ::
      MakeReport(t, Call, Assertion) in mutant.hooks && LogReport(t, Call, Failed, false) in mutant.hooks
  {
    SelectionShared(mutants, i);
    if control.reported { ParentReads(control, true, w.depth); } else { ParentReadsNothing(control, true, w.depth); }
    if mutant.reported { ParentReads(mutant, false, w.depth); } else { ParentReadsNothing(mutant, false, w.depth); }
    var c, m := Gather(control.hooks, true), Gather(mutant.hooks, false);
    assert control.reported && CreditsBaseline(c, true, control.status);
    assert mutant.reported && CreditsFailure(m, mutant.status);
    CleanWitness(control.hooks, true);
    PassedWitness(control.hooks, true);
    FailedWitness(mutant.hooks, false);
    var t :| t in c.passed * (m.assertions * m.failedCalls);
    assert LogReport(t, Call, Passed, false) in control.hooks;
  }

  lemma SelectionShared(mutants: seq<Mutant>, i: nat)
    requires i < |mutants|
    ensures SelectionOf(mutants[First(mutants, i)]) == SelectionOf(mutants[i])
  {
    var f := FirstOf(Selections(mutants), i);
  }

  // ----- memoising baselines loses nothing -----

  /** Every mutant's fate when each baseline is run again. */
  function FreshFates(mutants: seq<Mutant>, w: World): (r: seq<Fate>)
    ensures |r| == |mutants|
  {
    seq(|mutants|, i requires 0 <= i < |mutants| => FreshFate(w, i))
  }

  /** What iteration i launches and prints when each baseline is run again. */
  function FreshStep(mutants: seq<Mutant>, w: World, i: nat): seq<Effect>
    requires i < |mutants|
  {
    [LaunchBaseline(i)]
    + (if ControlOf(w.baseline(i), w.depth).passed != {} then [PrintBaseline(mutants[i].name)] else [])
    + Closing(mutants[i], FreshFate(w, i), i)
  }

  function FreshSteps(mutants: seq<Mutant>, w: World): (r: seq<seq<Effect>>)
    ensures |r| == |mutants|
  {
    seq(|mutants|, i requires 0 <= i < |mutants| => FreshStep(mutants, w, i))
  }

  /** The exit status these fates give, None when an uncaught OSError ends the run. */
  function ExitOf(fates: seq<Fate>, w: World): Option<int> {
    if w.first.None? then Some(1)
    else if Crashed in fates then None
    else Some(if AllKilled(fates) && Stable(w) then 0 else 1)
  }

  /** The verdict lines these fates give. */
  function LinesOf(mutants: seq<Mutant>, fates: seq<Fate>, w: World): seq<Effect>
    requires |fates| == |mutants|
  {
    if w.first.None? || Crashed in fates then [] else Published(Outcomes(mutants, fates, |mutants|), Stable(w))
  }

  /** The verdict lines of a log. */
  function VerdictsIn(log: seq<Effect>): seq<Effect> {
    if log == [] then [] else (if log[0].PrintVerdict? then [log[0]] else []) + VerdictsIn(log[1..])
  }

  lemma {:induction false} VerdictsAppend(a: seq<Effect>, b: seq<Effect>)
    ensures VerdictsIn(a + b) == VerdictsIn(a) + VerdictsIn(b)
  {
    if a == [] {
      assert a + b == b;
    } else {
      assert (a + b)[1..] == a[1..] + b;
      VerdictsAppend(a[1..], b);
    }
  }

  lemma {:induction false} NoVerdicts(log: seq<Effect>)
    requires forall e | e in log :: !e.PrintVerdict?
    ensures VerdictsIn(log) == []
  {
    if log != [] { NoVerdicts(log[1..]); }
  }

  lemma {:induction false} OnlyVerdicts(outcomes: seq<(Text, bool)>, stable: bool)
    ensures VerdictsIn(Published(outcomes, stable)) == Published(outcomes, stable)
  {
    if outcomes != [] {
      var line := PrintVerdict(outcomes[0].0, outcomes[0].1 && stable);
      assert ([line] + Published(outcomes[1..], stable))[1..] == Published(outcomes[1..], stable);
      OnlyVerdicts(outcomes[1..], stable);
    }
  }

  /** A log's verdict lines are the ones it ends with. */
  lemma LastVerdicts(effects: seq<Effect>, w: World, outcomes: seq<(Text, bool)>)
    requires Silent(effects)
    ensures var lines := Published(outcomes, Stable(w)); VerdictsIn([Snapshot] + effects + Ending(w) + lines) == lines
  {
    var before := [Snapshot] + effects + Ending(w);
    NoVerdicts(before);
    VerdictsAppend(before, Published(outcomes, Stable(w)));
    OnlyVerdicts(outcomes, Stable(w));
  }

  /** One pass of a loop without the cache. */
  method IterateFresh(mutants: seq<Mutant>, w: World, index: nat) returns (fate: Fate, effects: seq<Effect>)
    requires index < |mutants|
    ensures fate == FreshFate(w, index) && effects == FreshStep(mutants, w, index) && Silent(effects)
  {
    var control := ControlOf(w.baseline(index), w.depth);
    var opening, closing := [LaunchBaseline(index)], [];
    if control.passed != {} {
      opening := opening + [PrintBaseline(mutants[index].name)];
    } else {
      opening := opening + [];
    }
    fate, closing := Judge(mutants[index], w, index, control);
    effects := opening + closing;
  }

  method LoopFresh(mutants: seq<Mutant>, w: World, ghost fates: seq<Fate>, ghost steps: seq<seq<Effect>>)
    returns (crashed: bool, failed: bool, outcomes: seq<(Text, bool)>, log: seq<Effect>)
    requires |fates| == |steps| == |mutants|
    requires forall i {:trigger FreshFate(w, i)} | 0 <= i < |mutants| :: fates[i] == FreshFate(w, i)
    requires forall i {:trigger FreshStep(mutants, w, i)} | 0 <= i < |mutants| :: steps[i] == FreshStep(mutants, w, i)
    ensures Silent(log) && (crashed <==> Crashed in fates)
    ensures crashed ==> exists n | 0 <= n <= |steps| :: log == Flatten(steps[..n])
    ensures !crashed ==>
      (failed <==> !AllKilled(fates)) && outcomes == Outcomes(mutants, fates, |mutants|) && log == Flatten(steps)
  {
    outcomes, failed, log := [], false, [];
    for index := 0 to |mutants|
      invariant Crashed !in fates[..index]
      invariant log == Flatten(steps[..index]) && Silent(log)
      invariant failed <==> !AllKilled(fates[..index])
      invariant outcomes == Outcomes(mutants, fates, index)
    {
      var fate, effects := IterateFresh(mutants, w, index);
      TakeMore(fates, index);
      KilledMore(fates[..index], fate);
      FlattenMore(steps, index);
      SilentAppend(log, effects);
      log := log + effects;
      if fate == Crashed {
        return true, failed, outcomes, log;
      }
      outcomes := outcomes + OutcomeOf(mutants[index], fate);
      failed := failed || fate != Judged(true);
    }
    TakeAll(steps);
    TakeAll(fates);
    crashed := false;
  }

  /** The reference for `Run`: the same run, launching a baseline for every mutant. */
  method RunFresh(mutants: seq<Mutant>, w: World) returns (exit: Option<int>, log: seq<Effect>)
    ensures exit == ExitOf(FreshFates(mutants, w), w)
    ensures VerdictsIn(log) == LinesOf(mutants, FreshFates(mutants, w), w)
    ensures w.first.Some? && exit.Some? ==>
      log == [Snapshot] + Flatten(FreshSteps(mutants, w)) + Ending(w) + LinesOf(mutants, FreshFates(mutants, w), w)
  {
    if w.first.None? {
      return Some(1), [Snapshot, PrintDrift];
    }
    var crashed, failed, outcomes, effects := LoopFresh(mutants, w, FreshFates(mutants, w), FreshSteps(mutants, w));
    log := [Snapshot] + effects;
    if crashed {
      NoVerdicts(log);
      return None, log;
    }
    var stable := w.second == w.first;
    log := log + ([Snapshot] + (if stable then [] else [PrintDrift]));
    var lines := Publish(outcomes, stable);
    LastVerdicts(effects, w, outcomes);
    return Some(if failed || !stable then 1 else 0), log + lines;
  }

  /**
    The selection fixes what a baseline child reads, so a cached baseline is as good as a fresh one: the run
    and the one that launches every baseline again end with the same status and the same verdict lines.
   */
  lemma MemoRefinesFresh(mutants: seq<Mutant>, branches: Branches, first: Option<Text>, second: Option<Text>, depth: nat)
    ensures var w := WorldOf(mutants, branches, first, second, depth);
      && ExitOf(Fates(mutants, w), w) == ExitOf(FreshFates(mutants, w), w)
      && LinesOf(mutants, Fates(mutants, w), w) == LinesOf(mutants, FreshFates(mutants, w), w)
  {
    var w := WorldOf(mutants, branches, first, second, depth);
    forall i | 0 <= i < |mutants| ensures MemoFate(mutants, w, i) == FreshFate(w, i) {
      SelectionShared(mutants, i);
      assert w.baseline(First(mutants, i)) == w.baseline(i);
    }
    assert Fates(mutants, w) == FreshFates(mutants, w);
  }

  /** With a child that reads more than that the fates can differ: the second mutant is judged by the first one's control. */
  lemma MemoNeedsDeterminism(a: Mutant, b: Mutant, w: World)
    requires SelectionOf(a) == SelectionOf(b)
    requires ControlOf(w.baseline(0), w.depth).passed != {} && ControlOf(w.baseline(1), w.depth).passed == {}
    ensures FreshFate(w, 1) == NoControl && MemoFate([a, b], w, 1) != NoControl
  {
    var keys := Selections([a, b]);
    assert keys[0] == SelectionOf(a) && keys[1] == SelectionOf(b);
    assert First([a, b], 1) == 0;
  }

  /** Mutant i's baseline child is launched once if it is first of its selection, and otherwise never. */
  lemma BaselineLaunches(mutants: seq<Mutant>, w: World, i: nat)
    requires i < |mutants|
    ensures multiset(Flatten(Steps(mutants, w)))[LaunchBaseline(i)] == if First(mutants, i) == i then 1 else 0
  {
    var steps := Steps(mutants, w);
    forall k | 0 <= k < |steps|
      ensures multiset(steps[k])[LaunchBaseline(i)] == if k == i && First(mutants, i) == i then 1 else 0
    {
      StepLaunches(mutants, w, k, i);
    }
    CountFlatten(steps, LaunchBaseline(i), i, if First(mutants, i) == i then 1 else 0);
  }

  /** An effect that only step i has occurs in all of them as often as there. */
  lemma {:induction false} CountFlatten(steps: seq<seq<Effect>>, e: Effect, i: nat, count: nat)
    requires forall k | 0 <= k < |steps| :: multiset(steps[k])[e] == if k == i then count else 0
    ensures multiset(Flatten(steps))[e] == if i < |steps| then count else 0
  {
    if steps != [] {
      var n := |steps| - 1;
      CountFlatten(steps[..n], e, i, count);
      CountAppend(Flatten(steps[..n]), steps[n], e);
    }
  }

  lemma CountAppend(a: seq<Effect>, b: seq<Effect>, e: Effect)
    ensures multiset(a + b)[e] == multiset(a)[e] + multiset(b)[e]
  {}

  lemma StepLaunches(mutants: seq<Mutant>, w: World, k: nat, i: nat)
    requires k < |mutants| && i < |mutants|
    ensures multiset(Steps(mutants, w)[k])[LaunchBaseline(i)] == if i == k && First(mutants, k) == k then 1 else 0
  {
    var opening, closing := Opening(mutants, w, k), Closing(mutants[k], MemoFate(mutants, w, k), k);
    assert Steps(mutants, w)[k] == opening + closing;
    assert LaunchBaseline(i) !in closing;
    if First(mutants, k) == k {
      var rest := if ControlOf(w.baseline(k), w.depth).passed != {} then [PrintBaseline(mutants[k].name)] else [];
      assert opening == [LaunchBaseline(k)] + rest && LaunchBaseline(i) !in rest;
    }
  }

  /** A selection launches at most one baseline child. */
  lemma OneBaselinePerSelection(mutants: seq<Mutant>, w: World, i: nat, j: nat)
    requires i < |mutants| && j < |mutants| && SelectionOf(mutants[i]) == SelectionOf(mutants[j])
    requires LaunchBaseline(i) in Flatten(Steps(mutants, w)) && LaunchBaseline(j) in Flatten(Steps(mutants, w))
    ensures i == j && multiset(Flatten(Steps(mutants, w)))[LaunchBaseline(i)] == 1
  {
    var steps := Steps(mutants, w);
    BaselineLaunches(mutants, w, i);
    BaselineLaunches(mutants, w, j);
    assert LaunchBaseline(i) in multiset(Flatten(steps)) && LaunchBaseline(j) in multiset(Flatten(steps));
    SameFirst(Selections(mutants), i, j);
  }
}
