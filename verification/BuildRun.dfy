/** A whole build: the selected steps in order, the tasks of each, and the cleanup after them. */
module BuildRuns {
  import opened Common
  import StepReordering

  datatype Kind = Remote | Build | Run | Push | Commit | PypiPush

  /** The order in which a step's sections are carried out. */
  const TASKS: seq<Kind> := [Remote, Build, Run, Push, Commit, PypiPush]

  datatype Step = Step(name: string, sections: set<Kind>, xfail: bool)

  datatype Fault = Processing | Configuration | Connection | ImageMissing | Unexpected

  const EX_CONFIG := 78

  predicate IsBuildRunnerError(f: Fault) {
    f.Processing? || f.Configuration?
  }

  function ExitCode(f: Fault): int {
    if f.Configuration? || f.ImageMissing? then EX_CONFIG else 1
  }

  datatype Event =
    | Made(step: string, kind: Kind)
    | Ran(step: string, kind: Kind, result: Option<Fault>)
    | Cleaned(step: string, kind: Kind, result: Option<Fault>)

  /** What the outside world has in store for a build: errors before any step, before each step, in making, running and
      cleaning up each task, in each push and on leaving the multi-platform builder; and which images can be removed. */
  datatype World = World(
    archive: Option<Fault>,
    before: string -> Option<Fault>,
    make: (string, Kind) -> Option<Fault>,
    run: (string, Kind) -> Option<Fault>,
    clean: (string, Kind) -> Option<Fault>,
    manifests: Option<Fault>,
    push: nat -> Option<Fault>,
    leaving: Option<Fault>,
    removable: nat -> bool)

  // ---- one step

  /** A task that could not be made, or was made and run. */
  datatype Attempt = NotMade(kind: Kind, fault: Fault) | Tried(kind: Kind, result: Option<Fault>)
  datatype Cleanup = Cleanup(kind: Kind, result: Option<Fault>)
  datatype StepRun = StepRun(step: Step, attempts: seq<Attempt>, cleanups: seq<Cleanup>)

  function Wanted(sections: set<Kind>, kinds: seq<Kind>): seq<Kind> {
    if kinds == [] then []
    else
      var last := kinds[|kinds| - 1];
      Wanted(sections, kinds[..|kinds| - 1]) + if last in sections then [last] else []
  }

  /** The attempt lets the step go on: it succeeded, or failed the way its `run` section expects. */
  predicate Passes(s: Step, a: Attempt) {
    a.Tried? && (a.result.None? || (a.kind == Run && s.xfail && IsBuildRunnerError(a.result.value)))
  }

  function FaultOf(s: Step, attempts: seq<Attempt>): Option<Fault> {
    if attempts == [] then None
    else
      var last := attempts[|attempts| - 1];
      if Passes(s, last) then None else if last.NotMade? then Some(last.fault) else last.result
  }

  function MadeKinds(attempts: seq<Attempt>): seq<Kind> {
    if attempts == [] then []
    else
      var last := attempts[|attempts| - 1];
      MadeKinds(attempts[..|attempts| - 1]) + if last.Tried? then [last.kind] else []
  }

  ghost predicate AttemptsAllowed(s: Step, attempts: seq<Attempt>) {
    var wanted := Wanted(s.sections, TASKS);
    && |attempts| <= |wanted|
    && (forall i :: 0 <= i < |attempts| ==> attempts[i].kind == wanted[i])
    && (forall i :: 0 <= i < |attempts| - 1 ==> Passes(s, attempts[i]))
    && (|attempts| < |wanted| ==> FaultOf(s, attempts).Some?)
  }

  /** Tasks are attempted in order until one fails, and all that were made are cleaned up in that order. */
  ghost predicate StepAllowed(r: StepRun) {
    && AttemptsAllowed(r.step, r.attempts)
    && |r.cleanups| == |MadeKinds(r.attempts)|
    && forall i :: 0 <= i < |r.cleanups| ==> r.cleanups[i].kind == MadeKinds(r.attempts)[i]
  }

  /** Making comes first; only what was made is run. */
  function AttemptOf(w: World, name: string, kind: Kind): (a: Attempt)
    ensures a.kind == kind && (a.NotMade? <==> w.make(name, kind).Some?)
    ensures a.NotMade? ==> w.make(name, kind) == Some(a.fault)
    ensures a.Tried? ==> w.run(name, kind) == a.result
  {
    if w.make(name, kind).Some? then NotMade(kind, w.make(name, kind).value) else Tried(kind, w.run(name, kind))
  }

  /** What happened in a step is what the world had in store for it. */
  ghost predicate Fits(w: World, r: StepRun) {
    && (forall a :: a in r.attempts ==> a == AttemptOf(w, r.step.name, a.kind))
    && (forall c :: c in r.cleanups ==> c.result == w.clean(r.step.name, c.kind))
  }

  function RunEvents(name: string, attempts: seq<Attempt>): seq<Event> {
    if attempts == [] then []
    else
      var last := attempts[|attempts| - 1];
      RunEvents(name, attempts[..|attempts| - 1])
      + if last.Tried? then [Made(name, last.kind), Ran(name, last.kind, last.result)] else []
  }

  function CleanEvents(name: string, cleanups: seq<Cleanup>): (events: seq<Event>)
    ensures |events| == |cleanups|
    ensures forall i :: 0 <= i < |events| ==> events[i] == Cleaned(name, cleanups[i].kind, cleanups[i].result)
  {
    seq(|cleanups|, i requires 0 <= i < |cleanups| => Cleaned(name, cleanups[i].kind, cleanups[i].result))
  }

  function StepEvents(r: StepRun): seq<Event> {
    RunEvents(r.step.name, r.attempts) + CleanEvents(r.step.name, r.cleanups)
  }

  // ---- the whole build

  predicate Chosen(stepsToRun: set<string>, s: Step) {
    stepsToRun == {} || s.name in stepsToRun
  }

  function Selected(steps: seq<Step>, stepsToRun: set<string>): seq<Step> {
    if steps == [] then []
    else
      var last := steps[|steps| - 1];
      Selected(steps[..|steps| - 1], stepsToRun) + if Chosen(stepsToRun, last) then [last] else []
  }

  function Ended(r: StepRun): Option<Fault> {
    FaultOf(r.step, r.attempts)
  }

  /** The steps run are the first of the selected ones; every one but the last went well, and so did the last if the
      build did. A build may also fail between two steps. */
  ghost predicate BuildAllowed(selected: seq<Step>, runs: seq<StepRun>, fault: Option<Fault>) {
    && |runs| <= |selected|
    && (forall i :: 0 <= i < |runs| ==> runs[i].step == selected[i] && StepAllowed(runs[i]))
    && (forall i :: 0 <= i < |runs| - 1 ==> Ended(runs[i]).None?)
    && (fault.None? ==> |runs| == |selected|)
    && (runs != [] && Ended(runs[|runs| - 1]).Some? ==> fault == Ended(runs[|runs| - 1]))
  }

  function BuildEvents(runs: seq<StepRun>): seq<Event> {
    if runs == [] then [] else BuildEvents(runs[..|runs| - 1]) + StepEvents(runs[|runs| - 1])
  }

  ghost predicate DistinctNames(steps: seq<Step>) {
    forall i, j :: 0 <= i < j < |steps| ==> steps[i].name != steps[j].name
  }

  // ---- every task made is cleaned up once, before anything else happens outside its step

  ghost predicate CleansUp(e: Event, made: Event) {
    e.Cleaned? && e.step == made.step && e.kind == made.kind
  }

  /** Among these events, a made task is cleaned up at one place, after it was made, with only its own step's events
      in between. */
  ghost predicate SettledAt(events: seq<Event>, i: nat, j: nat) {
    && i < j < |events| && CleansUp(events[j], events[i])
    && (forall m :: i <= m <= j ==> events[m].step == events[i].step)
    && (forall l :: 0 <= l < |events| && CleansUp(events[l], events[i]) ==> l == j)
  }

  ghost predicate Settled(events: seq<Event>, i: nat) {
    exists j: nat :: SettledAt(events, i, j)
  }

  ghost predicate AllSettled(events: seq<Event>) {
    forall i: nat :: i < |events| && events[i].Made? ==> Settled(events, i)
  }

  ghost predicate AllOf(events: seq<Event>, name: string) {
    forall e :: e in events ==> e.step == name
  }

  lemma {:induction false} WantedMeaning(sections: set<Kind>, kinds: seq<Kind>)
    requires NoDup(kinds)
    ensures NoDup(Wanted(sections, kinds)) && forall k :: k in Wanted(sections, kinds) <==> k in kinds && k in sections
    decreases |kinds|
  {
    if kinds != [] {
      WantedMeaning(sections, kinds[..|kinds| - 1]);
    }
  }

  lemma {:induction false} MadeMeaning(attempts: seq<Attempt>)
    requires forall i, j :: 0 <= i < j < |attempts| ==> attempts[i].kind != attempts[j].kind
    ensures NoDup(MadeKinds(attempts))
    ensures forall k :: k in MadeKinds(attempts) <==>
      exists i :: 0 <= i < |attempts| && attempts[i].Tried? && attempts[i].kind == k
    decreases |attempts|
  {
    if attempts != [] {
      var n := |attempts| - 1;
      MadeMeaning(attempts[..n]);
      assert forall i :: 0 <= i < n ==> attempts[..n][i] == attempts[i] && attempts[i].kind != attempts[n].kind;
      assert attempts[n].kind !in MadeKinds(attempts[..n]);
    }
  }

  lemma {:induction false} RunEventsMeaning(name: string, attempts: seq<Attempt>)
    ensures AllOf(RunEvents(name, attempts), name)
    ensures forall e :: e in RunEvents(name, attempts) ==> !e.Cleaned? && e.kind in MadeKinds(attempts)
    decreases |attempts|
  {
    if attempts != [] {
      RunEventsMeaning(name, attempts[..|attempts| - 1]);
    }
  }

  lemma StepSettled(r: StepRun)
    requires StepAllowed(r)
    ensures AllSettled(StepEvents(r)) && AllOf(StepEvents(r), r.step.name)
  {
    hide Wanted, RunEvents, MadeKinds;
    var name, made := r.step.name, MadeKinds(r.attempts);
    RunEventsMeaning(name, r.attempts);
    WantedMeaning(r.step.sections, TASKS);
    MadeMeaning(r.attempts);
    var front, back := RunEvents(name, r.attempts), CleanEvents(name, r.cleanups);
    var events := StepEvents(r);
    forall i: nat | i < |events| && events[i].Made? ensures Settled(events, i) {
      assert i < |front| && events[i] in front;
      var p :| 0 <= p < |made| && made[p] == events[i].kind;
      var j := |front| + p;
      assert events[j] == back[p];
      assert forall l :: 0 <= l < |front| ==> events[l] in front && !events[l].Cleaned?;
      forall l | 0 <= l < |events| && CleansUp(events[l], events[i]) ensures l == j {
        assert made[l - |front|] == made[p];
      }
      forall m | i <= m <= j ensures events[m].step == events[i].step {
        assert m < |front| ==> events[m] in front;
      }
      assert SettledAt(events, i, j);
    }
    forall e | e in events ensures e.step == name {
      assert e in front || e in back;
    }
  }

  lemma SettledConcat(a: seq<Event>, b: seq<Event>, name: string)
    requires AllSettled(a) && AllSettled(b) && AllOf(b, name)
    requires forall e :: e in a ==> e.step != name
    ensures AllSettled(a + b)
  {
    var both := a + b;
    forall i: nat | i < |both| && both[i].Made? ensures Settled(both, i) {
      if i < |a| {
        var j: nat :| SettledAt(a, i, j);
        assert a[i] in a;
        assert forall l :: |a| <= l < |both| ==> both[l] == b[l - |a|] && both[l].step == name;
        assert SettledAt(both, i, j);
      } else {
        var j: nat :| SettledAt(b, i - |a|, j);
        assert both[i] == b[i - |a|];
        assert forall l :: 0 <= l < |a| ==> both[l] in a;
        assert forall m :: |a| <= m < |both| ==> both[m] == b[m - |a|];
        assert SettledAt(both, i, |a| + j);
      }
    }
  }

  /** In every build, each task that was made is cleaned up exactly once, and no other step does anything between. */
  lemma {:induction false} EveryTaskIsCleanedUpOnce(runs: seq<StepRun>)
    requires forall i :: 0 <= i < |runs| ==> StepAllowed(runs[i])
    requires forall i, j :: 0 <= i < j < |runs| ==> runs[i].step.name != runs[j].step.name
    ensures AllSettled(BuildEvents(runs))
    ensures forall e :: e in BuildEvents(runs) ==> exists i :: 0 <= i < |runs| && runs[i].step.name == e.step
    decreases |runs|
  {
    hide StepAllowed, AllSettled, StepEvents;
    if runs == [] {
      assert AllSettled([]) by { NothingToSettle(); }
    } else {
      var n := |runs| - 1;
      var front := runs[..n];
      EveryTaskIsCleanedUpOnce(front);
      StepSettled(runs[n]);
      forall e | e in BuildEvents(front) ensures e.step != runs[n].step.name {
        var i :| 0 <= i < n && front[i].step.name == e.step;
        assert runs[i].step.name == e.step;
      }
      SettledConcat(BuildEvents(front), StepEvents(runs[n]), runs[n].step.name);
      forall e | e in BuildEvents(runs) ensures exists i :: 0 <= i < |runs| && runs[i].step.name == e.step {
        if e in BuildEvents(front) {
          var i :| 0 <= i < n && front[i].step.name == e.step;
          assert runs[i].step.name == e.step;
        }
      }
    }
  }

  lemma NothingToSettle()
    ensures AllSettled([])
  {
  }

  // ---- a step goes well exactly when all its tasks do

  /** A step is without fault exactly when each of its tasks was made and succeeded, or failed as expected. */
  lemma StepGoesWell(r: StepRun)
    requires StepAllowed(r)
    ensures Ended(r).None? <==>
      && |r.attempts| == |Wanted(r.step.sections, TASKS)|
      && forall i :: 0 <= i < |r.attempts| ==> PassesAs(r.step, r.attempts[i])
    ensures forall f :: Ended(r) == Some(f) <==>
      && r.attempts != [] && !PassesAs(r.step, r.attempts[|r.attempts| - 1])
      && (r.attempts[|r.attempts| - 1] == NotMade(r.attempts[|r.attempts| - 1].kind, f)
          || r.attempts[|r.attempts| - 1] == Tried(r.attempts[|r.attempts| - 1].kind, Some(f)))
  {
    forall a ensures Passes(r.step, a) <==> PassesAs(r.step, a) {
    }
  }

  /** Made, and run without an error, or with one the program raises itself where the `run` section expects it. */
  ghost predicate PassesAs(s: Step, a: Attempt) {
    || a == Tried(a.kind, None)
    || (s.xfail && (a == Tried(Run, Some(Processing)) || a == Tried(Run, Some(Configuration))))
  }

  lemma WantedNone(sections: set<Kind>)
    ensures Wanted(sections, []) == []
  {
  }

  lemma WantedMore(sections: set<Kind>, kinds: seq<Kind>, kind: Kind)
    ensures Wanted(sections, kinds + [kind]) == Wanted(sections, kinds) + if kind in sections then [kind] else []
  {
    assert (kinds + [kind])[..|kinds|] == kinds;
  }

  /** The sections of a step are carried out in this order. */
  lemma SectionsInOrder(s: Step)
    ensures Wanted(s.sections, TASKS) ==
      (if Remote in s.sections then [Remote] else []) + (if Build in s.sections then [Build] else [])
      + (if Run in s.sections then [Run] else []) + (if Push in s.sections then [Push] else [])
      + (if Commit in s.sections then [Commit] else []) + (if PypiPush in s.sections then [PypiPush] else [])
  {
    hide Wanted;
    assert [] + [Remote] == [Remote] && [Remote] + [Build] == [Remote, Build];
    assert [Remote, Build] + [Run] == [Remote, Build, Run];
    assert [Remote, Build, Run] + [Push] == [Remote, Build, Run, Push];
    assert [Remote, Build, Run, Push] + [Commit] == [Remote, Build, Run, Push, Commit];
    assert [Remote, Build, Run, Push, Commit] + [PypiPush] == TASKS;
    WantedNone(s.sections);
    WantedMore(s.sections, [], Remote);
    WantedMore(s.sections, [Remote], Build);
    WantedMore(s.sections, [Remote, Build], Run);
    WantedMore(s.sections, [Remote, Build, Run], Push);
    WantedMore(s.sections, [Remote, Build, Run, Push], Commit);
    WantedMore(s.sections, [Remote, Build, Run, Push, Commit], PypiPush);
  }

  /** A task runs right after it was made, and every task made runs. */
  ghost predicate MadeThenRan(events: seq<Event>, name: string, attempts: seq<Attempt>) {
    && |events| == 2 * |MadeKinds(attempts)|
    && forall p :: 0 <= p < |MadeKinds(attempts)| ==>
         && events[2 * p] == Made(name, MadeKinds(attempts)[p])
         && exists a :: a in attempts && a.Tried? && events[2 * p + 1] == Ran(name, a.kind, a.result)
                        && a.kind == MadeKinds(attempts)[p]
  }

  lemma {:induction false} RunEventsInOrder(name: string, attempts: seq<Attempt>)
    ensures MadeThenRan(RunEvents(name, attempts), name, attempts)
    decreases |attempts|
  {
    if attempts != [] {
      var n := |attempts| - 1;
      RunEventsInOrder(name, attempts[..n]);
      assert attempts[n] in attempts && forall a :: a in attempts[..n] ==> a in attempts;
    }
  }

  // ---- dependencies

  lemma {:induction false} SelectedMeaning(steps: seq<Step>, stepsToRun: set<string>)
    requires DistinctNames(steps)
    ensures DistinctNames(Selected(steps, stepsToRun))
    ensures forall s :: s in Selected(steps, stepsToRun) <==>
      s in steps && (stepsToRun == {} || s.name in stepsToRun)
    decreases |steps|
  {
    if steps != [] {
      var n := |steps| - 1;
      var front := Selected(steps[..n], stepsToRun);
      SelectedMeaning(steps[..n], stepsToRun);
      assert steps == steps[..n] + [steps[n]];
      forall i | 0 <= i < |front| ensures front[i].name != steps[n].name {
        assert front[i] in front;
      }
    }
  }

  lemma {:induction false} SelectedPrefix(steps: seq<Step>, stepsToRun: set<string>, k: nat)
    requires k <= |steps|
    ensures Selected(steps[..k], stepsToRun) <= Selected(steps, stepsToRun)
    decreases |steps| - k
  {
    if k < |steps| {
      SelectedPrefix(steps, stepsToRun, k + 1);
      assert steps[..k + 1][..k] == steps[..k];
    } else {
      assert steps[..k] == steps;
    }
  }

  /** Selection keeps the order of the steps. */
  lemma {:induction false} SelectedKeepsOrder(steps: seq<Step>, stepsToRun: set<string>, a: nat, b: nat, i: nat)
    requires DistinctNames(steps) && a < b < |steps| && Chosen(stepsToRun, steps[a])
    requires i < |Selected(steps, stepsToRun)| && Selected(steps, stepsToRun)[i] == steps[b]
    ensures exists j :: 0 <= j < i && Selected(steps, stepsToRun)[j] == steps[a]
    decreases |steps|
  {
    var n := |steps| - 1;
    var rest := steps[..n];
    var front := Selected(rest, stepsToRun);
    SelectedMeaning(rest, stepsToRun);
    assert rest[a] == steps[a];
    if i < |front| {
      assert front[i] in rest;
      assert b < n;
      SelectedKeepsOrder(rest, stepsToRun, a, b, i);
      var j :| 0 <= j < i && front[j] == steps[a];
      assert Selected(steps, stepsToRun)[j] == steps[a];
    } else {
      var j :| 0 <= j < |front| && front[j] == steps[a];
      assert Selected(steps, stepsToRun)[j] == steps[a];
    }
  }

  /** The steps of a build bear the names of the resolved order. */
  ghost predicate Ordered(steps: seq<Step>, order: seq<string>) {
    |steps| == |order| && forall k :: 0 <= k < |steps| ==> steps[k].name == order[k]
  }

  /** A step that runs finds every selected step it depends on already run, without fault. */
  lemma DependenciesRanBefore<B>(
    names: seq<string>, configured: map<string, StepReordering.Step<B>>, order: seq<string>,
    steps: seq<Step>, stepsToRun: set<string>, runs: seq<StepRun>, fault: Option<Fault>, i: nat, d: string)
    requires StepReordering.IsStepOrder(names, configured, order) && Ordered(steps, order)
    requires BuildAllowed(Selected(steps, stepsToRun), runs, fault)
    requires i < |runs| && StepReordering.DependsOn(names, configured, runs[i].step.name, d)
    requires stepsToRun == {} || d in stepsToRun
    ensures exists j :: 0 <= j < i && runs[j].step.name == d && Ended(runs[j]).None?
  {
    hide StepReordering.DependsOn, StepAllowed, FaultOf, Selected;
    var selected := Selected(steps, stepsToRun);
    OrderedNames(names, configured, order, steps);
    SelectedMeaning(steps, stepsToRun);
    assert selected[i] in selected;
    var b :| 0 <= b < |steps| && steps[b] == selected[i];
    var a := DependencyBefore(names, configured, order, b, d);
    SelectedKeepsOrder(steps, stepsToRun, a, b, i);
    var j :| 0 <= j < i && selected[j] == steps[a];
    assert runs[j].step == steps[a] && Ended(runs[j]).None?;
  }

  lemma OrderedNames<B>(names: seq<string>, configured: map<string, StepReordering.Step<B>>, order: seq<string>,
                        steps: seq<Step>)
    requires StepReordering.IsStepOrder(names, configured, order) && Ordered(steps, order)
    ensures DistinctNames(steps)
  {
  }

  lemma DependencyBefore<B>(names: seq<string>, configured: map<string, StepReordering.Step<B>>, order: seq<string>,
                            b: nat, d: string)
    returns (a: nat)
    requires StepReordering.IsStepOrder(names, configured, order)
    requires b < |order| && StepReordering.DependsOn(names, configured, order[b], d)
    ensures a < b && order[a] == d
  {
    hide StepReordering.DependsOn;
    assert d in order[..b];
    a :| 0 <= a < b && order[..b][a] == d;
  }

  // ---- the code

  /** The attempts so far were all those wanted among the first kinds, and all let the step go on. */
  ghost predicate TriedUpTo(s: Step, attempts: seq<Attempt>, n: nat)
    requires n <= |TASKS|
  {
    var wanted := Wanted(s.sections, TASKS[..n]);
    && |attempts| == |wanted|
    && forall i :: 0 <= i < |attempts| ==> attempts[i].kind == wanted[i] && Passes(s, attempts[i])
  }

  lemma NothingTried(s: Step)
    ensures TriedUpTo(s, [], 0) && MadeKinds([]) == [] && RunEvents(s.name, []) == []
  {
  }

  lemma {:induction false} WantedPrefix(sections: set<Kind>, kinds: seq<Kind>, n: nat)
    requires n <= |kinds|
    ensures Wanted(sections, kinds[..n]) <= Wanted(sections, kinds)
    decreases |kinds| - n
  {
    if n < |kinds| {
      WantedPrefix(sections, kinds, n + 1);
      assert kinds[..n + 1][..n] == kinds[..n];
    } else {
      assert kinds[..n] == kinds;
    }
  }

  lemma TriedOne(s: Step, attempts: seq<Attempt>, n: nat, a: Attempt)
    requires n < |TASKS| && TriedUpTo(s, attempts, n) && TASKS[n] in s.sections && a.kind == TASKS[n]
    ensures var more := attempts + [a];
      && (if Passes(s, a) then TriedUpTo(s, more, n + 1) else AttemptsAllowed(s, more) && FaultOf(s, more).Some?)
      && MadeKinds(more) == MadeKinds(attempts) + (if a.Tried? then [a.kind] else [])
      && RunEvents(s.name, more) == RunEvents(s.name, attempts)
           + (if a.Tried? then [Made(s.name, a.kind), Ran(s.name, a.kind, a.result)] else [])
  {
    var more := attempts + [a];
    assert more[..|attempts|] == attempts;
    assert TASKS[..n + 1][..n] == TASKS[..n];
    WantedPrefix(s.sections, TASKS, n + 1);
    assert Wanted(s.sections, TASKS[..n + 1]) == Wanted(s.sections, TASKS[..n]) + [TASKS[n]];
  }

  lemma NotWanted(s: Step, attempts: seq<Attempt>, n: nat)
    requires n < |TASKS| && TriedUpTo(s, attempts, n) && TASKS[n] !in s.sections
    ensures TriedUpTo(s, attempts, n + 1)
  {
    assert TASKS[..n + 1][..n] == TASKS[..n];
  }

  lemma AllTried(s: Step, attempts: seq<Attempt>)
    requires TriedUpTo(s, attempts, |TASKS|)
    ensures AttemptsAllowed(s, attempts) && FaultOf(s, attempts).None?
  {
    assert TASKS[..|TASKS|] == TASKS;
  }

  /** The steps of a build met what was in store for them, and so did the build between them. */
  ghost predicate BuildFits(w: World, selected: seq<Step>, runs: seq<StepRun>, fault: Option<Fault>) {
    && (w.archive.Some? ==> runs == [] && fault == w.archive)
    && (forall i :: 0 <= i < |runs| ==> Fits(w, runs[i]) && w.before(runs[i].step.name).None?)
    && (w.archive.None? && fault.Some? && (runs == [] || Ended(runs[|runs| - 1]).None?) ==>
          |runs| < |selected| && fault == w.before(selected[|runs|].name))
  }

  lemma NothingRun(w: World, stepsToRun: set<string>)
    ensures BuildAllowed(Selected([], stepsToRun), [], None) && BuildEvents([]) == []
    ensures w.archive.None? ==> BuildFits(w, Selected([], stepsToRun), [], None)
  {
  }

  lemma NoStepRun(w: World, selected: seq<Step>)
    ensures w.archive.Some? ==> BuildAllowed(selected, [], w.archive) && BuildFits(w, selected, [], w.archive)
  {
  }

  lemma SelectedNext(steps: seq<Step>, stepsToRun: set<string>, i: nat)
    requires i < |steps|
    ensures var before, after := Selected(steps[..i], stepsToRun), Selected(steps[..i + 1], stepsToRun);
      after == if Chosen(stepsToRun, steps[i]) then before + [steps[i]] else before
    ensures Selected(steps[..i], stepsToRun) <= Selected(steps, stepsToRun)
  {
    SelectedPrefix(steps, stepsToRun, i);
    assert steps[..i + 1][..i] == steps[..i];
  }

  lemma StopsBetween(w: World, done: seq<Step>, selected: seq<Step>, runs: seq<StepRun>, next: Step)
    requires BuildAllowed(done, runs, None) && BuildFits(w, done, runs, None)
    requires done + [next] <= selected && w.before(next.name).Some?
    ensures BuildAllowed(selected, runs, w.before(next.name)) && BuildFits(w, selected, runs, w.before(next.name))
  {
    hide StepAllowed, FaultOf, Fits;
  }

  lemma RunNext(w: World, done: seq<Step>, selected: seq<Step>, runs: seq<StepRun>, r: StepRun)
    requires BuildAllowed(done, runs, None) && BuildFits(w, done, runs, None)
    requires StepAllowed(r) && Fits(w, r) && w.before(r.step.name).None? && done + [r.step] <= selected
    ensures Ended(r).None? ==>
      BuildAllowed(done + [r.step], runs + [r], None) && BuildFits(w, done + [r.step], runs + [r], None)
    ensures Ended(r).Some? ==>
      BuildAllowed(selected, runs + [r], Ended(r)) && BuildFits(w, selected, runs + [r], Ended(r))
    ensures BuildEvents(runs + [r]) == BuildEvents(runs) + StepEvents(r)
  {
    hide StepAllowed, FaultOf, StepEvents, Fits;
    assert (runs + [r])[..|runs|] == runs;
  }

  class BuildRunner {
    var events: seq<Event>
    var exitCode: Option<int>
    var generatedImages: seq<string>
    var removedImages: set<string>
    var manifestsPushed: bool
    var pushed: seq<string>

    constructor ()
      ensures events == [] && exitCode == None && generatedImages == [] && removedImages == {}
      ensures !manifestsPushed && pushed == []
    {
      events, exitCode, generatedImages, removedImages := [], None, [], {};
      manifestsPushed, pushed := false, [];
    }

    /** Makes and runs a task; either may fail. */
    method TryTask(w: World, s: Step, kind: Kind) returns (a: Attempt)
      modifies `events
      ensures a == AttemptOf(w, s.name, kind)
      ensures events == old(events) + if a.Tried? then [Made(s.name, kind), Ran(s.name, kind, a.result)] else []
    {
      var fault := w.make(s.name, kind);
      if fault.Some? {
        return NotMade(kind, fault.value);
      }
      events := events + [Made(s.name, kind)];
      var result := w.run(s.name, kind);
      events := events + [Ran(s.name, kind, result)];
      a := Tried(kind, result);
    }

    method RunStep(w: World, s: Step) returns (r: StepRun)
      modifies `events
      ensures r.step == s && StepAllowed(r) && Fits(w, r)
      ensures events == old(events) + StepEvents(r)
    {
      hide Wanted, RunEvents, MadeKinds, FaultOf, AttemptsAllowed, TriedUpTo;
      var attempts: seq<Attempt>, made: seq<Kind> := [], [];
      var failed := false;
      NothingTried(s);
      var i := 0;
      while i < |TASKS| && !failed
        invariant 0 <= i <= |TASKS|
        invariant if failed then AttemptsAllowed(s, attempts) else TriedUpTo(s, attempts, i)
        invariant forall a :: a in attempts ==> a == AttemptOf(w, s.name, a.kind)
        invariant made == MadeKinds(attempts)
        invariant events == old(events) + RunEvents(s.name, attempts)
      {
        var kind := TASKS[i];
        if kind in s.sections {
          ghost var before := RunEvents(s.name, attempts);
          var a := TryTask(w, s, kind);
          TriedOne(s, attempts, i, a);
          attempts := attempts + [a];
          if a.Tried? {
            made := made + [kind];
            assert old(events) + (before + [Made(s.name, kind), Ran(s.name, kind, a.result)])
              == old(events) + before + [Made(s.name, kind), Ran(s.name, kind, a.result)];
          } else {
            assert before + [] == before;
          }
          failed := !Passes(s, a);
        } else {
          NotWanted(s, attempts, i);
        }
        i := i + 1;
      }
      if !failed {
        AllTried(s, attempts);
      }
      var cleanups := CleanUp(w, s, made);
      r := StepRun(s, attempts, cleanups);
      assert old(events) + (RunEvents(s.name, attempts) + CleanEvents(s.name, cleanups))
        == old(events) + RunEvents(s.name, attempts) + CleanEvents(s.name, cleanups);
    }

    /** Cleans up every task made; a cleanup that fails does not keep the others from theirs. */
    method CleanUp(w: World, s: Step, made: seq<Kind>) returns (cleanups: seq<Cleanup>)
      modifies `events
      ensures |cleanups| == |made|
      ensures forall i :: 0 <= i < |made| ==> cleanups[i] == Cleanup(made[i], w.clean(s.name, made[i]))
      ensures events == old(events) + CleanEvents(s.name, cleanups)
    {
      cleanups := [];
      for i := 0 to |made|
        invariant |cleanups| == i
        invariant forall k :: 0 <= k < i ==> cleanups[k] == Cleanup(made[k], w.clean(s.name, made[k]))
        invariant events == old(events) + CleanEvents(s.name, cleanups)
      {
        var result := w.clean(s.name, made[i]);
        ghost var before := CleanEvents(s.name, cleanups);
        cleanups := cleanups + [Cleanup(made[i], result)];
        assert CleanEvents(s.name, cleanups) == before + [Cleaned(s.name, made[i], result)];
        events := events + [Cleaned(s.name, made[i], result)];
      }
    }

    method RunSteps(w: World, steps: seq<Step>, stepsToRun: set<string>)
      returns (runs: seq<StepRun>, fault: Option<Fault>)
      modifies `events
      ensures BuildAllowed(Selected(steps, stepsToRun), runs, fault)
      ensures BuildFits(w, Selected(steps, stepsToRun), runs, fault)
      ensures events == old(events) + BuildEvents(runs)
    {
      hide StepAllowed, StepEvents, FaultOf, Chosen, Selected, BuildAllowed, BuildFits, BuildEvents;
      runs, fault := [], w.archive;
      NothingRun(w, stepsToRun);
      if fault.Some? {
        NoStepRun(w, Selected(steps, stepsToRun));
        return;
      }
      for i := 0 to |steps|
        invariant fault.None? && BuildAllowed(Selected(steps[..i], stepsToRun), runs, None)
        invariant BuildFits(w, Selected(steps[..i], stepsToRun), runs, None)
        invariant events == old(events) + BuildEvents(runs)
      {
        SelectedNext(steps, stepsToRun, i);
        SelectedPrefix(steps, stepsToRun, i + 1);
        if Chosen(stepsToRun, steps[i]) {
          fault := w.before(steps[i].name);
          if fault.Some? {
            StopsBetween(w, Selected(steps[..i], stepsToRun), Selected(steps, stepsToRun), runs, steps[i]);
            return;
          }
          ghost var before := BuildEvents(runs);
          var r := RunStep(w, steps[i]);
          fault := FaultOf(r.step, r.attempts);
          RunNext(w, Selected(steps[..i], stepsToRun), Selected(steps, stepsToRun), runs, r);
          assert old(events) + (before + StepEvents(r)) == old(events) + before + StepEvents(r);
          runs := runs + [r];
          if fault.Some? {
            return;
          }
        }
      }
      assert steps[..|steps|] == steps;
    }

    /** Pushes the multi-platform images, if there are any; see the manifests for what that does. */
    method PushManifests(w: World) returns (fault: Option<Fault>)
      modifies `manifestsPushed
      ensures fault == w.manifests
      ensures manifestsPushed == (old(manifestsPushed) || fault.None?)
    {
      fault := w.manifests;
      manifestsPushed := manifestsPushed || fault.None?;
    }

    /** Pushes one reference after the other, until one fails. */
    method PushImages(w: World, refs: seq<string>) returns (fault: Option<Fault>)
      modifies `pushed
      ensures exists n: nat :: PushedUpTo(w, refs, n, fault) && pushed == old(pushed) + refs[..n]
    {
      fault := None;
      assert refs[..0] == [];
      for i := 0 to |refs|
        invariant pushed == old(pushed) + refs[..i] && fault.None?
        invariant forall k: nat :: k < i ==> w.push(k).None?
      {
        fault := w.push(i);
        if fault.Some? {
          assert PushedUpTo(w, refs, i, fault);
          return;
        }
        assert refs[..i + 1] == refs[..i] + [refs[i]];
        pushed := pushed + [refs[i]];
      }
      assert PushedUpTo(w, refs, |refs|, None);
    }

    /** Removes the generated images, last one first. An image that cannot be removed does not stop the others. */
    method RemoveImages(w: World) returns (visits: seq<Visit>)
      modifies `removedImages
      ensures ImagesCleaned(Backwards(generatedImages), old(removedImages), removedImages, visits)
      ensures forall k: nat :: k < |visits| && visits[k] != Already ==> (visits[k] == Removed <==> w.removable(k))
    {
      visits := [];
      var images := Backwards(generatedImages);
      for i := 0 to |images|
        invariant |visits| == i
        invariant removedImages == old(removedImages) + RemovedBy(images[..i], visits)
        invariant forall k :: 0 <= k < i ==> VisitAllowed(images, old(removedImages), visits, k)
        invariant forall k: nat :: k < i && visits[k] != Already ==> (visits[k] == Removed <==> w.removable(k))
      {
        var visit := Already;
        if images[i] !in removedImages {
          visit := if w.removable(i) then Removed else Failed;
        }
        VisitNext(images, old(removedImages), visits, visit);
        if visit == Removed {
          removedImages := removedImages + {images[i]};
        }
        visits := visits + [visit];
      }
      assert images[..|images|] == images;
    }

    /** The build: all selected steps, then the push if one is asked for, then the images. An error in between settles
        the exit code, and so does one on leaving the multi-platform builder; an error while the source image is
        destroyed leaves the generated images in place. */
    method Run(w: World, steps: seq<Step>, stepsToRun: set<string>, push: bool, refs: seq<string>, images: seq<string>,
               cleanupImages: bool, sourceDestroyed: bool)
      returns (runs: seq<StepRun>, fault: Option<Fault>, visits: seq<Visit>, ghost stepFault: Option<Fault>)
      requires !manifestsPushed && pushed == []
      modifies this
      ensures BuildAllowed(Selected(steps, stepsToRun), runs, stepFault)
      ensures BuildFits(w, Selected(steps, stepsToRun), runs, stepFault)
      ensures events == old(events) + BuildEvents(runs)
      ensures manifestsPushed <==> push && stepFault.None? && w.manifests.None?
      ensures manifestsPushed ==> AllWentWell(Selected(steps, stepsToRun), runs)
      ensures if manifestsPushed then exists n: nat, f :: PushedUpTo(w, refs, n, f) && pushed == refs[..n]
        else pushed == []
      ensures w.leaving.Some? ==> fault == w.leaving
      ensures w.leaving.None? && (stepFault.Some? || !push) ==> fault == stepFault
      ensures w.leaving.None? && stepFault.None? && push && !manifestsPushed ==> fault == w.manifests
      ensures w.leaving.None? && manifestsPushed ==>
        if pushed == refs then fault.None? else |pushed| < |refs| && fault == w.push(|pushed|) && fault.Some?
      ensures exitCode == None <==> fault.None?
      ensures exitCode == Some(78) <==> fault == Some(Configuration) || fault == Some(ImageMissing)
      ensures exitCode.Some? ==> exitCode.value == 78 || exitCode.value == 1
      ensures generatedImages == old(generatedImages) + images
      ensures if sourceDestroyed && cleanupImages
        then ImagesCleaned(Backwards(generatedImages), old(removedImages), removedImages, visits)
        else visits == [] && removedImages == old(removedImages)
    {
      hide BuildAllowed, BuildFits, Selected, BuildEvents, ImagesCleaned, AllWentWell, PushedUpTo;
      exitCode := None;
      runs, fault := RunSteps(w, steps, stepsToRun);
      stepFault := fault;
      if fault.None? {
        WentWell(Selected(steps, stepsToRun), runs);
        if push {
          fault := PushManifests(w);
          if fault.None? {
            fault := PushImages(w, refs);
            PushedMeaning(w, refs, pushed, fault);
          }
        }
      }
      if w.leaving.Some? {
        fault := w.leaving;
      }
      exitCode := if fault.None? then None else Some(ExitCode(fault.value));
      // What the tasks generated.
      generatedImages := generatedImages + images;
      visits := [];
      if sourceDestroyed && cleanupImages {
        visits := RemoveImages(w);
      }
    }
  }

  lemma PushedMeaning(w: World, refs: seq<string>, pushed: seq<string>, fault: Option<Fault>)
    requires exists n: nat :: PushedUpTo(w, refs, n, fault) && pushed == [] + refs[..n]
    ensures exists n: nat, f :: PushedUpTo(w, refs, n, f) && pushed == refs[..n]
    ensures if pushed == refs then fault.None? else |pushed| < |refs| && fault == w.push(|pushed|) && fault.Some?
  {
    var n: nat :| PushedUpTo(w, refs, n, fault) && pushed == [] + refs[..n];
    assert [] + refs[..n] == refs[..n];
  }

  /** The first pushes succeed, and they are all, or the next one fails. */
  ghost predicate PushedUpTo(w: World, refs: seq<string>, n: nat, fault: Option<Fault>) {
    && n <= |refs| && (forall k: nat :: k < n ==> w.push(k).None?)
    && (fault.None? <==> n == |refs|) && (n < |refs| ==> fault == w.push(n))
  }

  /** Every selected step ran, without fault. */
  ghost predicate AllWentWell(selected: seq<Step>, runs: seq<StepRun>) {
    |runs| == |selected| && forall i :: 0 <= i < |runs| ==> runs[i].step == selected[i] && Ended(runs[i]).None?
  }

  lemma WentWell(selected: seq<Step>, runs: seq<StepRun>)
    requires BuildAllowed(selected, runs, None)
    ensures AllWentWell(selected, runs)
  {
    hide FaultOf, StepAllowed;
  }

  // ---- generated images

  datatype Visit = Already | Removed | Failed

  function Backwards(images: seq<string>): seq<string> {
    if images == [] then [] else [images[|images| - 1]] + Backwards(images[..|images| - 1])
  }

  ghost function RemovedBy(images: seq<string>, visits: seq<Visit>): (removed: set<string>)
    requires |images| == |visits|
    ensures forall image :: image in removed <==>
      exists i :: 0 <= i < |images| && images[i] == image && visits[i] == Removed
  {
    set i | 0 <= i < |images| && visits[i] == Removed :: images[i]
  }

  ghost predicate VisitAllowed(images: seq<string>, removed: set<string>, visits: seq<Visit>, i: nat)
    requires i < |visits| <= |images|
  {
    visits[i] == Already <==> images[i] in removed + RemovedBy(images[..i], visits[..i])
  }

  ghost predicate Visited(images: seq<string>, removed: set<string>, visits: seq<Visit>) {
    |visits| == |images| && forall i :: 0 <= i < |visits| ==> VisitAllowed(images, removed, visits, i)
  }

  lemma VisitNext(images: seq<string>, removed: set<string>, visits: seq<Visit>, visit: Visit)
    requires |visits| < |images|
    requires forall i :: 0 <= i < |visits| ==> VisitAllowed(images, removed, visits, i)
    requires visit == Already <==> images[|visits|] in removed + RemovedBy(images[..|visits|], visits)
    ensures var n := |visits|;
      && (forall i :: 0 <= i <= n ==> VisitAllowed(images, removed, visits + [visit], i))
      && RemovedBy(images[..n + 1], visits + [visit])
         == RemovedBy(images[..n], visits) + if visit == Removed then {images[n]} else {}
  {
    var n, more := |visits|, visits + [visit];
    forall i | 0 <= i <= n ensures VisitAllowed(images, removed, more, i) {
      assert more[..i] == visits[..i];
      assert i < n ==> VisitAllowed(images, removed, visits, i);
      assert i == n ==> visits[..i] == visits;
    }
    assert forall i :: 0 <= i < n ==> images[..n + 1][i] == images[..n][i] && more[i] == visits[i];
  }

  ghost predicate ImagesCleaned(images: seq<string>, before: set<string>, after: set<string>, visits: seq<Visit>) {
    Visited(images, before, visits) && after == before + RemovedBy(images, visits)
  }

  /** An image generated several times is removed at most once, and not at all once it was marked as removed. */
  lemma RemovedAtMostOnce(images: seq<string>, removed: set<string>, visits: seq<Visit>, i: nat, j: nat)
    requires Visited(images, removed, visits) && i < j < |images| && images[i] == images[j]
    ensures visits[i] == Removed ==> visits[j] == Already
    ensures images[i] in removed ==> visits[i] == visits[j] == Already
  {
    assert VisitAllowed(images, removed, visits, i) && VisitAllowed(images, removed, visits, j);
    assert images[..j][i] == images[i] && visits[..j][i] == visits[i];
  }

  lemma RemovedPrefix(images: seq<string>, visits: seq<Visit>, i: nat)
    requires i <= |images| == |visits|
    ensures RemovedBy(images[..i], visits[..i]) <= RemovedBy(images, visits)
  {
    forall image | image in RemovedBy(images[..i], visits[..i]) ensures image in RemovedBy(images, visits) {
      var p :| 0 <= p < i && images[..i][p] == image && visits[..i][p] == Removed;
      assert images[p] == image && visits[p] == Removed;
    }
  }

  /** An image is left over exactly when its removal failed each time it came up. */
  lemma LeftOverFailedEveryTime(images: seq<string>, removed: set<string>, visits: seq<Visit>, image: string)
    requires Visited(images, removed, visits) && image in images
    ensures image !in removed + RemovedBy(images, visits) <==>
      forall i :: 0 <= i < |images| && images[i] == image ==> visits[i] == Failed
  {
    var k :| 0 <= k < |images| && images[k] == image;
    assert VisitAllowed(images, removed, visits, k);
    if image !in removed + RemovedBy(images, visits) {
      forall i | 0 <= i < |images| && images[i] == image ensures visits[i] == Failed {
        assert VisitAllowed(images, removed, visits, i);
        RemovedPrefix(images, visits, i);
      }
    }
  }

  lemma {:induction false} BackwardsAt(images: seq<string>, i: nat)
    requires i < |images|
    ensures |Backwards(images)| == |images| && Backwards(images)[i] == images[|images| - 1 - i]
    decreases |images|
  {
    if i > 0 {
      BackwardsAt(images[..|images| - 1], i - 1);
    } else if |images| > 1 {
      BackwardsAt(images[..|images| - 1], 0);
    }
  }
}
