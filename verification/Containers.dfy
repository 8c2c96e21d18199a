/** What happens to containers, as a log of events, and what the registry of the process holds after it. */
module ContainerLog {
  import opened Common

  /** A container id as the daemon hands it out; the empty id is never handed out. */
  datatype Id = Empty | Id(n: nat)

  datatype Event =
    | Created(id: Id, mounts: set<Id>)
    | Registered(id: Id)
    | RemoveTried(id: Id)
    | Unregistered(id: Id)

  function WithId(registered: seq<Id>, id: Id): seq<Id> {
    if id.Empty? || id in registered then registered else registered + [id]
  }

  /** Drops the first occurrence, as `list.remove` does; an id that is missing is ignored. */
  function WithoutId(registered: seq<Id>, id: Id): seq<Id> {
    if registered == [] then []
    else if registered[0] == id then registered[1..]
    else [registered[0]] + WithoutId(registered[1..], id)
  }

  /** The registry after a log. */
  function Registry(log: seq<Event>): seq<Id> {
    if log == [] then []
    else
      var before := Registry(log[..|log| - 1]);
      match log[|log| - 1]
      case Registered(id) => WithId(before, id)
      case Unregistered(id) => WithoutId(before, id)
      case _ => before
  }

  ghost predicate Tried(log: seq<Event>, id: Id) {
    RemoveTried(id) in log
  }

  /** The rule every site follows: a container is unregistered only after an attempt to remove it. */
  ghost predicate Disciplined(log: seq<Event>) {
    forall j :: 0 <= j < |log| && log[j].Unregistered? ==> Tried(log[..j], log[j].id)
  }

  ghost predicate EverRegistered(log: seq<Event>, id: Id) {
    id != Empty && Registered(id) in log
  }

  lemma {:induction false} WithoutIdKeepsOthers(registered: seq<Id>, id: Id, other: Id)
    requires other != id
    ensures other in WithoutId(registered, id) <==> other in registered
  {
    if registered == [] {
    } else if registered[0] == id {
      assert registered == [id] + registered[1..];
    } else {
      WithoutIdKeepsOthers(registered[1..], id, other);
      assert registered == [registered[0]] + registered[1..];
    }
  }

  lemma {:induction false} WithoutIdShrinks(registered: seq<Id>, id: Id)
    requires NoDup(registered)
    ensures NoDup(WithoutId(registered, id)) && id !in WithoutId(registered, id)
    ensures forall x :: x in WithoutId(registered, id) ==> x in registered
  {
    if registered == [] {
    } else if registered[0] == id {
      assert forall i :: 0 <= i < |registered| - 1 ==> registered[1..][i] == registered[i + 1];
    } else {
      var rest := WithoutId(registered[1..], id);
      WithoutIdShrinks(registered[1..], id);
      assert registered[0] !in registered[1..];
      forall i, j | 0 <= i < j < |rest| + 1
        ensures ([registered[0]] + rest)[i] != ([registered[0]] + rest)[j]
      {
        assert rest[j - 1] in rest;
      }
    }
  }

  /** The registry never holds an id twice, nor the empty id. */
  lemma {:induction false} RegistryHasNoDuplicates(log: seq<Event>)
    ensures NoDup(Registry(log)) && Empty !in Registry(log)
  {
    if log == [] {
    } else {
      var before := Registry(log[..|log| - 1]);
      RegistryHasNoDuplicates(log[..|log| - 1]);
      match log[|log| - 1] {
        case Registered(id) =>
          if id !in before {
            NoDupAppend(before, id);
          }
        case Unregistered(id) =>
          WithoutIdShrinks(before, id);
        case _ =>
      }
    }
  }

  lemma DisciplinedPrefix(log: seq<Event>, n: nat)
    requires Disciplined(log) && n <= |log|
    ensures Disciplined(log[..n])
  {
    forall j | 0 <= j < n && log[..n][j].Unregistered? ensures Tried(log[..n][..j], log[..n][j].id) {
      assert log[..n][..j] == log[..j];
    }
  }

  /** No container slips away: whatever was registered is still registered, or its removal has been tried. */
  lemma {:induction false} RegisteredOrTried(log: seq<Event>, id: Id)
    requires Disciplined(log) && EverRegistered(log, id)
    ensures id in Registry(log) || Tried(log, id)
  {
    var rest, last := log[..|log| - 1], log[|log| - 1];
    DisciplinedPrefix(log, |log| - 1);
    if last == Unregistered(id) {
      assert log[|log| - 1].Unregistered?;
    } else {
      if EverRegistered(rest, id) {
        RegisteredOrTried(rest, id);
      }
      if last.Unregistered? {
        WithoutIdKeepsOthers(Registry(rest), last.id, id);
      }
    }
  }

  lemma DisciplinedAppend(log: seq<Event>, event: Event)
    requires Disciplined(log)
    requires event.Unregistered? ==> Tried(log, event.id)
    ensures Disciplined(log + [event])
  {
    var longer := log + [event];
    forall j | 0 <= j < |longer| && longer[j].Unregistered? ensures Tried(longer[..j], longer[j].id) {
      if j < |log| {
        assert longer[..j] == log[..j];
      } else {
        assert longer[..j] == log;
      }
    }
  }

  /** What the registry holds was registered. */
  lemma {:induction false} RegistryWasRegistered(log: seq<Event>, id: Id)
    requires id in Registry(log)
    ensures EverRegistered(log, id)
  {
    var rest, last := log[..|log| - 1], log[|log| - 1];
    RegistryHasNoDuplicates(log);
    if id in Registry(rest) {
      RegistryWasRegistered(rest, id);
    } else if last.Unregistered? {
      RegistryHasNoDuplicates(rest);
      WithoutIdShrinks(Registry(rest), last.id);
    }
  }

  function Tries(ids: seq<Id>): seq<Event> {
    seq(|ids|, i requires 0 <= i < |ids| => RemoveTried(ids[i]))
  }

  lemma RegistryAfterTries(log: seq<Event>, ids: seq<Id>)
    ensures Registry(log + Tries(ids)) == Registry(log)
    decreases |ids|
  {
    if ids == [] {
      assert log + Tries(ids) == log;
    } else {
      var rest := ids[..|ids| - 1];
      RegistryAfterTries(log, rest);
      var longer := log + Tries(ids);
      assert longer[..|longer| - 1] == log + Tries(rest);
    }
  }

  ghost predicate AllTried(log: seq<Event>) {
    forall id :: EverRegistered(log, id) ==> Tried(log, id)
  }

  /** Between two operations nothing that is registered has had a removal attempt. */
  ghost predicate Untried(log: seq<Event>) {
    forall id :: id in Registry(log) ==> !Tried(log, id)
  }

  lemma TriedNext(log: seq<Event>, e: Event, id: Id)
    ensures Tried(log + [e], id) <==> Tried(log, id) || e == RemoveTried(id)
  {
  }

  /** Creating a container, or registering one that no removal has been tried of, keeps the registered ones untried. */
  lemma UntriedNext(log: seq<Event>, e: Event)
    requires Untried(log) && (e.Created? || (e.Registered? && !Tried(log, e.id)))
    ensures Untried(log + [e])
  {
    hide Tried;
    assert (log + [e])[..|log|] == log;
    forall id | id in Registry(log + [e]) ensures !Tried(log + [e], id) {
      TriedNext(log, e, id);
    }
  }

  /** So does trying to remove a container and unregistering it. */
  lemma UntriedAfterRemoval(log: seq<Event>, id: Id)
    requires Untried(log)
    ensures Untried(log + [RemoveTried(id)] + [Unregistered(id)])
  {
    hide Tried;
    var tried := log + [RemoveTried(id)];
    var after := tried + [Unregistered(id)];
    assert tried[..|log|] == log && after[..|tried|] == tried;
    RegistryHasNoDuplicates(log);
    WithoutIdShrinks(Registry(log), id);
    assert Registry(tried) == Registry(log) && Registry(after) == WithoutId(Registry(log), id);
    forall other | other in Registry(after) ensures !Tried(after, other) {
      TriedNext(log, RemoveTried(id), other);
      TriedNext(tried, Unregistered(id), other);
    }
  }

  lemma TriedByTries(log: seq<Event>, ids: seq<Id>, id: Id)
    ensures Tried(log + Tries(ids), id) <==> Tried(log, id) || id in ids
  {
    var after := log + Tries(ids);
    if id in ids {
      var k :| 0 <= k < |ids| && ids[k] == id;
      assert after[|log| + k] == RemoveTried(id);
    }
  }

  lemma RegisteredByTries(log: seq<Event>, ids: seq<Id>, id: Id)
    ensures EverRegistered(log + Tries(ids), id) <==> EverRegistered(log, id)
  {
  }

  /** A sweep that is cut after its first `n` attempts covers everything exactly when what it left out had been tried
      before; if it began between two operations, exactly when it left nothing out. */
  lemma CutSweepCoversExactlyWhen(log: seq<Event>, n: nat)
    requires Disciplined(log) && n <= |Registry(log)|
    ensures AllTried(log + Tries(Registry(log)[..n])) <==> forall id :: id in Registry(log)[n..] ==> Tried(log, id)
    ensures Untried(log) ==> (AllTried(log + Tries(Registry(log)[..n])) <==> n == |Registry(log)|)
  {
    hide Tried, EverRegistered, Disciplined;
    var all := Registry(log);
    var after := log + Tries(all[..n]);
    RegistryHasNoDuplicates(log);
    forall id
      ensures Tried(after, id) <==> Tried(log, id) || id in all[..n]
      ensures EverRegistered(after, id) <==> EverRegistered(log, id)
      ensures EverRegistered(log, id) ==> id in all || Tried(log, id)
      ensures id in all ==> EverRegistered(log, id)
    {
      TriedByTries(log, all[..n], id);
      RegisteredByTries(log, all[..n], id);
      if EverRegistered(log, id) {
        RegisteredOrTried(log, id);
      }
      if id in all {
        RegistryWasRegistered(log, id);
      }
    }
    forall id | id in all[n..] ensures id !in all[..n] && id in all {
    }
    assert forall id :: id in all ==> id in all[..n] || id in all[n..];
    if n < |all| {
      assert all[n] in all[n..] && all[n] in all;
    }
  }
}

/** The whole life of a buildrunner process, as far as containers are concerned: the program runs, then the exit hook
    or a signal sweeps the registry, and a further signal may cut the sweep short. */
module Lifecycle {
  import opened Common
  import opened ContainerLog

  datatype Phase =
    | Running
    | Sweeping(todo: seq<Id>)      // the snapshot entries not tried yet
    | Exited(skipped: seq<Id>)     // the snapshot entries that were never tried

  datatype State = State(log: seq<Event>, cleanupDone: bool, phase: Phase)

  datatype Step =
    | Program(event: Event)        // the main thread does one thing to a container
    | BeginSweep(reachable: bool)  // from the exit hook or a signal handler
    | SweepOne
    | SweepEnd
    | Interrupt                    // a signal lands inside a sweep

  ghost predicate Init(s: State) {
    s == State([], false, Running)
  }

  ghost predicate Enabled(s: State, step: Step) {
    match step
    case Program(event) => s.phase.Running? && (event.Unregistered? ==> Tried(s.log, event.id))
    case BeginSweep(_) => s.phase.Running?
    case SweepOne => s.phase.Sweeping? && s.phase.todo != []
    case SweepEnd => s.phase.Sweeping? && s.phase.todo == []
    case Interrupt => s.phase.Sweeping?
  }

  /** `_force_cleanup_all` raises the flag before it looks at the registry, so its second call does nothing: a signal
      inside a sweep goes straight to the exit. */
  function Apply(s: State, step: Step): State
    requires Enabled(s, step)
  {
    match step
    case Program(event) => s.(log := s.log + [event])
    case BeginSweep(reachable) =>
      var snapshot := Registry(s.log);
      if snapshot != [] && !reachable then State(s.log, true, Exited(snapshot))
      else State(s.log, true, Sweeping(snapshot))
    case SweepOne =>
      State(s.log + [RemoveTried(s.phase.todo[0])], s.cleanupDone, Sweeping(s.phase.todo[1..]))
    case SweepEnd => s.(phase := Exited([]))
    case Interrupt => s.(phase := Exited(s.phase.todo))
  }

  ghost predicate IsRun(run: seq<State>, steps: seq<Step>) {
    && |run| == |steps| + 1
    && Init(run[0])
    && forall i :: 0 <= i < |steps| ==> Enabled(run[i], steps[i]) && run[i + 1] == Apply(run[i], steps[i])
  }

  /** The snapshot entries a sweep has not dealt with. */
  function Left(s: State): seq<Id> {
    match s.phase
    case Running => Registry(s.log)
    case Sweeping(todo) => todo
    case Exited(skipped) => skipped
  }

  ghost predicate Invariant(s: State) {
    && Disciplined(s.log)
    && NoDup(Registry(s.log))
    && (s.cleanupDone <==> !s.phase.Running?)
    && (forall id :: id in Left(s) ==> id in Registry(s.log))
    && (forall id :: EverRegistered(s.log, id) ==> id in Left(s) || Tried(s.log, id))
  }

  lemma StepKeepsInvariant(s: State, step: Step)
    requires Invariant(s) && Enabled(s, step)
    ensures Invariant(Apply(s, step))
  {
    match step
    case Program(event) => ProgramKeepsInvariant(s, event);
    case SweepOne => SweepOneKeepsInvariant(s);
    case _ =>
      hide Disciplined, EverRegistered, Tried;
  }

  lemma ProgramKeepsInvariant(s: State, event: Event)
    requires Invariant(s) && Enabled(s, Program(event))
    ensures Invariant(Apply(s, Program(event)))
  {
    hide Disciplined, EverRegistered, Tried, NoDup, Registry;
    var log := s.log + [event];
    RegistryHasNoDuplicates(log);
    DisciplinedAppend(s.log, event);
    forall id | EverRegistered(log, id) ensures id in Registry(log) || Tried(log, id) {
      RegisteredOrTried(log, id);
    }
  }

  lemma SweepOneKeepsInvariant(s: State)
    requires Invariant(s) && Enabled(s, SweepOne)
    ensures Invariant(Apply(s, SweepOne))
  {
    hide Disciplined, EverRegistered, Tried, NoDup, Registry;
    var id, rest := s.phase.todo[0], s.phase.todo[1..];
    var log := s.log + [RemoveTried(id)];
    DisciplinedAppend(s.log, RemoveTried(id));
    SameRegistry(s.log, id);
    assert s.phase.todo == [id] + rest;
    forall x ensures EverRegistered(log, x) ==> x in rest || Tried(log, x) {
      TriedNext(s.log, RemoveTried(id), x);
      SameRegistered(s.log, id, x);
    }
  }

  lemma SameRegistry(log: seq<Event>, id: Id)
    ensures Registry(log + [RemoveTried(id)]) == Registry(log)
  {
    assert (log + [RemoveTried(id)])[..|log|] == log;
  }

  lemma SameRegistered(log: seq<Event>, id: Id, other: Id)
    ensures EverRegistered(log + [RemoveTried(id)], other) <==> EverRegistered(log, other)
  {
  }

  lemma {:induction false} RunKeepsInvariant(run: seq<State>, steps: seq<Step>, i: nat)
    requires IsRun(run, steps) && i < |run|
    ensures Invariant(run[i])
  {
    if i > 0 {
      RunKeepsInvariant(run, steps, i - 1);
      StepKeepsInvariant(run[i - 1], steps[i - 1]);
    }
  }

  /** In every reachable state, every container ever registered awaits the sweep or has had a removal attempt. */
  lemma NothingSlipsAway(run: seq<State>, steps: seq<Step>, i: nat, id: Id)
    requires IsRun(run, steps) && i < |run|
    ensures NoDup(Registry(run[i].log))
    ensures EverRegistered(run[i].log, id) ==> id in Left(run[i]) || Tried(run[i].log, id)
  {
    RunKeepsInvariant(run, steps, i);
  }

  /** Whatever a program does that unregisters containers only after trying to remove them is such a run. */
  lemma {:induction false} DisciplinedLogIsRun(log: seq<Event>) returns (run: seq<State>, steps: seq<Step>)
    requires Disciplined(log)
    ensures IsRun(run, steps) && run[|steps|] == State(log, false, Running)
    ensures |steps| == |log| && forall j :: 0 <= j < |steps| ==> steps[j] == Program(log[j])
    decreases |log|
  {
    if log == [] {
      run, steps := [State([], false, Running)], [];
    } else {
      var n := |log| - 1;
      DisciplinedPrefix(log, n);
      run, steps := DisciplinedLogIsRun(log[..n]);
      var step := Program(log[n]);
      assert log[..n] + [log[n]] == log;
      assert Enabled(run[n], step) && Apply(run[n], step) == State(log, false, Running);
      run, steps := run + [Apply(run[n], step)], steps + [step];
    }
  }

  /** How many removals are tried from the `b`-th step on. */
  function Swept(steps: seq<Step>, b: nat): nat
    requires b <= |steps|
  {
    if |steps| == b then 0
    else Swept(steps[..|steps| - 1], b) + if steps[|steps| - 1] == SweepOne then 1 else 0
  }

  /** From the beginning of the sweep on, the log grows by one attempt after the other. */
  ghost predicate SweptSoFar(start: State, reachable: bool, swept: nat, s: State) {
    var all := Registry(start.log);
    && swept <= |all| && s.log == start.log + Tries(all[..swept])
    && match s.phase
       case Running => false
       case Sweeping(todo) => (all == [] || reachable) && todo == all[swept..]
       case Exited(skipped) => skipped == all[swept..] && (all == [] || reachable || swept == 0)
  }

  lemma SweepBegins(s: State, step: Step)
    requires Enabled(s, step) && step.BeginSweep?
    ensures SweptSoFar(s, step.reachable, 0, Apply(s, step))
  {
    assert s.log + Tries(Registry(s.log)[..0]) == s.log;
  }

  lemma SweepGoesOn(start: State, reachable: bool, swept: nat, s: State, step: Step)
    requires SweptSoFar(start, reachable, swept, s) && Enabled(s, step)
    ensures SweptSoFar(start, reachable, swept + if step == SweepOne then 1 else 0, Apply(s, step))
  {
    hide Registry;
    var all := Registry(start.log);
    if step == SweepOne {
      assert all[swept..][0] == all[swept] && all[swept..][1..] == all[swept + 1..];
      assert Tries(all[..swept + 1]) == Tries(all[..swept]) + [RemoveTried(all[swept])];
      assert start.log + (Tries(all[..swept]) + [RemoveTried(all[swept])])
        == start.log + Tries(all[..swept]) + [RemoveTried(all[swept])];
    }
  }

  lemma {:induction false} SweepProgress(run: seq<State>, steps: seq<Step>, b: nat)
    requires IsRun(run, steps) && b < |steps| && steps[b].BeginSweep?
    ensures SweptSoFar(run[b], steps[b].reachable, Swept(steps, b), run[|steps|])
    decreases |steps|
  {
    hide SweptSoFar, Registry;
    var n := |steps| - 1;
    assert Enabled(run[n], steps[n]) && run[n + 1] == Apply(run[n], steps[n]);
    if n == b {
      SweepBegins(run[b], steps[b]);
      assert Swept(steps[..n], b) == 0;
    } else {
      SweepProgress(run[..n + 1], steps[..n], b);
      SweepGoesOn(run[b], steps[b].reachable, Swept(steps[..n], b), run[n], steps[n]);
    }
  }

  /** When a run has come to its end, everything registered has had a removal attempt exactly when each container
      skipped by the sweep had had one when the sweep began. */
  lemma ExitCoversExactlyWhen(run: seq<State>, steps: seq<Step>, b: nat)
    requires IsRun(run, steps) && b < |steps| && steps[b].BeginSweep? && run[|steps|].phase.Exited?
    ensures AllTried(run[|steps|].log) <==>
      forall id :: id in run[|steps|].phase.skipped ==> Tried(run[b].log, id)
  {
    hide Registry, AllTried, Disciplined;
    SweepProgress(run, steps, b);
    RunKeepsInvariant(run, steps, b);
    CutSweepCoversExactlyWhen(run[b].log, Swept(steps, b));
  }

  /** A sweep that begins between two operations covers everything registered exactly when nothing was registered, or
      the daemon was reachable and no signal landed before the last attempt. */
  lemma CleanExitCoversExactlyWhen(run: seq<State>, steps: seq<Step>, b: nat)
    requires IsRun(run, steps) && b < |steps| && steps[b].BeginSweep? && run[|steps|].phase.Exited?
    requires Untried(run[b].log)
    ensures AllTried(run[|steps|].log) <==> run[|steps|].phase.skipped == []
    ensures AllTried(run[|steps|].log) <==>
      Registry(run[b].log) == [] || (steps[b].reachable && Swept(steps, b) == |Registry(run[b].log)|)
  {
    hide Registry, AllTried, Disciplined, Untried;
    SweepProgress(run, steps, b);
    RunKeepsInvariant(run, steps, b);
    CutSweepCoversExactlyWhen(run[b].log, Swept(steps, b));
  }

  ghost predicate Undisturbed(steps: seq<Step>) {
    forall j :: 0 <= j < |steps| ==> steps[j] != Interrupt && (steps[j].BeginSweep? ==> steps[j].reachable)
  }

  lemma {:induction false} UndisturbedSkipsNothing(run: seq<State>, steps: seq<Step>, i: nat)
    requires IsRun(run, steps) && i < |run| && Undisturbed(steps)
    ensures run[i].phase.Exited? ==> run[i].phase.skipped == []
  {
    if i > 0 {
      UndisturbedSkipsNothing(run, steps, i - 1);
      assert run[i] == Apply(run[i - 1], steps[i - 1]);
    }
  }

  /** With a reachable daemon and no signal inside the sweep, nothing registered is left without an attempt. */
  lemma UndisturbedSweepCoversAll(run: seq<State>, steps: seq<Step>, i: nat)
    requires IsRun(run, steps) && i < |run| && run[i].phase.Exited? && Undisturbed(steps)
    ensures AllTried(run[i].log)
  {
    UndisturbedSkipsNothing(run, steps, i);
    RunKeepsInvariant(run, steps, i);
  }

  /** A second signal right after the first leaves a container behind. */
  lemma SecondSignalOrphans()
    ensures exists run: seq<State>, steps: seq<Step> ::
      && IsRun(run, steps) && run[|steps|].phase.Exited?
      && EverRegistered(run[|steps|].log, Id(1)) && !Tried(run[|steps|].log, Id(1))
  {
    var steps := [Program(Registered(Id(1))), BeginSweep(true), Interrupt];
    var s0 := State([], false, Running);
    var s1 := Apply(s0, steps[0]);
    assert s1.log == [Registered(Id(1))] && s1.log[..0] == [];
    assert Registry(s1.log) == WithId(Registry([]), Id(1)) == [Id(1)];
    var s2 := Apply(s1, steps[1]);
    var s3 := Apply(s2, steps[2]);
    var run := [s0, s1, s2, s3];
    assert IsRun(run, steps);
    assert run[|steps|] == s3 && !Tried(s3.log, Id(1));
  }
}
