/** Waiting for a service port: short-lived probe containers, one at a time, until one gets through or time is up. */
module PortWait {
  import opened Common
  import opened ContainerLog
  import opened ContainerSites
  import opened TeardownOrder

  /** Of the containers created after `before`, each has had a removal attempt before the next is created. */
  ghost predicate OneAtATime(before: seq<Event>, after: seq<Event>) {
    forall j, k ::
      |before| <= j < k < |after| && after[j].Created? && after[k].Created? && after[j].id != after[k].id ==>
      Tried(after[..k], after[j].id)
  }

  ghost predicate NoneLeft(before: seq<Event>, after: seq<Event>) {
    forall j :: |before| <= j < |after| && after[j].Created? ==> Tried(after, after[j].id)
  }

  /** One more probe, whose container is gone at its end, keeps the probes apart. */
  lemma ProbesStayApart(start: seq<Event>, before: seq<Event>, after: seq<Event>, low: nat, made: Option<Id>)
    requires start <= before && OneAtATime(start, before) && NoneLeft(start, before)
    requires ContinuesElsewhere(start, before, low)
    requires Continues(before, after, IdsOf(made), made, {})
    requires made.Some? ==> made.value.Id? && made.value.n >= low && Tried(after, made.value)
    ensures OneAtATime(start, after) && NoneLeft(start, after) && ContinuesElsewhere(start, after, low)
  {
    forall j, k | |start| <= j < k < |after| && after[j].Created? && after[k].Created? && after[j].id != after[k].id
      ensures Tried(after[..k], after[j].id)
    {
      if k < |before| {
        assert after[..k] == before[..k];
      } else {
        assert j < |before|;
        TriedStays(before, after[..k], before[j].id);
      }
    }
    forall j | |start| <= j < |after| && after[j].Created? ensures Tried(after, after[j].id) {
      if j < |before| {
        TriedStays(before, after, before[j].id);
      }
    }
  }

  datatype ProbeResult = Open | Closed | Raised

  /** Waits until the probe has ended, and reads its exit code. */
  method Attach(tester: DockerRunner) returns (ok: bool)
    requires tester.Valid()
    modifies tester.proc`failures
    ensures tester.Valid() && tester.proc.failures == old(tester.proc.failures) + if ok then 0 else 1
  {
    hide Tried, Disciplined, Untried;
    ok := tester.proc.Ask();
  }

  /** Whether the port accepts a connection shows in the exit code of the probe. */
  method Probe(proc: Process, accepts: bool) returns (result: ProbeResult, ghost made: Option<Id>)
    requires proc.Valid()
    modifies proc
    ensures proc.Valid() && proc.nextId >= old(proc.nextId) && proc.failures >= old(proc.failures)
    ensures result == Raised <==> proc.failures != old(proc.failures)
    ensures result == Open ==> accepts
    ensures result == Closed ==> !accepts
    ensures Continues(old(proc.log), proc.log, IdsOf(made), made, {})
    ensures made.Some? ==> made.value.Id? && made.value.n >= old(proc.nextId) && Tried(proc.log, made.value)
  {
    hide Continues, Tried, Disciplined;
    ContinuesSame(proc.log, {}, None, {});
    var constructed := proc.Ask();
    if !constructed {
      return Raised, None;
    }
    var tester := new DockerRunner(proc, 0);
    var started := tester.Start({}, 0);
    made := tester.created;
    var attached := false;
    if started {
      attached := Attach(tester);
    }
    ghost var middle, running := proc.log, tester.container;
    ghost var held := IdsOf(running);
    var cleaned := tester.Cleanup();
    assert Continues(middle, proc.log, held, made, {});
    ContinuesWiden(middle, proc.log, held, IdsOf(made), made, {});
    if made.Some? {
      assert running.Some? ==> running == made && Tried(proc.log, running.value);
      ContinuesTransitive(old(proc.log), middle, proc.log, IdsOf(made), made, {});
    }
    if !started || !attached || !cleaned {
      return Raised, made;
    }
    result := if accepts then Open else Closed;
  }

  /** How waiting ends: the port is open, a probe found it closed when more than the timeout had passed, the service has
      died, or a probe raised. */
  datatype Waited = PortOpen | TimedOut(spent: int) | Died | Failed

  /** Probes until the port, which accepts the `k`-th probe if `accepts(k)`, is open, as long as the service is alive.
      The clock is free, but a nap lasts at least a second. */
  method WaitForPort(proc: Process, alive: nat -> bool, accepts: nat -> bool, timeout: int)
    returns (result: Waited, probes: nat)
    requires proc.Valid()
    modifies proc
    ensures proc.Valid() && proc.nextId >= old(proc.nextId) && proc.failures >= old(proc.failures)
    ensures result == Failed <==> proc.failures != old(proc.failures)
    ensures result.TimedOut? ==> result.spent > timeout
    ensures forall k: nat :: k < probes ==> alive(k)
    ensures result == Died ==> !alive(probes)
    ensures result == PortOpen || result.TimedOut? ==> probes > 0
    ensures result == PortOpen ==> accepts(probes - 1) && forall k: nat :: k < probes - 1 ==> !accepts(k)
    ensures result.TimedOut? ==> forall k: nat :: k < probes ==> !accepts(k)
    ensures probes <= if timeout < 0 then 1 else timeout + 2
    ensures OneAtATime(old(proc.log), proc.log) && NoneLeft(old(proc.log), proc.log)
    ensures ContinuesElsewhere(old(proc.log), proc.log, old(proc.nextId))
  {
    hide Continues, OneAtATime, NoneLeft, ContinuesElsewhere;
    probes := 0;
    var elapsed := 0.0;
    NoProbeYet(proc.log, proc.nextId);
    while true
      invariant proc.Valid() && proc.nextId >= old(proc.nextId) && proc.failures == old(proc.failures)
      invariant elapsed >= probes as real && (probes == 0 || probes <= timeout + 1)
      invariant forall k: nat :: k < probes ==> alive(k) && !accepts(k)
      invariant old(proc.log) <= proc.log
      invariant OneAtATime(old(proc.log), proc.log) && NoneLeft(old(proc.log), proc.log)
      invariant ContinuesElsewhere(old(proc.log), proc.log, old(proc.nextId))
      decreases if probes == 0 then 1 else 0, timeout + 2 - probes
    {
      var spent := elapsed.Floor;
      if !alive(probes) {
        return Died, probes;
      }
      ghost var before := proc.log;
      var probe, made := Probe(proc, accepts(probes));
      probes := probes + 1;
      ProbesStayApart(old(proc.log), before, proc.log, old(proc.nextId), made);
      ContinuesPrefix(before, proc.log, IdsOf(made), made, {});
      if probe == Raised {
        return Failed, probes;
      }
      if probe == Open {
        return PortOpen, probes;
      }
      if spent > timeout {
        return TimedOut(spent), probes;
      }
      var probing, nap: real := *, *;
      if probing < 0.0 || nap < 1.0 {
        probing, nap := 0.0, 1.0;
      }
      elapsed := elapsed + probing + nap;
    }
  }

  lemma NoProbeYet(log: seq<Event>, low: nat)
    ensures OneAtATime(log, log) && NoneLeft(log, log) && ContinuesElsewhere(log, log, low)
  {
  }
}
