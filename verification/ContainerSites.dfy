/** The objects that start and remove containers. Foreign outcomes (whether the daemon creates, starts, provisions or
    removes something) are chosen freely. */
module ContainerSites {
  import opened Common
  import opened ContainerLog

  /** `after` continues `before`; in the continuation only `ids` are tried for removal, and the only container that
      may be created is `made`, with these mounts. */
  ghost predicate Continues(before: seq<Event>, after: seq<Event>, ids: set<Id>, made: Option<Id>, mounts: set<Id>) {
    && before <= after
    && forall j :: |before| <= j < |after| ==>
      && (after[j].RemoveTried? ==> after[j].id in ids)
      && (after[j].Created? ==> made == Some(after[j].id) && after[j].mounts == mounts)
  }

  lemma TriedStays(before: seq<Event>, after: seq<Event>, id: Id)
    requires before <= after && Tried(before, id)
    ensures Tried(after, id)
  {
    var j :| 0 <= j < |before| && before[j] == RemoveTried(id);
    assert after[j] == RemoveTried(id);
  }

  lemma ContinuesTransitive(a: seq<Event>, b: seq<Event>, c: seq<Event>, ids: set<Id>, made: Option<Id>,
                            mounts: set<Id>)
    requires Continues(a, b, ids, made, mounts) && Continues(b, c, ids, made, mounts)
    ensures Continues(a, c, ids, made, mounts)
  {
    forall j | |a| <= j < |c|
      ensures c[j].RemoveTried? ==> c[j].id in ids
      ensures c[j].Created? ==> made == Some(c[j].id) && c[j].mounts == mounts
    {
      assert j < |b| ==> b[j] == c[j];
    }
  }

  lemma ContinuesSame(log: seq<Event>, ids: set<Id>, made: Option<Id>, mounts: set<Id>)
    ensures Continues(log, log, ids, made, mounts)
  {
  }

  /** Creating, and perhaps registering, a container. */
  lemma StartShape(log: seq<Event>, nextId: nat, id: Id, mounts: set<Id>, ids: set<Id>)
    requires forall e :: e in log ==> e.id.Id? ==> e.id.n < nextId
    requires id.Id? && id.n >= nextId
    ensures Continues(log, log + [Created(id, mounts)], ids, Some(id), mounts)
    ensures Continues(log, log + [Created(id, mounts)] + [Registered(id)], ids, Some(id), mounts)
    ensures !Tried(log + [Created(id, mounts)], id)
    ensures !Tried(log + [Created(id, mounts)] + [Registered(id)], id)
    ensures Created(id, mounts) in log + [Created(id, mounts)]
    ensures Created(id, mounts) in log + [Created(id, mounts)] + [Registered(id)]
  {
  }

  /** Trying to remove a container and unregistering it whatever came of that. */
  lemma RemovalShape(log: seq<Event>, id: Id, made: Option<Id>, mounts: set<Id>)
    ensures Continues(log, log + [RemoveTried(id)] + [Unregistered(id)], {id}, made, mounts)
    ensures Tried(log + [RemoveTried(id)], id)
    ensures Tried(log + [RemoveTried(id)] + [Unregistered(id)], id)
  {
    assert (log + [RemoveTried(id)])[|log|] == RemoveTried(id);
    assert (log + [RemoveTried(id)] + [Unregistered(id)])[|log|] == RemoveTried(id);
  }

  lemma ContinuesWiden(a: seq<Event>, b: seq<Event>, ids: set<Id>, wider: set<Id>, made: Option<Id>, mounts: set<Id>)
    requires Continues(a, b, ids, made, mounts) && ids <= wider
    ensures Continues(a, b, wider, made, mounts)
  {
  }

  lemma ContinuesPrefix(a: seq<Event>, b: seq<Event>, ids: set<Id>, made: Option<Id>, mounts: set<Id>)
    requires Continues(a, b, ids, made, mounts)
    ensures a <= b
  {
  }

  lemma NothingNew(log: seq<Event>, ids: set<Id>)
    ensures forall made, mounts :: Continues(log, log, ids, made, mounts)
  {
  }

  lemma AnyRemovalShape(log: seq<Event>, id: Id)
    ensures forall made, mounts :: Continues(log, log + [RemoveTried(id)] + [Unregistered(id)], {id}, made, mounts)
    ensures Tried(log + [RemoveTried(id)] + [Unregistered(id)], id)
  {
    forall made, mounts ensures Continues(log, log + [RemoveTried(id)] + [Unregistered(id)], {id}, made, mounts) {
      RemovalShape(log, id, made, mounts);
    }
    RemovalShape(log, id, None, {});
  }

  ghost function IdsOf(id: Option<Id>): set<Id> {
    if id.Some? then {id.value} else {}
  }

  /** A container id the process has seen. */
  ghost predicate Known(nextId: nat, id: Option<Id>) {
    id.Some? ==> id.value.Id? && id.value.n < nextId
  }

  datatype Removal = Removed | NotFound | RemovalFailed

  /** The module-level state of the process: the registry, the one-shot flag, and the daemon it talks to. */
  class Process {
    var registered: seq<Id>
    var cleanupDone: bool
    var nextId: nat
    ghost var log: seq<Event>
    ghost var failures: nat       // how often something asked of the outside world has failed
    ghost var started: seq<Id>    // the containers that have been started, in order

    ghost predicate Consistent()
      reads this
    {
      && registered == Registry(log)
      && Disciplined(log)
      && forall e :: e in log ==> e.id.Id? ==> e.id.n < nextId
    }

    /** Between two operations, and until the sweep, nothing registered has had a removal attempt. */
    ghost predicate Valid()
      reads this
    {
      Consistent() && (cleanupDone || Untried(log))
    }

    constructor ()
      ensures Valid() && log == [] && !cleanupDone && failures == 0 && started == []
    {
      registered, cleanupDone, nextId, log, failures, started := [], false, 0, [], 0, [];
    }

    /** Asks something of the outside world. */
    method Ask() returns (ok: bool)
      modifies this`failures
      ensures failures == old(failures) + if ok then 0 else 1
    {
      ok := *;
      if !ok {
        failures := failures + 1;
      }
    }

    method StartContainer(id: Id) returns (ok: bool)
      modifies this`failures, this`started
      ensures failures == old(failures) + if ok then 0 else 1
      ensures started == old(started) + if ok then [id] else []
    {
      ok := Ask();
      if ok {
        started := started + [id];
      } else {
        assert started + [] == started;
      }
    }

    /** Appends an event that does not touch the registry. */
    ghost method Note(e: Event)
      requires Consistent() && !e.Registered? && !e.Unregistered?
      requires e.id.Id? ==> e.id.n < nextId
      modifies this`log
      ensures Consistent() && log == old(log) + [e]
    {
      DisciplinedAppend(log, e);
      log := log + [e];
      assert log[..|log| - 1] == old(log);
    }

    method Create(mounts: set<Id>) returns (id: Option<Id>)
      requires Valid()
      modifies this
      ensures Valid() && registered == old(registered) && cleanupDone == old(cleanupDone) && nextId >= old(nextId)
      ensures failures == old(failures) + if id.Some? then 0 else 1
      ensures id.None? ==> log == old(log)
      ensures started == old(started)
      ensures id.Some? ==>
        id.value.Id? && old(nextId) <= id.value.n < nextId && log == old(log) + [Created(id.value, mounts)]
    {
      var granted := Ask();
      if !granted {
        return None;
      }
      id := Some(Id(nextId));
      nextId := nextId + 1;
      if Untried(log) {
        UntriedNext(log, Created(id.value, mounts));
      }
      Note(Created(id.value, mounts));
    }

    /** Creates, starts and registers a container; one that does not start exists, but is not registered. */
    method Launch(mounts: set<Id>) returns (id: Option<Id>, ok: bool)
      requires Valid()
      modifies this
      ensures Valid() && nextId >= old(nextId) && failures >= old(failures)
      ensures ok <==> failures == old(failures)
      ensures if id.None? then !ok && log == old(log) else !Tried(log, id.value)
      ensures id.Some? ==> id.value.Id? && old(nextId) <= id.value.n < nextId && Created(id.value, mounts) in log
      ensures log == old(log) + match id {
        case None => []
        case Some(i) => if ok then [Created(i, mounts), Registered(i)] else [Created(i, mounts)]
      }
      ensures started == old(started) + if ok then [id.value] else []
      ensures Continues(old(log), log, {}, id, mounts)
    {
      hide Continues, Tried, Disciplined, Registry;
      id := Create(mounts);
      ok := id.Some?;
      if ok {
        StartShape(old(log), old(nextId), id.value, mounts, {});
        ok := StartContainer(id.value);
        if ok {
          Register(id.value);
        }
        assert old(log) + [Created(id.value, mounts)] + [Registered(id.value)]
          == old(log) + [Created(id.value, mounts), Registered(id.value)];
      } else {
        ContinuesSame(log, {}, None, mounts);
        assert started + [] == started;
      }
    }

    /** What is registered must not have had a removal attempt; every site registers what it has just started. */
    method Register(id: Id)
      requires Valid() && (id.Id? ==> id.n < nextId) && (cleanupDone || !Tried(log, id))
      modifies this`registered, this`log
      ensures Valid() && log == old(log) + [Registered(id)]
      ensures registered == if id == Empty || id in old(registered) then old(registered) else old(registered) + [id]
    {
      if id != Empty && id !in registered {
        registered := registered + [id];
      }
      DisciplinedAppend(log, Registered(id));
      if Untried(log) && !Tried(log, id) {
        UntriedNext(log, Registered(id));
      }
      log := log + [Registered(id)];
      assert log[..|log| - 1] == old(log);
    }

    method Unregister(id: Id)
      requires Consistent() && Tried(log, id)
      requires id.Id? ==> id.n < nextId
      modifies this`registered, this`log
      ensures Consistent() && log == old(log) + [Unregistered(id)]
      ensures registered == WithoutId(old(registered), id)
    {
      registered := Dropped(registered, id);
      DisciplinedAppend(log, Unregistered(id));
      log := log + [Unregistered(id)];
      assert log[..|log| - 1] == old(log);
    }

    /** `list.remove`, with the missing element ignored. */
    method Dropped(ids: seq<Id>, id: Id) returns (rest: seq<Id>)
      ensures rest == WithoutId(ids, id)
    {
      var i := 0;
      while i < |ids| && ids[i] != id
        invariant 0 <= i <= |ids|
        invariant WithoutId(ids, id) == ids[..i] + WithoutId(ids[i..], id)
      {
        assert ids[i..][1..] == ids[i + 1..];
        assert ids[..i + 1] == ids[..i] + [ids[i]];
        assert WithoutId(ids[i..], id) == [ids[i]] + WithoutId(ids[i + 1..], id);
        i := i + 1;
      }
      if i < |ids| {
        assert ids[i..][1..] == ids[i + 1..];
        rest := ids[..i] + ids[i + 1..];
      } else {
        assert ids[..i] == ids && ids[i..] == [];
        rest := ids;
      }
    }

    method TryRemove(id: Id) returns (result: Removal)
      requires Consistent() && (id.Id? ==> id.n < nextId)
      modifies this`log, this`failures
      ensures Consistent() && log == old(log) + [RemoveTried(id)]
      ensures failures == old(failures) + if result == RemovalFailed then 1 else 0
    {
      Note(RemoveTried(id));
      var known: bool := *;
      if !known {
        return NotFound;
      }
      var removed := Ask();
      result := if removed then Removed else RemovalFailed;
    }

    /** The shape every site uses: try to remove, and unregister in any case. */
    method Discard(id: Id) returns (result: Removal)
      requires Valid() && (id.Id? ==> id.n < nextId)
      modifies this`registered, this`log, this`failures
      ensures Valid() && log == old(log) + [RemoveTried(id)] + [Unregistered(id)]
      ensures failures == old(failures) + if result == RemovalFailed then 1 else 0
    {
      hide Continues, Disciplined, Registry, Untried;
      result := TryRemove(id);
      RemovalShape(old(log), id, None, {});
      Unregister(id);
      if old(Untried(log)) {
        UntriedAfterRemoval(old(log), id);
      }
    }

    /** Tries to remove everything in the registry, once per process. */
    method ForceCleanupAll(reachable: bool)
      requires Valid()
      modifies this
      ensures Valid() && cleanupDone && registered == old(registered) && nextId == old(nextId)
      ensures log == old(log) + if old(cleanupDone) || !reachable then [] else Tries(old(registered))
      ensures !old(cleanupDone) ==> (AllTried(log) <==> old(registered) == [] || reachable)
    {
      hide Tried, EverRegistered, Disciplined, AllTried, Untried;
      if cleanupDone {
        return;
      }
      cleanupDone := true;
      var containers := registered;
      if containers == [] || !reachable {
        assert log + Tries(containers[..0]) == log;
        CutSweepCoversExactlyWhen(log, 0);
        return;
      }
      var i := 0;
      while i < |containers|
        invariant 0 <= i <= |containers|
        invariant Valid() && cleanupDone && registered == old(registered) && nextId == old(nextId)
        invariant log == old(log) + Tries(containers[..i])
      {
        RegistryWasRegistered(log, containers[i]);
        var _ := TryRemove(containers[i]);
        assert Tries(containers[..i + 1]) == Tries(containers[..i]) + [RemoveTried(containers[i])];
        i := i + 1;
      }
      assert containers[..i] == containers;
      CutSweepCoversExactlyWhen(old(log), i);
    }
  }

  /** What a provisioner adds to the log of a start. */
  lemma AfterProvision(start: seq<Event>, before: seq<Event>, after: seq<Event>, id: Id, mounts: set<Id>)
    requires Continues(start, before, {id}, Some(id), mounts) && Created(id, mounts) in before
    requires Continues(before, after, {id}, Some(id), mounts)
    ensures Continues(start, after, {id}, Some(id), mounts)
    ensures start <= after && Created(id, mounts) in after
  {
    ContinuesTransitive(start, before, after, {id}, Some(id), mounts);
    var j :| 0 <= j < |before| && before[j] == Created(id, mounts);
    assert after[j] == before[j];
  }

  /** Runs a build, service or helper container. */
  class DockerRunner {
    const proc: Process
    const spawned: nat               // containers the command in the container is known to spawn
    var container: Option<Id>
    ghost var created: Option<Id>    // the container this runner created last, even once it is gone
    ghost var provisioned: nat       // how many provisioners have run in it
    ghost var unspawned: nat         // how many spawned containers have been removed

    ghost predicate Valid()
      reads this, proc
    {
      && proc.Valid()
      && Known(proc.nextId, created)
      && (container.Some? ==> created == container)
      && (container.None? && created.Some? ==> Tried(proc.log, created.value))
    }

    constructor (proc: Process, spawned: nat)
      requires proc.Valid()
      ensures Valid() && this.proc == proc && this.spawned == spawned && created.None? && container.None?
      ensures provisioned == 0 && unspawned == 0
    {
      this.proc, this.spawned := proc, spawned;
      container, created, provisioned, unspawned := None, None, 0, 0;
    }

    /** The container was created, and registered if it could be started. */
    ghost predicate Launched(before: seq<Event>, after: seq<Event>, mounts: set<Id>, started: bool)
      reads this`created
    {
      && created.Some?
      && after == before + [Created(created.value, mounts)] + if started then [Registered(created.value)] else []
    }

    ghost predicate LaunchedAndDiscarded(before: seq<Event>, after: seq<Event>, mounts: set<Id>)
      reads this`created
    {
      exists between :: Launched(before, between, mounts, true) && Discarded(between, after)
    }

    /** Its removal was tried and it was unregistered. */
    ghost predicate Discarded(before: seq<Event>, after: seq<Event>)
      reads this`created
    {
      created.Some? && after == before + [RemoveTried(created.value)] + [Unregistered(created.value)]
    }

    /** Creates, starts, registers and provisions the container; false stands for any exception. */
    method Start(mounts: set<Id>, provisioners: nat) returns (ok: bool)
      requires Valid()
      modifies this, proc
      ensures Valid() && proc.nextId >= old(proc.nextId) && proc.failures >= old(proc.failures)
      ensures ok <==> old(container).None? && proc.failures == old(proc.failures)
      ensures created == old(created) || (created.Some? && created.value.Id? && created.value.n >= old(proc.nextId))
      ensures created == old(created) ==> !ok && proc.log == old(proc.log)
      ensures old(proc.log) <= proc.log
      ensures created != old(created) ==> Created(created.value, mounts) in proc.log
      ensures created != old(created) ==> Continues(old(proc.log), proc.log, IdsOf(created), created, mounts)
      ensures ok ==> container == created && container.Some? && !Tried(proc.log, created.value)
      ensures ok ==> Launched(old(proc.log), proc.log, mounts, true) && provisioned == provisioners
      ensures !ok ==>
        || proc.log == old(proc.log)
        || Launched(old(proc.log), proc.log, mounts, false)
        || Launched(old(proc.log), proc.log, mounts, true)
        || LaunchedAndDiscarded(old(proc.log), proc.log, mounts)
    {
      hide Continues, Tried, Disciplined;
      ok := Launch(mounts);
      if !ok {
        return;
      }
      ghost var before := proc.log;
      assert Launched(old(proc.log), before, mounts, true);
      ok := Provision(provisioners);
      assert !ok ==> proc.log == before || Discarded(before, proc.log);
      assert Launched(old(proc.log), before, mounts, true);
      AfterProvision(old(proc.log), before, proc.log, created.value, mounts);
    }

    /** Everything but the provisioning. */
    method Launch(mounts: set<Id>) returns (ok: bool)
      requires Valid()
      modifies this, proc
      ensures Valid() && proc.nextId >= old(proc.nextId) && proc.failures >= old(proc.failures)
      ensures ok <==> old(container).None? && proc.failures == old(proc.failures)
      ensures created == old(created) || (created.Some? && created.value.Id? && created.value.n >= old(proc.nextId))
      ensures created == old(created) ==> !ok && proc.log == old(proc.log)
      ensures old(proc.log) <= proc.log
      ensures created != old(created) ==> Created(created.value, mounts) in proc.log
      ensures created != old(created) ==> Continues(old(proc.log), proc.log, IdsOf(created), created, mounts)
      ensures ok ==> container == created && container.Some? && !Tried(proc.log, created.value)
      ensures proc.log == old(proc.log) || Launched(old(proc.log), proc.log, mounts, ok)
      ensures ok ==> Launched(old(proc.log), proc.log, mounts, true)
    {
      hide Continues, Tried, Disciplined;
      if container.Some? {
        return false;
      }
      var made: Option<Id>;
      made, ok := proc.Launch(mounts);
      if made.Some? {
        container, created := made, made;
        assert old(proc.log) + [Created(made.value, mounts)] + [Registered(made.value)]
          == old(proc.log) + [Created(made.value, mounts), Registered(made.value)];
        assert old(proc.log) + [Created(made.value, mounts)] + [] == old(proc.log) + [Created(made.value, mounts)];
        ContinuesWiden(old(proc.log), proc.log, {}, IdsOf(made), made, mounts);
      }
    }

    /** A provisioner that raises takes the container down with it. */
    method Provision(provisioners: nat) returns (ok: bool)
      requires Valid() && container.Some?
      modifies this, proc
      ensures Valid() && created == old(created) && proc.nextId == old(proc.nextId)
      ensures proc.failures >= old(proc.failures) && (ok <==> proc.failures == old(proc.failures))
      ensures ok ==> container == old(container) && proc.log == old(proc.log) && provisioned == provisioners
      ensures !ok ==> proc.log == old(proc.log) || Discarded(old(proc.log), proc.log)
      ensures forall made, mounts :: Continues(old(proc.log), proc.log, IdsOf(created), made, mounts)
    {
      hide Tried, Disciplined;
      provisioned := 0;
      var i := 0;
      while i < provisioners
        invariant Valid() && container == old(container) && created == old(created) && proc.nextId == old(proc.nextId)
        invariant proc.log == old(proc.log) && proc.failures == old(proc.failures)
        invariant 0 <= i <= provisioners && provisioned == i
      {
        var done := proc.Ask();
        if !done {
          var _ := Cleanup();
          return false;
        }
        provisioned := provisioned + 1;
        i := i + 1;
      }
      return true;
    }

    /** Removes the container after the ones it spawned; false stands for an exception on the way. */
    method Cleanup() returns (ok: bool)
      requires Valid()
      modifies this, proc
      ensures Valid() && created == old(created) && proc.nextId == old(proc.nextId)
      ensures proc.failures >= old(proc.failures) && (ok <==> proc.failures == old(proc.failures))
      ensures ok ==> container.None?
      ensures old(container).None? ==> ok && proc.log == old(proc.log)
      ensures spawned == 0 && old(container).Some? ==> Tried(proc.log, old(container).value)
      ensures forall made, mounts :: Continues(old(proc.log), proc.log, IdsOf(old(container)), made, mounts)
      ensures ok && old(container).Some? ==>
        Discarded(old(proc.log), proc.log) && unspawned == old(unspawned) + spawned
      ensures !ok ==> proc.log == old(proc.log) || Discarded(old(proc.log), proc.log)
    {
      hide Continues, Tried, Disciplined;
      NothingNew(proc.log, IdsOf(container));
      if container.Some? {
        var aborted := CleanupSpawned();
        if aborted {
          return false;
        }
        AnyRemovalShape(proc.log, container.value);
        var result := proc.Discard(container.value);
        if result == RemovalFailed {
          return false;
        }
      }
      container := None;
      return true;
    }

    /** Removes the spawned containers, which the registry does not know; an unexpected error aborts. */
    method CleanupSpawned() returns (aborted: bool)
      modifies this`unspawned, proc`failures
      ensures proc.failures == old(proc.failures) + if aborted then 1 else 0
      ensures spawned == 0 ==> !aborted
      ensures !aborted ==> unspawned == old(unspawned) + spawned
    {
      var i := 0;
      while i < spawned
        invariant 0 <= i <= spawned && unspawned == old(unspawned) + i
        invariant proc.failures == old(proc.failures)
      {
        var removed := proc.Ask();
        if !removed {
          return true;
        }
        unspawned := unspawned + 1;
        i := i + 1;
      }
      aborted := false;
    }
  }

  /** The container that gives other containers access to the daemon. */
  class DaemonProxy {
    const proc: Process
    var container: Option<Id>

    ghost predicate Valid()
      reads this, proc
    {
      proc.Valid() && Known(proc.nextId, container)
    }

    constructor (proc: Process)
      requires proc.Valid()
      ensures Valid() && this.proc == proc && container.None?
    {
      this.proc, container := proc, None;
    }

    method Start() returns (ok: bool)
      requires Valid()
      modifies this, proc
      ensures Valid() && proc.nextId >= old(proc.nextId)
      ensures container.Some? && container != old(container) ==>
        container.value.Id? && container.value.n >= old(proc.nextId)
      ensures Continues(old(proc.log), proc.log, {}, container, {})
      ensures proc.failures >= old(proc.failures) && (ok <==> proc.failures == old(proc.failures))
      ensures ok ==> container.Some? && !Tried(proc.log, container.value)
      ensures container.None? ==> proc.log == old(proc.log)
      ensures container.Some? ==>
        proc.log == old(proc.log) + [Created(container.value, {})] + if ok then [Registered(container.value)] else []
    {
      hide Continues, Tried, Disciplined;
      container, ok := proc.Launch({});
      if container.Some? {
        assert old(proc.log) + [Created(container.value, {})] + [Registered(container.value)]
          == old(proc.log) + [Created(container.value, {}), Registered(container.value)];
        assert old(proc.log) + [Created(container.value, {})] + [] == old(proc.log) + [Created(container.value, {})];
      }
    }

    /** Writing the log line fails when there is no container, before the check that there is one. */
    method Stop() returns (ok: bool)
      requires Valid()
      modifies proc
      ensures Valid() && proc.nextId == old(proc.nextId)
      ensures proc.failures >= old(proc.failures) && (ok <==> container.Some?)
      ensures !ok ==> proc.log == old(proc.log) && proc.failures == old(proc.failures)
      ensures ok ==> Tried(proc.log, container.value)
      ensures ok ==> proc.log == old(proc.log) + [RemoveTried(container.value)] + [Unregistered(container.value)]
      ensures forall made, mounts :: Continues(old(proc.log), proc.log, IdsOf(container), made, mounts)
    {
      hide Continues, Tried, Disciplined;
      NothingNew(proc.log, {});
      if container.None? {
        return false;
      }
      AnyRemovalShape(proc.log, container.value);
      var _ := proc.Discard(container.value);
      return true;
    }
  }

  /** The container that exposes the ssh agent. */
  class AgentProxy {
    const proc: Process
    var container: Option<Id>
    ghost var connected: bool

    ghost predicate Valid()
      reads this, proc
    {
      proc.Valid() && Known(proc.nextId, container)
    }

    constructor (proc: Process)
      requires proc.Valid()
      ensures Valid() && this.proc == proc && container.None? && !connected
    {
      this.proc, container, connected := proc, None, false;
    }

    /** Fails without keys, and when the container or the connection to it cannot be set up. */
    method Start(keys: nat) returns (ok: bool)
      requires Valid()
      modifies this, proc
      ensures Valid() && proc.nextId >= old(proc.nextId)
      ensures container.Some? && container != old(container) ==>
        container.value.Id? && container.value.n >= old(proc.nextId)
      ensures Continues(old(proc.log), proc.log, {}, container, {})
      ensures proc.failures >= old(proc.failures) && (ok <==> keys > 0 && proc.failures == old(proc.failures))
      ensures ok ==> container.Some? && !Tried(proc.log, container.value) && connected
      ensures ok ==> proc.log == old(proc.log) + [Created(container.value, {}), Registered(container.value)]
      ensures keys == 0 ==> proc.log == old(proc.log) && container == old(container)
      ensures keys > 0 && container.None? ==> proc.log == old(proc.log)
      ensures keys > 0 && container.Some? ==>
        || proc.log == old(proc.log) + [Created(container.value, {})]
        || proc.log == old(proc.log) + [Created(container.value, {}), Registered(container.value)]
    {
      hide Continues, Tried, Disciplined;
      NothingNew(proc.log, {});
      if keys == 0 {
        return false;
      }
      connected := false;
      container, ok := proc.Launch({});
      if ok {
        ok := Connect();
      }
    }

    /** Opens the connection that forwards the agent. */
    method Connect() returns (ok: bool)
      modifies this`connected, proc`failures
      ensures connected == ok && proc.failures == old(proc.failures) + if ok then 0 else 1
    {
      ok := proc.Ask();
      connected := ok;
    }

    method Stop()
      requires Valid()
      modifies proc
      ensures Valid() && proc.nextId == old(proc.nextId) && proc.failures >= old(proc.failures)
      ensures container.Some? ==> Tried(proc.log, container.value)
      ensures proc.log == old(proc.log) + if container.None? then []
        else [RemoveTried(container.value)] + [Unregistered(container.value)]
      ensures forall made, mounts :: Continues(old(proc.log), proc.log, IdsOf(container), made, mounts)
    {
      hide Continues, Tried, Disciplined;
      NothingNew(proc.log, {});
      if container.Some? {
        AnyRemovalShape(proc.log, container.value);
        var _ := proc.Discard(container.value);
        assert old(proc.log) + ([RemoveTried(container.value)] + [Unregistered(container.value)])
          == old(proc.log) + [RemoveTried(container.value)] + [Unregistered(container.value)];
      } else {
        assert proc.log + [] == proc.log;
      }
    }
  }

  /** The local image registry that multi-platform builds push to. */
  class LocalRegistry {
    const proc: Process
    var running: bool
    var container: Option<Id>
    ghost var inspected: bool

    ghost predicate Valid()
      reads this, proc
    {
      proc.Valid() && Known(proc.nextId, container) && (running ==> container.Some?)
    }

    constructor (proc: Process)
      requires proc.Valid()
      ensures Valid() && this.proc == proc && !running && container.None? && !inspected
    {
      this.proc, running, container, inspected := proc, false, None, false;
    }

    /** Looks for the port the registry is reachable at. */
    method Inspect() returns (ok: bool)
      modifies this`inspected, proc`failures
      ensures inspected == ok && proc.failures == old(proc.failures) + if ok then 0 else 1
    {
      ok := proc.Ask();
      inspected := ok;
    }

    /** Started at most once; an unexpected port layout fails after the container was registered. */
    method Start() returns (ok: bool)
      requires Valid()
      modifies this, proc
      ensures Valid() && proc.nextId >= old(proc.nextId)
      ensures old(running) ==> ok && proc.log == old(proc.log) && running
      ensures proc.failures >= old(proc.failures) && (ok <==> proc.failures == old(proc.failures))
      ensures ok ==> running
      ensures ok && !old(running) ==>
        && container.Some? && inspected
        && proc.log == old(proc.log) + [Created(container.value, {}), Registered(container.value)]
      ensures !ok ==> proc.log == old(proc.log) || exists id ::
        || proc.log == old(proc.log) + [Created(id, {})]
        || proc.log == old(proc.log) + [Created(id, {}), Registered(id)]
      ensures exists made :: Continues(old(proc.log), proc.log, {}, made, {})
    {
      hide Continues, Tried, Disciplined;
      ContinuesSame(proc.log, {}, None, {});
      if running {
        return true;
      }
      var made: Option<Id>;
      inspected := false;
      made, ok := proc.Launch({});
      if ok {
        ok := Inspect();
        if ok {
          container, running := made, true;
        }
      }
    }

    method Stop() returns (ok: bool)
      requires Valid()
      modifies this, proc
      ensures Valid() && proc.nextId == old(proc.nextId) && container == old(container)
      ensures proc.failures >= old(proc.failures) && (ok <==> proc.failures == old(proc.failures))
      ensures ok ==> !running
      ensures old(running) ==> Tried(proc.log, container.value)
      ensures !old(running) ==> ok && proc.log == old(proc.log)
      ensures old(running) ==>
        proc.log == old(proc.log) + [RemoveTried(container.value)] + [Unregistered(container.value)]
      ensures forall made, mounts :: Continues(old(proc.log), proc.log, IdsOf(container), made, mounts)
    {
      hide Continues, Tried, Disciplined;
      NothingNew(proc.log, IdsOf(container));
      if running {
        AnyRemovalShape(proc.log, container.value);
        var result := proc.Discard(container.value);
        if result == RemovalFailed {
          return false;
        }
        running := false;
      }
      return true;
    }
  }
}
