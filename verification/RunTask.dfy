/** Pure facts about the containers of one run task: `slots` lists them in the order they are started, with None for
    one that was not created. */
module TeardownOrder {
  import opened Common
  import opened ContainerLog
  import opened ContainerSites

  /** Whenever a removal is tried, one has been tried for every container started later. */
  ghost predicate ReverseRemovals(log: seq<Event>, slots: seq<Option<Id>>) {
    forall j, p, q :: 0 <= j < |log| && 0 <= p < q < |slots| && slots[p].Some? && slots[q].Some? ==>
      log[j] == RemoveTried(slots[p].value) ==> Tried(log[..j], slots[q].value)
  }

  ghost predicate Distinct(slots: seq<Option<Id>>) {
    forall p, q :: 0 <= p < q < |slots| && slots[p].Some? ==> slots[p] != slots[q]
  }

  ghost predicate TriedFrom(log: seq<Event>, slots: seq<Option<Id>>, from: nat) {
    forall q :: from <= q < |slots| && slots[q].Some? ==> Tried(log, slots[q].value)
  }

  ghost predicate NoneTried(log: seq<Event>, slots: seq<Option<Id>>) {
    forall q :: 0 <= q < |slots| && slots[q].Some? ==> !Tried(log, slots[q].value)
  }

  /** Every container mounts volumes only of containers started before it. */
  ghost predicate MountsEarlier(log: seq<Event>, slots: seq<Option<Id>>) {
    forall e, q, d :: e in log && e.Created? && 0 <= q < |slots| && slots[q] == Some(e.id) && d in e.mounts ==>
      Some(d) in slots[..q]
  }

  /** All ids in the slots are below the bound, so a new id is in none of them. */
  ghost predicate Bounded(slots: seq<Option<Id>>, nextId: nat) {
    forall q :: 0 <= q < |slots| ==> Known(nextId, slots[q])
  }

  /** Removing the container in slot `q`, once the later ones are dealt with, keeps the order. */
  lemma RemovalKeepsOrder(before: seq<Event>, after: seq<Event>, slots: seq<Option<Id>>, q: nat, ids: set<Id>)
    requires ReverseRemovals(before, slots) && Distinct(slots) && q < |slots|
    requires Continues(before, after, ids, None, {}) && ids <= IdsOf(slots[q])
    requires TriedFrom(before, slots, q + 1)
    ensures ReverseRemovals(after, slots)
    ensures TriedFrom(after, slots, q + 1)
  {
    forall j, p, r | 0 <= j < |after| && 0 <= p < r < |slots| && slots[p].Some? && slots[r].Some?
      && after[j] == RemoveTried(slots[p].value)
      ensures Tried(after[..j], slots[r].value)
    {
      if j < |before| {
        assert after[..j] == before[..j];
      } else {
        assert p == q;
        TriedStays(before, after[..j], slots[r].value);
      }
    }
    forall r | q + 1 <= r < |slots| && slots[r].Some? ensures Tried(after, slots[r].value) {
      TriedStays(before, after, slots[r].value);
    }
  }

  /** With reverse removals and mounts of earlier containers only, no container goes before one that mounts it. */
  lemma MountersGoFirst(log: seq<Event>, slots: seq<Option<Id>>, j: nat, made: Event)
    requires ReverseRemovals(log, slots) && MountsEarlier(log, slots)
    requires j < |log| && log[j].RemoveTried?
    requires made in log && made.Created? && Some(made.id) in slots && log[j].id in made.mounts
    ensures Tried(log[..j], made.id)
  {
    var q :| 0 <= q < |slots| && slots[q] == Some(made.id);
    assert Some(log[j].id) in slots[..q];
    var p :| 0 <= p < q && slots[p] == Some(log[j].id);
  }

  ghost predicate Safe(log: seq<Event>, slots: seq<Option<Id>>, nextId: nat) {
    ReverseRemovals(log, slots) && MountsEarlier(log, slots) && Distinct(slots) && Bounded(slots, nextId)
  }

  ghost predicate NoneFrom(slots: seq<Option<Id>>, k: nat) {
    forall q :: k <= q < |slots| ==> slots[q].None?
  }

  /** An unused slot makes no difference. */
  lemma PadKeepsSafe(log: seq<Event>, slots: seq<Option<Id>>, nextId: nat)
    requires Safe(log, slots, nextId)
    ensures Safe(log, slots + [None], nextId)
    ensures NoneTried(log, slots) ==> NoneTried(log, slots + [None])
  {
    var longer := slots + [None];
    assert forall q :: 0 <= q < |slots| ==> longer[..q] == slots[..q];
  }

  /** One removal of the teardown. */
  lemma CleanupStep(before: seq<Event>, after: seq<Event>, slots: seq<Option<Id>>, q: nat, nextId: nat, ids: set<Id>)
    requires Safe(before, slots, nextId) && q < |slots| && TriedFrom(before, slots, q + 1)
    requires Continues(before, after, ids, None, {}) && ids <= IdsOf(slots[q])
    ensures Safe(after, slots, nextId) && TriedFrom(after, slots, q + 1)
    ensures (slots[q].Some? ==> Tried(after, slots[q].value)) ==> TriedFrom(after, slots, q)
  {
    RemovalKeepsOrder(before, after, slots, q, ids);
    forall e | e in after && e.Created? ensures e in before {
      var j :| 0 <= j < |after| && after[j] == e;
      assert j < |before| && before[j] == e;
    }
  }

  /** The source, the daemon and the agent, as far as they are there. */
  ghost function Helpers(source: Option<Id>, daemon: Option<Id>, agent: Option<Id>): (ids: set<Id>)
    ensures forall d :: d in ids <==> Some(d) == source || Some(d) == daemon || Some(d) == agent
  {
    IdsOf(source) + IdsOf(daemon) + IdsOf(agent)
  }

  /** `d` is the container behind the first link with this name. */
  ghost predicate Provider(links: seq<string>, started: seq<Option<Id>>, name: string, d: Id) {
    exists i :: 0 <= i < |links| && i < |started| && FirstLink(links, name, i) && started[i] == Some(d)
  }

  ghost predicate FirstLink(links: seq<string>, name: string, i: nat)
    requires i < |links|
  {
    links[i] == name && name !in links[..i]
  }

  /** `d` is the container of one of the named services. */
  ghost predicate Provides(links: seq<string>, started: seq<Option<Id>>, volumesFrom: seq<string>, d: Id) {
    exists v :: v in volumesFrom && Provider(links, started, v, d)
  }

  /** The container was created with the volumes of the helpers and of every named service, and with no others. */
  ghost predicate Mounted(log: seq<Event>, id: Option<Id>, helpers: set<Id>, links: seq<string>,
                          started: seq<Option<Id>>, volumesFrom: seq<string>)
  {
    exists m :: MountedAs(log, id, helpers, links, started, volumesFrom, m)
  }

  ghost predicate MountedAs(log: seq<Event>, id: Option<Id>, helpers: set<Id>, links: seq<string>,
                            started: seq<Option<Id>>, volumesFrom: seq<string>, m: set<Id>)
  {
    && id.Some? && Created(id.value, m) in log
    && (forall v :: v in volumesFrom ==> v in links)
    && forall d :: d in m <==> d in helpers || Provides(links, started, volumesFrom, d)
  }

  lemma ProvidedNext(links: seq<string>, started: seq<Option<Id>>, volumesFrom: seq<string>, n: nat, k: nat, d: Id)
    requires n < |volumesFrom| && |links| == |started| && k < |links|
    requires FirstLink(links, volumesFrom[n], k)
    ensures Provides(links, started, volumesFrom[..n + 1], d) <==>
      Provides(links, started, volumesFrom[..n], d) || started[k] == Some(d)
  {
    assert volumesFrom[..n + 1] == volumesFrom[..n] + [volumesFrom[n]];
    if started[k] == Some(d) {
      assert Provider(links, started, volumesFrom[n], d);
    }
    if Provider(links, started, volumesFrom[n], d) {
      var i :| 0 <= i < |links| && FirstLink(links, volumesFrom[n], i) && started[i] == Some(d);
      assert i == k by { OneFirstLink(links, volumesFrom[n], i, k); }
    }
  }

  lemma OneFirstLink(links: seq<string>, name: string, i: nat, k: nat)
    requires i < |links| && k < |links| && FirstLink(links, name, i) && FirstLink(links, name, k)
    ensures i == k
  {
  }

  /** More services that start change nothing about those already named. */
  lemma ProviderStays(links: seq<string>, links': seq<string>, started: seq<Option<Id>>, started': seq<Option<Id>>,
                      name: string, d: Id)
    requires links <= links' && started <= started' && |links| <= |started| && name in links
    ensures Provider(links, started, name, d) <==> Provider(links', started', name, d)
  {
    if Provider(links, started, name, d) {
      var i :| 0 <= i < |links| && i < |started| && FirstLink(links, name, i) && started[i] == Some(d);
      assert links'[..i] == links[..i] && FirstLink(links', name, i) && started'[i] == Some(d);
    }
    if Provider(links', started', name, d) {
      var i :| 0 <= i < |links'| && i < |started'| && FirstLink(links', name, i) && started'[i] == Some(d);
      var k :| 0 <= k < |links| && links[k] == name;
      assert links'[k] == name;
      assert forall q :: 0 <= q < i ==> links'[q] in links'[..i];
      assert links'[..i] == links[..i] && FirstLink(links, name, i) && started[i] == Some(d);
    }
  }

  lemma MountedStays(log: seq<Event>, log': seq<Event>, id: Option<Id>, helpers: set<Id>, links: seq<string>,
                     links': seq<string>, started: seq<Option<Id>>, started': seq<Option<Id>>, volumesFrom: seq<string>)
    requires log <= log' && links <= links' && started <= started' && |links| <= |started|
    requires Mounted(log, id, helpers, links, started, volumesFrom)
    ensures Mounted(log', id, helpers, links', started', volumesFrom)
  {
    var m :| MountedAs(log, id, helpers, links, started, volumesFrom, m);
    var j :| 0 <= j < |log| && log[j] == Created(id.value, m);
    assert log'[j] == log[j];
    forall d ensures Provides(links, started, volumesFrom, d) <==> Provides(links', started', volumesFrom, d) {
      forall v | v in volumesFrom ensures Provider(links, started, v, d) <==> Provider(links', started', v, d) {
        ProviderStays(links, links', started, started', v, d);
      }
    }
    assert MountedAs(log', id, helpers, links', started', volumesFrom, m);
  }

  /** A container just created with these mounts, in terms of what has started by then. */
  lemma LaunchedMounted(log: seq<Event>, id: Option<Id>, helpers: set<Id>, links: seq<string>, links': seq<string>,
                        started: seq<Option<Id>>, started': seq<Option<Id>>, volumesFrom: seq<string>, m: set<Id>)
    requires id.Some? && Created(id.value, m) in log && forall v :: v in volumesFrom ==> v in links
    requires forall d :: d in m <==> d in helpers || Provides(links, started, volumesFrom, d)
    requires links <= links' && started <= started' && |links| <= |started|
    ensures Mounted(log, id, helpers, links', started', volumesFrom)
  {
    assert MountedAs(log, id, helpers, links, started, volumesFrom, m);
    MountedStays(log, log, id, helpers, links, links', started, started', volumesFrom);
  }

  ghost predicate LogBounded(log: seq<Event>, nextId: nat) {
    forall e :: e in log ==> e.id.Id? ==> e.id.n < nextId
  }

  ghost predicate FreshId(id: Option<Id>, low: nat, high: nat) {
    id.Some? ==> id.value.Id? && low <= id.value.n < high
  }

  /** Starting the next container, with volumes of earlier ones, keeps everything in order. */
  lemma FillKeepsSafe(before: seq<Event>, after: seq<Event>, slots: seq<Option<Id>>, k: nat, low: nat, high: nat,
                      ids: set<Id>, made: Option<Id>, mounts: set<Id>)
    requires Safe(before, slots, low) && NoneTried(before, slots) && LogBounded(before, low) && low <= high
    requires k < |slots| && NoneFrom(slots, k)
    requires Continues(before, after, ids, made, mounts) && ids <= IdsOf(made) && FreshId(made, low, high)
    requires forall d :: d in mounts ==> Some(d) in slots[..k]
    ensures Safe(after, slots[k := made], high)
    ensures (made.Some? ==> !Tried(after, made.value)) ==> NoneTried(after, slots[k := made])
  {
    hide LogBounded;
    var filled := slots[k := made];
    FillKeepsOrder(before, after, slots, k, low, ids, made, mounts);
    FillKeepsMounts(before, after, slots, k, low, ids, made, mounts);
    assert Distinct(filled) && Bounded(filled, high);
  }

  lemma FillKeepsOrder(before: seq<Event>, after: seq<Event>, slots: seq<Option<Id>>, k: nat, low: nat,
                       ids: set<Id>, made: Option<Id>, mounts: set<Id>)
    requires NoneTried(before, slots) && LogBounded(before, low) && Bounded(slots, low)
    requires k < |slots| && NoneFrom(slots, k)
    requires Continues(before, after, ids, made, mounts) && ids <= IdsOf(made)
    requires made.Some? ==> made.value.Id? && made.value.n >= low
    ensures ReverseRemovals(after, slots[k := made])
    ensures (made.Some? ==> !Tried(after, made.value)) ==> NoneTried(after, slots[k := made])
  {
    var filled := slots[k := made];
    forall j, p | 0 <= j < |after| && 0 <= p < |slots| && filled[p].Some? && after[j] == RemoveTried(filled[p].value)
      ensures p == k
    {
      assert forall i :: 0 <= i < |before| ==> before[i] == after[i] && before[i] in before;
    }
  }

  lemma FillKeepsMounts(before: seq<Event>, after: seq<Event>, slots: seq<Option<Id>>, k: nat, low: nat,
                        ids: set<Id>, made: Option<Id>, mounts: set<Id>)
    requires MountsEarlier(before, slots) && LogBounded(before, low) && Bounded(slots, low)
    requires k < |slots| && NoneFrom(slots, k)
    requires Continues(before, after, ids, made, mounts)
    requires made.Some? ==> made.value.Id? && made.value.n >= low
    requires forall d :: d in mounts ==> Some(d) in slots[..k]
    ensures MountsEarlier(after, slots[k := made])
  {
    var filled := slots[k := made];
    forall e, q, d | e in after && e.Created? && 0 <= q < |filled| && filled[q] == Some(e.id) && d in e.mounts
      ensures Some(d) in filled[..q]
    {
      var j :| 0 <= j < |after| && after[j] == e;
      if j < |before| {
        assert before[j] == e && e in before;
        assert q < k;
        assert filled[..q] == slots[..q];
      } else {
        assert q == k;
        assert filled[..q] == slots[..q];
      }
    }
  }

  /** Only containers newer than `nextId` are created or removed. */
  ghost predicate ContinuesElsewhere(before: seq<Event>, after: seq<Event>, nextId: nat) {
    && before <= after
    && forall j :: |before| <= j < |after| && (after[j].Created? || after[j].RemoveTried?) ==>
         after[j].id.Id? && after[j].id.n >= nextId
  }

  lemma ElsewhereKeepsSafe(before: seq<Event>, after: seq<Event>, slots: seq<Option<Id>>, low: nat, high: nat)
    requires Safe(before, slots, low) && NoneTried(before, slots) && low <= high
    requires ContinuesElsewhere(before, after, low)
    ensures Safe(after, slots, high) && NoneTried(after, slots)
  {
    forall j, p | 0 <= j < |after| && 0 <= p < |slots| && slots[p].Some?
      ensures after[j] != RemoveTried(slots[p].value)
    {
      assert j < |before| ==> before[j] == after[j];
    }
    forall e, q, d | e in after && e.Created? && 0 <= q < |slots| && slots[q] == Some(e.id) && d in e.mounts
      ensures Some(d) in slots[..q]
    {
      var j :| 0 <= j < |after| && after[j] == e;
      assert j < |before| && before[j] in before;
    }
  }
}

/** The run task of a build step: the containers it starts, and the order in which its cleanup removes them. */
module RunTasks {
  import opened Common
  import PortWait
  import opened ContainerLog
  import opened ContainerSites
  import opened TeardownOrder

  /** A port to wait for: before which probes the service is alive, which of them get through, and how long to try. */
  datatype Wait = Wait(alive: nat -> bool, accepts: nat -> bool, timeout: int)

  /** A configured service: the services whose volumes it mounts, and what else decides how it starts. */
  datatype Service = Service(name: string, injectAgent: bool, volumesFrom: seq<string>, provisioners: nat,
                             spawned: nat, waits: seq<Wait>)

  /** Some probe within the time gets through. */
  ghost predicate Opens(w: Wait) {
    exists k: nat :: OpensAt(w, k)
  }

  ghost predicate OpensAt(w: Wait, k: nat) {
    && w.accepts(k) && (forall j: nat :: j < k ==> !w.accepts(j)) && (forall j: nat :: j <= k ==> w.alive(j))
    && k <= if w.timeout < 0 then 0 else w.timeout + 1
  }

  ghost function CreatedIds(runners: seq<DockerRunner>): seq<Option<Id>>
    reads runners
  {
    seq(|runners|, i requires 0 <= i < |runners| reads runners => runners[i].created)
  }

  /** Every service names only services before it, and the build container only services. */
  ghost predicate VolumesDefined(configured: seq<Service>, build: Service) {
    AllNameStarted(configured) && NamesStarted(build, configured, |configured|)
  }

  ghost predicate AllNameStarted(configured: seq<Service>) {
    forall i :: 0 <= i < |configured| ==> NamesStarted(configured[i], configured, i)
  }

  ghost predicate AllOpen(configured: seq<Service>) {
    forall s, w :: s in configured && w in s.waits ==> Opens(w)
  }

  ghost predicate NamesStarted(s: Service, configured: seq<Service>, n: nat)
    requires n <= |configured|
  {
    forall v :: v in s.volumesFrom ==> exists i :: 0 <= i < n && configured[i].name == v
  }

  lemma StartedNames(s: Service, configured: seq<Service>, n: nat, links: seq<string>)
    requires n == |links| <= |configured| && forall i :: 0 <= i < n ==> links[i] == configured[i].name
    ensures NamesStarted(s, configured, n) <==> forall v :: v in s.volumesFrom ==> v in links
  {
    forall v ensures v in links <==> exists i :: 0 <= i < n && configured[i].name == v {
    }
  }

  /** Each of the first `n` services was created with the volumes it asks for and no others; the sets are those of the
      helpers with the agent and without. */
  ghost predicate AllMounted(log: seq<Event>, withAgent: set<Id>, without: set<Id>, links: seq<string>,
                             started: seq<Option<Id>>, configured: seq<Service>, n: nat)
  {
    && n <= |configured| && n <= |started|
    && forall i :: 0 <= i < n ==> Mounted(log, started[i], if configured[i].injectAgent then withAgent else without,
                                          links, started, configured[i].volumesFrom)
  }

  lemma AllMountedStay(log: seq<Event>, log': seq<Event>, withAgent: set<Id>, without: set<Id>, links: seq<string>,
                       links': seq<string>, started: seq<Option<Id>>, started': seq<Option<Id>>,
                       configured: seq<Service>, n: nat)
    requires AllMounted(log, withAgent, without, links, started, configured, n)
    requires log <= log' && links <= links' && started <= started' && |links| <= |started|
    ensures AllMounted(log', withAgent, without, links', started', configured, n)
  {
    hide Mounted;
    forall i | 0 <= i < n
      ensures Mounted(log', started'[i], if configured[i].injectAgent then withAgent else without,
                      links', started', configured[i].volumesFrom)
    {
      assert started'[i] == started[i];
      MountedStays(log, log', started[i], if configured[i].injectAgent then withAgent else without, links, links',
                   started, started', configured[i].volumesFrom);
    }
  }

  lemma NoneMounted(log: seq<Event>, withAgent: set<Id>, without: set<Id>, links: seq<string>,
                    started: seq<Option<Id>>, configured: seq<Service>)
    ensures AllMounted(log, withAgent, without, links, started, configured, 0)
  {
  }

  lemma AllMountedNext(log: seq<Event>, withAgent: set<Id>, without: set<Id>, links: seq<string>,
                       started: seq<Option<Id>>, configured: seq<Service>, n: nat)
    requires AllMounted(log, withAgent, without, links, started, configured, n)
    requires n < |configured| && n < |started|
    requires Mounted(log, started[n], if configured[n].injectAgent then withAgent else without,
                     links, started, configured[n].volumesFrom)
    ensures AllMounted(log, withAgent, without, links, started, configured, n + 1)
  {
    hide Mounted;
  }

  class RunTask {
    const proc: Process
    var source: Option<Id>
    var agent: AgentProxy?
    var daemon: DaemonProxy?
    var services: seq<DockerRunner>
    var links: seq<string>           // the names of the services that have started, in order
    var runner: DockerRunner?
    ghost var pulled: nat            // how many images have been pulled

    /** The containers of this run task in the order they are started. */
    ghost function Slots(): seq<Option<Id>>
      reads this, agent, daemon, services, runner
    {
      [source, if agent == null then None else agent.container, if daemon == null then None else daemon.container]
      + CreatedIds(services)
      + [if runner == null then None else runner.created]
    }

    /** Whose volumes every container mounts, with the agent only where it is asked for. */
    ghost function HelperIds(injectAgent: bool): set<Id>
      reads this, agent, daemon
    {
      Helpers(source, if daemon == null then None else daemon.container,
              if injectAgent && agent != null then agent.container else None)
    }

    /** The runner has run all provisioners, and knows of all containers its command spawns. */
    ghost predicate SetUp(r: DockerRunner, s: Service)
      reads r
    {
      r.provisioned == s.provisioners && r.spawned == s.spawned
    }

    ghost predicate Shape()
      reads this, proc, agent, daemon, services, runner
    {
      && proc.Valid()
      && (agent != null ==> agent.proc == proc && agent.Valid())
      && (daemon != null ==> daemon.proc == proc && daemon.Valid())
      && (forall r :: r in services ==> r.proc == proc && r.Valid())
      && NoDup(services)
      && (runner != null ==> runner.proc == proc && runner.Valid() && runner !in services)
      && |links| <= |services|
    }

    ghost predicate Valid()
      reads this, proc, agent, daemon, services, runner
    {
      Shape() && Safe(proc.log, Slots(), proc.nextId)
    }

    constructor (proc: Process)
      requires proc.Valid()
      ensures Valid() && this.proc == proc
      ensures source.None? && agent == null && daemon == null && services == [] && links == [] && runner == null
      ensures pulled == 0
    {
      this.proc, pulled := proc, 0;
      source, agent, daemon, services, links, runner := None, null, null, [], [], null;
    }

    /** This run task before it has started anything. */
    ghost predicate Idle()
      reads this
    {
      source.None? && agent == null && daemon == null && services == [] && links == [] && runner == null
    }

    /** Everything started so far is in its slot, and nothing has been removed. */
    ghost predicate Starting(k: nat)
      reads this, proc, agent, daemon, services, runner
    {
      Valid() && NoneTried(proc.log, Slots()) && NoneFrom(Slots(), k)
    }

    /** Starts the source container, the agent and daemon proxies, the services in order and the build container;
        false stands for any exception, after which only `Cleanup` runs. */
    method Run(sshKeys: Option<nat>, configured: seq<Service>, build: Service) returns (ok: bool)
      requires Valid() && Idle()
      modifies this, proc
      ensures Valid()
      ensures ok <==> VolumesDefined(configured, build) && sshKeys != Some(0) && proc.failures == old(proc.failures)
      ensures ok ==> |services| == |links| == |configured| && AllOpen(configured)
      ensures ok ==> forall i :: 0 <= i < |configured| ==> links[i] == configured[i].name
      ensures ok ==> NoneTried(proc.log, Slots()) && source.Some? && runner != null && runner.container.Some?
      ensures ok ==> daemon != null && daemon.container.Some? && (agent == null <==> sshKeys.None?)
      ensures ok && sshKeys.Some? ==> agent.container.Some? && agent.connected
      ensures ok ==> pulled == old(pulled) + |configured| + 1
      ensures ok ==> forall i :: 0 <= i < |configured| ==> SetUp(services[i], configured[i])
      ensures ok ==> SetUp(runner, build)
      ensures ok ==>
        AllMounted(proc.log, HelperIds(true), HelperIds(false), links, CreatedIds(services), configured, |configured|)
      ensures ok ==> Mounted(proc.log, runner.created, HelperIds(true), links, CreatedIds(services), build.volumesFrom)
    {
      hide Safe, NoneTried, NoDup, Mounted, AllMounted, NamesStarted, Helpers, AllOpen, SetUp;
      IdleIsStarting();
      ok := StartSource();
      if !ok {
        return;
      }
      if sshKeys.Some? {
        ok := StartAgent(sshKeys.value);
        if !ok {
          return;
        }
      }
      ok := StartDaemon();
      if !ok {
        return;
      }
      ok := StartServices(configured);
      if ok {
        ghost var log, ids := proc.log, CreatedIds(services);
        StartedNames(build, configured, |configured|, links);
        ok := StartBuild(build);
        AllMountedStay(log, proc.log, HelperIds(true), HelperIds(false), links, links, ids, CreatedIds(services),
                       configured, |configured|);
      }
    }

    method StartServices(configured: seq<Service>) returns (ok: bool)
      requires Starting(3) && services == [] && links == [] && runner == null && source.Some? && daemon != null
      modifies this`services, this`links, this`pulled, proc
      ensures Valid() && (forall r :: r in services ==> fresh(r)) && proc.failures >= old(proc.failures)
      ensures ok ==> pulled == old(pulled) + |configured|
      ensures ok ==> |services| == |configured|
      ensures ok ==> forall i :: 0 <= i < |configured| ==> SetUp(services[i], configured[i])
      ensures ok <==> (proc.failures == old(proc.failures) && AllNameStarted(configured))
      ensures ok ==> Starting(3 + |services|) && |services| == |links| == |configured|
      ensures ok ==> forall i :: 0 <= i < |configured| ==> links[i] == configured[i].name
      ensures ok ==>
        AllMounted(proc.log, HelperIds(true), HelperIds(false), links, CreatedIds(services), configured, |configured|)
      ensures ok ==> forall r :: r in services ==> r.container.Some?
      ensures ok ==> AllOpen(configured)
    {
      hide Safe, NoneTried, NoneFrom, NoDup, Tried, Mounted, AllMounted, NamesStarted, Helpers, Opens, SetUp;
      var i := 0;
      NoneMounted(proc.log, HelperIds(true), HelperIds(false), links, CreatedIds(services), configured);
      while i < |configured|
        invariant 0 <= i <= |configured| && |services| == |links| == i && proc.failures == old(proc.failures)
        invariant pulled == old(pulled) + i && forall j :: 0 <= j < i ==> SetUp(services[j], configured[j])
        invariant forall j :: 0 <= j < i ==> NamesStarted(configured[j], configured, j)
        invariant Starting(3 + |services|) && forall r :: r in services ==> fresh(r) && r.container.Some?
        invariant forall j :: 0 <= j < i ==> links[j] == configured[j].name
        invariant forall j, w :: 0 <= j < i && w in configured[j].waits ==> Opens(w)
        invariant AllMounted(proc.log, HelperIds(true), HelperIds(false), links, CreatedIds(services), configured, i)
      {
        ghost var log, names, ids, before := proc.log, links, CreatedIds(services), services;
        StartedNames(configured[i], configured, i, links);
        ok := StartService(configured[i]);
        if !ok {
          return;
        }
        AllMountedStay(log, proc.log, HelperIds(true), HelperIds(false), names, links, ids, CreatedIds(services),
                       configured, i);
        AllMountedNext(proc.log, HelperIds(true), HelperIds(false), links, CreatedIds(services), configured, i);
        i := i + 1;
      }
      ok := true;
    }

    lemma IdleIsStarting()
      requires Valid() && Idle()
      ensures Starting(0)
    {
    }

    method StartSource() returns (ok: bool)
      requires Starting(0) && Idle()
      modifies this`source, proc
      ensures Valid() && (ok ==> source.Some? && Starting(1))
      ensures proc.failures >= old(proc.failures) && (ok <==> proc.failures == old(proc.failures))
    {
      hide Safe, Tried, Continues;
      ghost var slots, before, low := Slots(), proc.log, proc.nextId;
      source, ok := proc.Launch({});
      assert Slots() == slots[0 := source];
      FillKeepsSafe(before, proc.log, slots, 0, low, proc.nextId, {}, source, {});
    }

    method StartAgent(keys: nat) returns (ok: bool)
      requires Starting(1) && source.Some? && agent == null && daemon == null
      requires services == [] && links == [] && runner == null
      modifies this`agent, proc
      ensures Valid() && agent != null && fresh(agent)
      ensures ok ==> Starting(2) && agent.container.Some? && agent.connected
      ensures proc.failures >= old(proc.failures) && (ok <==> keys > 0 && proc.failures == old(proc.failures))
    {
      hide Safe, Tried, Continues;
      ghost var slots, before, low := Slots(), proc.log, proc.nextId;
      agent := new AgentProxy(proc);
      ok := agent.Start(keys);
      assert Slots() == slots[1 := agent.container];
      FillKeepsSafe(before, proc.log, slots, 1, low, proc.nextId, {}, agent.container, {});
    }

    method StartDaemon() returns (ok: bool)
      requires Starting(2) && source.Some? && daemon == null && services == [] && links == [] && runner == null
      modifies this`daemon, proc
      ensures Valid() && daemon != null && fresh(daemon) && (ok ==> Starting(3) && daemon.container.Some?)
      ensures proc.failures >= old(proc.failures) && (ok <==> proc.failures == old(proc.failures))
    {
      hide Safe, Tried, Continues;
      ghost var slots, before, low := Slots(), proc.log, proc.nextId;
      daemon := new DaemonProxy(proc);
      ok := daemon.Start();
      assert Slots() == slots[2 := daemon.container];
      FillKeepsSafe(before, proc.log, slots, 2, low, proc.nextId, {}, daemon.container, {});
    }

    /** The containers behind the named services; None when one of them is not a service that has started. */
    method ProcessVolumesFrom(volumesFrom: seq<string>) returns (ids: Option<set<Id>>)
      requires Shape() && |links| == |services|
      requires forall r :: r in services ==> r.container.Some?
      ensures ids.Some? <==> forall v :: v in volumesFrom ==> v in links
      ensures ids.Some? ==> forall d :: d in ids.value ==> Some(d) in CreatedIds(services)
      ensures ids.Some? ==> forall d :: d in ids.value <==> Provides(links, CreatedIds(services), volumesFrom, d)
    {
      hide Provides;
      var found: set<Id> := {};
      var i := 0;
      NothingProvided(volumesFrom);
      while i < |volumesFrom|
        invariant 0 <= i <= |volumesFrom|
        invariant forall v :: v in volumesFrom[..i] ==> v in links
        invariant forall d :: d in found ==> Some(d) in CreatedIds(services)
        invariant forall d :: d in found <==> Provides(links, CreatedIds(services), volumesFrom[..i], d)
      {
        if volumesFrom[i] !in links {
          return None;
        }
        var k := 0;
        while links[k] != volumesFrom[i]
          invariant 0 <= k < |links| && volumesFrom[i] in links[k..] && volumesFrom[i] !in links[..k]
          decreases |links| - k
        {
          assert links[..k + 1] == links[..k] + [links[k]];
          k := k + 1;
        }
        assert services[k] in services;
        assert CreatedIds(services)[k] == services[k].container;
        forall d ensures Provides(links, CreatedIds(services), volumesFrom[..i + 1], d) <==>
          d in found + {services[k].container.value}
        {
          ProvidedNext(links, CreatedIds(services), volumesFrom, i, k, d);
        }
        found := found + {services[k].container.value};
        assert volumesFrom[..i + 1] == volumesFrom[..i] + [volumesFrom[i]];
        i := i + 1;
      }
      assert volumesFrom[..i] == volumesFrom;
      ids := Some(found);
    }

    lemma NothingProvided(volumesFrom: seq<string>)
      ensures forall d :: !Provides(links, CreatedIds(services), volumesFrom[..0], d)
    {
    }

    /** The containers whose volumes are mounted: the source, the named services, the agent if asked for, the daemon. */
    method CollectMounts(volumesFrom: seq<string>, injectAgent: bool) returns (mounts: Option<set<Id>>)
      requires Shape() && |links| == |services| && source.Some? && daemon != null
      requires forall r :: r in services ==> r.container.Some?
      ensures mounts.Some? <==> forall v :: v in volumesFrom ==> v in links
      ensures mounts.Some? ==> forall d :: d in mounts.value ==> Some(d) in Slots()[..3 + |services|]
      ensures mounts.Some? ==> forall d :: d in mounts.value <==>
        d in HelperIds(injectAgent) || Provides(links, CreatedIds(services), volumesFrom, d)
    {
      var volumes := ProcessVolumesFrom(volumesFrom);
      if volumes.None? {
        return None;
      }
      var all := {source.value} + volumes.value;
      if injectAgent && agent != null && agent.container.Some? {
        all := all + {agent.container.value};
      }
      if daemon.container.Some? {
        all := all + {daemon.container.value};
      }
      ghost var started := Slots()[..3 + |services|];
      assert started[0] == source && started[2] == daemon.container;
      assert agent != null ==> started[1] == agent.container;
      assert started[3..] == CreatedIds(services);
      mounts := Some(all);
    }

    /** Starts one service, waits for its ports, and makes its volumes available to later ones. */
    method StartService(service: Service) returns (ok: bool)
      requires Starting(3 + |services|) && |links| == |services| && runner == null
      requires source.Some? && daemon != null && forall r :: r in services ==> r.container.Some?
      modifies this`services, this`links, this`pulled, proc
      ensures Valid() && old(proc.log) <= proc.log && proc.failures >= old(proc.failures)
      ensures ok ==> pulled == old(pulled) + 1
      ensures ok ==> services != [] && SetUp(services[|services| - 1], service)
      ensures ok <==> proc.failures == old(proc.failures) && forall v :: v in service.volumesFrom ==> v in old(links)
      ensures old(services) <= services && forall r :: r in services ==> r in old(services) || fresh(r)
      ensures ok ==> Starting(3 + |services|) && links == old(links) + [service.name] && |links| == |services|
      ensures ok ==> forall r :: r in services ==> r.container.Some?
      ensures ok ==> CreatedIds(old(services)) <= CreatedIds(services) && |services| == |old(services)| + 1
      ensures ok ==> Mounted(proc.log, CreatedIds(services)[|services| - 1], HelperIds(service.injectAgent), links,
                             CreatedIds(services), service.volumesFrom)
      ensures ok ==> forall w :: w in service.waits ==> Opens(w)
    {
      hide Safe, Tried, Continues, NoneTried, NoneFrom, NoDup, Mounted, Helpers, Opens, SetUp;
      ok := BringUp(service);
      if ok {
        ghost var ids, launched := CreatedIds(services), proc.log;
        ok := AwaitPorts(service.waits);
        MountedStays(launched, proc.log, ids[|services| - 1], HelperIds(service.injectAgent), links, links, ids, ids,
                     service.volumesFrom);
      }
    }

    /** Everything but the waiting. */
    method BringUp(service: Service) returns (ok: bool)
      requires Starting(3 + |services|) && |links| == |services| && runner == null
      requires source.Some? && daemon != null && forall r :: r in services ==> r.container.Some?
      modifies this`services, this`links, this`pulled, proc
      ensures Valid() && old(proc.log) <= proc.log && proc.failures >= old(proc.failures)
      ensures ok ==> pulled == old(pulled) + 1
      ensures ok ==> services != [] && SetUp(services[|services| - 1], service)
      ensures ok <==> proc.failures == old(proc.failures) && forall v :: v in service.volumesFrom ==> v in old(links)
      ensures old(services) <= services && forall r :: r in services ==> r in old(services) || fresh(r)
      ensures ok ==> Starting(3 + |services|) && links == old(links) + [service.name] && |links| == |services|
      ensures ok ==> forall r :: r in services ==> r.container.Some?
      ensures ok ==> CreatedIds(old(services)) <= CreatedIds(services) && |services| == |old(services)| + 1
      ensures ok ==> Mounted(proc.log, CreatedIds(services)[|services| - 1], HelperIds(service.injectAgent), links,
                             CreatedIds(services), service.volumesFrom)
    {
      hide Safe, Tried, Continues, NoneTried, NoneFrom, Provides, NoDup, Mounted, Helpers;
      ghost var started := CreatedIds(services);
      var mounts := Prepare(service.volumesFrom, service.injectAgent);
      if mounts.None? {
        return false;
      }
      ok := LaunchService(service, mounts.value);
      if ok {
        ghost var ids := CreatedIds(services);
        LaunchedMounted(proc.log, ids[|services| - 1], HelperIds(service.injectAgent), old(links), links, started, ids,
                        service.volumesFrom, mounts.value);
      }
    }

    /** Collects the volumes and pulls the image, before the container is created. */
    method Prepare(volumesFrom: seq<string>, injectAgent: bool) returns (mounts: Option<set<Id>>)
      requires Starting(3 + |services|) && |links| == |services| && source.Some? && daemon != null
      requires forall r :: r in services ==> r.container.Some?
      modifies this`pulled, proc`failures
      ensures Starting(3 + |services|) && proc.failures >= old(proc.failures)
      ensures mounts.Some? ==> pulled == old(pulled) + 1
      ensures mounts.Some? <==> proc.failures == old(proc.failures) && forall v :: v in volumesFrom ==> v in links
      ensures mounts.Some? ==> forall d :: d in mounts.value ==> Some(d) in Slots()[..3 + |services|]
      ensures mounts.Some? ==> forall d :: d in mounts.value <==>
        d in HelperIds(injectAgent) || Provides(links, CreatedIds(services), volumesFrom, d)
    {
      hide Safe, NoneTried, NoneFrom, Tried, Disciplined, Provides, Helpers;
      mounts := CollectMounts(volumesFrom, injectAgent);
      if mounts.Some? {
        var available := Pull();
        if !available {
          mounts := None;
        }
      }
    }

    /** Makes sure that the image is there. */
    method Pull() returns (available: bool)
      requires Shape()
      modifies this`pulled, proc`failures
      ensures Shape() && pulled == old(pulled) + if available then 1 else 0
      ensures Slots() == old(Slots()) && proc.failures == old(proc.failures) + if available then 0 else 1
    {
      hide Disciplined, Untried, Tried, NoDup;
      available := proc.Ask();
      if available {
        pulled := pulled + 1;
      }
    }

    method LaunchService(service: Service, mounts: set<Id>) returns (ok: bool)
      requires Starting(3 + |services|) && |links| == |services| && runner == null
      requires forall r :: r in services ==> r.container.Some?
      requires forall d :: d in mounts ==> Some(d) in Slots()[..3 + |services|]
      modifies this`services, this`links, proc
      ensures Valid() && |services| == |old(services)| + 1
      ensures services[..|services| - 1] == old(services) && fresh(services[|services| - 1])
      ensures ok ==> SetUp(services[|services| - 1], service)
      ensures ok ==> Starting(3 + |services|) && links == old(links) + [service.name]
      ensures ok ==> forall r :: r in services ==> r.container.Some?
      ensures ok ==> CreatedIds(old(services)) <= CreatedIds(services)
      ensures ok ==> CreatedIds(services)[|services| - 1].Some?
      ensures ok ==> Created(CreatedIds(services)[|services| - 1].value, mounts) in proc.log
      ensures old(proc.log) <= proc.log && proc.failures >= old(proc.failures)
      ensures ok <==> proc.failures == old(proc.failures)
    {
      hide Safe, Tried, Continues, NoneTried, NoneFrom;
      ghost var k := 3 + |services|;
      ghost var slots := Slots();
      AddService(service.spawned);
      assert Slots()[..k] == slots[..k];
      var r := services[|services| - 1];
      ok := Launch(r, k, mounts, service.provisioners);
      if ok {
        links := links + [service.name];
        assert forall x :: x in services ==> x == r || x in old(services);
      }
    }

    /** Waits for the ports of the service just started, one after the other. */
    method AwaitPorts(waits: seq<Wait>) returns (ok: bool)
      requires Starting(3 + |services|)
      modifies proc
      ensures Starting(3 + |services|) && old(proc.log) <= proc.log
      ensures proc.failures >= old(proc.failures) && (ok <==> proc.failures == old(proc.failures))
      ensures ok ==> forall w :: w in waits ==> Opens(w)
    {
      hide Safe, NoneTried, Tried, Opens;
      var i := 0;
      while i < |waits|
        invariant 0 <= i <= |waits| && forall j :: 0 <= j < i ==> Opens(waits[j])
        invariant Starting(3 + |services|) && old(proc.log) <= proc.log && proc.failures == old(proc.failures)
      {
        var probes: nat;
        ok, probes := AwaitPort(waits[i]);
        if !ok {
          return;
        }
        i := i + 1;
      }
      ok := true;
    }

    /** A wait that runs out of time, or whose service has died, counts as a failure too. */
    method AwaitPort(w: Wait) returns (ok: bool, probes: nat)
      requires Starting(3 + |services|)
      modifies proc
      ensures Starting(3 + |services|) && old(proc.log) <= proc.log
      ensures probes <= if w.timeout < 0 then 1 else w.timeout + 2
      ensures proc.failures >= old(proc.failures) && (ok <==> proc.failures == old(proc.failures))
      ensures ok ==> Opens(w)
    {
      hide Safe, NoneTried, Tried;
      ghost var before, low := proc.log, proc.nextId;
      var result: PortWait.Waited;
      result, probes := PortWait.WaitForPort(proc, w.alive, w.accepts, w.timeout);
      ok := result.PortOpen?;
      if ok {
        assert OpensAt(w, probes - 1);
      }
      if result.TimedOut? || result.Died? {
        proc.failures := proc.failures + 1;
      }
      ElsewhereKeepsSafe(before, proc.log, Slots(), low, proc.nextId);
      forall x | x in services {
        StillValid(x);
      }
      if runner != null {
        StillValid(runner);
      }
    }

    /** The runner joins the services before its container is started. */
    method AddService(spawned: nat)
      requires Starting(3 + |services|) && runner == null
      modifies this`services
      ensures Starting(3 + |old(services)|) && Slots() == old(Slots()) + [None]
      ensures |services| == |old(services)| + 1 && services[..|services| - 1] == old(services)
      ensures fresh(services[|services| - 1]) && services[|services| - 1].created.None?
      ensures services[|services| - 1].spawned == spawned
    {
      hide Safe, Tried, Continues;
      ghost var slots := Slots();
      var r := new DockerRunner(proc, spawned);
      services := services + [r];
      assert CreatedIds(services) == CreatedIds(old(services)) + [None];
      assert Slots() == slots + [None];
      PadKeepsSafe(proc.log, slots, proc.nextId);
      assert services[..|services| - 1] == old(services);
    }

    /** Starts the container of the runner behind slot `k`, the first one still empty. */
    method Launch(r: DockerRunner, ghost k: nat, mounts: set<Id>, provisioners: nat) returns (ok: bool)
      requires Starting(k) && (r in services || r == runner) && k < |Slots()|
      requires r.created.None?
      requires SlotOf(r, k)
      requires forall d :: d in mounts ==> Some(d) in Slots()[..k]
      modifies r, proc
      ensures Valid() && (ok ==> Starting(k + 1) && r.container.Some? && r.container == r.created)
      ensures ok ==> r.provisioned == provisioners
      ensures ok ==> Created(r.created.value, mounts) in proc.log
      ensures old(proc.log) <= proc.log && proc.failures >= old(proc.failures)
      ensures ok <==> proc.failures == old(proc.failures)
    {
      hide Safe, Tried, Continues, NoneTried;
      hide DockerRunner.Launched, DockerRunner.LaunchedAndDiscarded, DockerRunner.Discarded;
      ghost var slots, before, low := Slots(), proc.log, proc.nextId;
      ok := r.Start(mounts, provisioners);
      if r.created.None? {
        ContinuesSame(before, {}, None, mounts);
      } else {
        assert Created(r.created.value, mounts) in proc.log;
      }
      assert Slots() == slots[k := r.created];
      forall x | x in services && x != r {
        StillValid(x);
      }
      if runner != null && runner != r {
        StillValid(runner);
      }
      FillKeepsSafe(before, proc.log, slots, k, low, proc.nextId, IdsOf(r.created), r.created, mounts);
    }

    /** `r` is the runner whose container fills slot `k`. */
    ghost predicate SlotOf(r: DockerRunner, k: nat)
      reads this
    {
      if k < 3 + |services| then 3 <= k && services[k - 3] == r else k == 3 + |services| && runner == r
    }

    method StartBuild(build: Service) returns (ok: bool)
      requires Starting(3 + |services|) && |links| == |services| && runner == null
      requires source.Some? && daemon != null && forall r :: r in services ==> r.container.Some?
      modifies this`runner, this`pulled, proc
      ensures Valid() && (runner != null ==> fresh(runner))
      ensures ok ==> pulled == old(pulled) + 1 && runner != null && SetUp(runner, build)
      ensures ok ==> NoneTried(proc.log, Slots()) && runner != null && runner.container.Some?
      ensures ok ==> Mounted(proc.log, runner.created, HelperIds(true), links, CreatedIds(services), build.volumesFrom)
      ensures old(proc.log) <= proc.log && proc.failures >= old(proc.failures)
      ensures ok <==> proc.failures == old(proc.failures) && forall v :: v in build.volumesFrom ==> v in links
    {
      hide Safe, Tried, Continues, NoneFrom, NoneTried, Provides, Mounted, Helpers;
      var mounts := Prepare(build.volumesFrom, true);
      if mounts.None? {
        return false;
      }
      ghost var k := 3 + |services|;
      ghost var slots := Slots();
      runner := new DockerRunner(proc, build.spawned);
      assert Slots() == slots;
      ok := Launch(runner, k, mounts.value, build.provisioners);
      if ok {
        ghost var ids := CreatedIds(services);
        LaunchedMounted(proc.log, runner.created, HelperIds(true), links, links, ids, ids, build.volumesFrom,
                        mounts.value);
      }
    }

    /** Tears the run task down in the reverse order of its start; false stands for an exception that stops it. */
    method Cleanup() returns (ok: bool)
      requires Valid()
      modifies proc, services, runner
      ensures Valid() && Slots() == old(Slots()) && proc.failures >= old(proc.failures)
      ensures ok ==> TriedFrom(proc.log, Slots(), 0)
      ensures ok ==> (forall r :: r in services ==> r.container.None?) && (runner != null ==> runner.container.None?)
      ensures !ok ==> proc.failures > old(proc.failures) || (daemon != null && daemon.container.None?)
      ensures daemon != null && daemon.container.None? ==> !ok
      ensures daemon != null && daemon.container.None? && services == [] && runner == null ==>
        proc.log == old(proc.log) && proc.failures == old(proc.failures)
    {
      hide Safe, Continues, Tried, DockerRunner.Launched, DockerRunner.LaunchedAndDiscarded, DockerRunner.Discarded;
      ghost var slots := Slots();
      ghost var n := |services|;
      if runner != null {
        ok := CleanupRunner(runner, n + 3);
        if !ok {
          return;
        }
      }
      assert TriedFrom(proc.log, slots, n + 3);
      var i := |services|;
      while i > 0
        invariant 0 <= i <= |services| && Valid() && Slots() == slots && proc.failures >= old(proc.failures)
        invariant TriedFrom(proc.log, slots, i + 3)
        invariant forall k :: i <= k < |services| ==> services[k].container.None?
        invariant runner != null ==> runner.container.None?
        invariant services == [] && runner == null ==> proc.log == old(proc.log) && proc.failures == old(proc.failures)
      {
        i := i - 1;
        ok := CleanupRunner(services[i], i + 3);
        if !ok {
          return;
        }
      }
      ok := CleanupHelpers();
    }

    /** Cleans up the runner behind one slot, the later slots being dealt with. */
    method CleanupRunner(r: DockerRunner, ghost q: nat) returns (ok: bool)
      requires Valid() && (r in services || r == runner)
      requires q < |Slots()| && Slots()[q] == r.created && TriedFrom(proc.log, Slots(), q + 1)
      modifies proc, r
      ensures Valid() && Slots() == old(Slots()) && TriedFrom(proc.log, Slots(), q + 1)
      ensures ok ==> TriedFrom(proc.log, Slots(), q) && r.container.None?
      ensures proc.failures >= old(proc.failures) && (ok <==> proc.failures == old(proc.failures))
    {
      hide Safe, Tried, DockerRunner.Launched, DockerRunner.LaunchedAndDiscarded, DockerRunner.Discarded;
      ghost var slots := Slots();
      ghost var before := proc.log;
      ok := r.Cleanup();
      assert Slots() == slots;
      assert Continues(before, proc.log, IdsOf(old(r.container)), None, {});
      forall x | x in services && x != r {
        StillValid(x);
      }
      if runner != null && runner != r {
        StillValid(runner);
      }
      CleanupStep(before, proc.log, slots, q, proc.nextId, IdsOf(old(r.container)));
    }

    /** The daemon and agent proxies and the source container; a daemon proxy without a container raises. */
    method CleanupHelpers() returns (ok: bool)
      requires Valid() && TriedFrom(proc.log, Slots(), 3)
      modifies proc
      ensures Valid() && Slots() == old(Slots())
      ensures ok ==> TriedFrom(proc.log, Slots(), 0)
      ensures proc.failures >= old(proc.failures) && (ok <==> daemon == null || daemon.container.Some?)
      ensures !ok ==> proc.log == old(proc.log) && proc.failures == old(proc.failures)
    {
      hide Safe, Tried;
      if daemon != null {
        ok := StopDaemon();
        if !ok {
          return;
        }
      }
      if agent != null {
        StopAgent();
      }
      if source.Some? {
        DiscardSource();
      }
      ok := true;
    }

    method StopDaemon() returns (ok: bool)
      requires Valid() && TriedFrom(proc.log, Slots(), 3) && daemon != null
      modifies proc
      ensures Valid() && Slots() == old(Slots())
      ensures proc.failures >= old(proc.failures) && (ok <==> daemon.container.Some?)
      ensures !ok ==> proc.log == old(proc.log) && proc.failures == old(proc.failures)
      ensures ok ==> TriedFrom(proc.log, Slots(), 2)
    {
      hide Safe, Tried;
      ghost var before := proc.log;
      ok := daemon.Stop();
      assert Continues(before, proc.log, IdsOf(daemon.container), None, {});
      forall x | x in services {
        StillValid(x);
      }
      if runner != null {
        StillValid(runner);
      }
      CleanupStep(before, proc.log, Slots(), 2, proc.nextId, IdsOf(daemon.container));
    }

    method StopAgent()
      requires Valid() && TriedFrom(proc.log, Slots(), 2) && agent != null
      modifies proc
      ensures Valid() && Slots() == old(Slots()) && proc.failures >= old(proc.failures)
      ensures TriedFrom(proc.log, Slots(), 1)
    {
      hide Safe, Tried;
      ghost var before := proc.log;
      agent.Stop();
      assert Continues(before, proc.log, IdsOf(agent.container), None, {});
      forall x | x in services {
        StillValid(x);
      }
      if runner != null {
        StillValid(runner);
      }
      CleanupStep(before, proc.log, Slots(), 1, proc.nextId, IdsOf(agent.container));
    }

    method DiscardSource()
      requires Valid() && TriedFrom(proc.log, Slots(), 1) && source.Some?
      modifies proc
      ensures Valid() && Slots() == old(Slots()) && proc.failures >= old(proc.failures)
      ensures TriedFrom(proc.log, Slots(), 0)
    {
      hide Safe, Tried, Continues;
      ghost var before := proc.log;
      KnownSlot(0);
      RemovalShape(before, source.value, None, {});
      var _ := proc.Discard(source.value);
      assert IdsOf(source) == {source.value};
      forall x | x in services {
        StillValid(x);
      }
      if runner != null {
        StillValid(runner);
      }
      CleanupStep(before, proc.log, Slots(), 0, proc.nextId, IdsOf(source));
    }

    lemma KnownSlot(q: nat)
      requires Valid() && q < |Slots()|
      ensures Known(proc.nextId, Slots()[q])
    {
    }
  }

  method SourceStarted() returns (proc: Process)
    ensures fresh(proc) && proc.Valid() && proc.nextId == 1 && proc.failures == 0
    ensures proc.log == [Created(Id(0), {})] + [Registered(Id(0))]
  {
    hide Untried, Tried;
    proc := new Process();
    proc.nextId := 1;
    proc.Note(Created(Id(0), {}));
    UntriedSource();
    proc.Register(Id(0));
  }

  /** A run task whose source container was started, but whose daemon container could not be created. */
  method StuckTask() returns (t: RunTask)
    ensures fresh(t) && fresh(t.proc) && t.Valid() && t.services == [] && t.runner == null
    ensures t.daemon != null && t.daemon.container.None? && fresh(t.daemon) && t.agent == null
    ensures t.proc.failures == 0 && t.proc.log == [Created(Id(0), {})] + [Registered(Id(0))]
  {
    hide Safe, Untried, Tried, Disciplined, Registry;
    var proc := SourceStarted();
    var daemon := new DaemonProxy(proc);
    t := new RunTask(proc);
    t.source, t.daemon := Some(Id(0)), daemon;
    SafeSource();
    assert t.Slots() == [Some(Id(0)), None, None] + [] + [None];
  }

  /** Its teardown ends at the daemon proxy, although nothing fails in it, and removing the source container, which is
      registered, is not even tried. */
  method DaemonEndsTeardown() returns (ok: bool, ghost failures: nat, ghost log: seq<Event>)
    ensures !ok && failures == 0 && log == [Created(Id(0), {})] + [Registered(Id(0))]
  {
    var stuck := StuckTask();
    ok := stuck.Cleanup();
    failures, log := stuck.proc.failures, stuck.proc.log;
  }

  lemma UntriedSource()
    ensures Untried([] + [Created(Id(0), {})]) && !Tried([] + [Created(Id(0), {})], Id(0))
  {
    assert ([] + [Created(Id(0), {})])[..0] == [];
  }

  lemma SafeSource()
    ensures Safe([Created(Id(0), {})] + [Registered(Id(0))], [Some(Id(0)), None, None] + [] + [None], 1)
  {
  }

  /** A runner that was left alone is still consistent with the longer log. */
  twostate lemma StillValid(r: DockerRunner)
    requires old(r.Valid()) && unchanged(r) && r.proc.Valid()
    requires old(r.proc.log) <= r.proc.log && old(r.proc.nextId) <= r.proc.nextId
    ensures r.Valid()
  {
    if r.container.None? && r.created.Some? {
      TriedStays(old(r.proc.log), r.proc.log, r.created.value);
    }
  }
}
