/** Building one image per platform: threads put their digests on a queue, which is drained into the image info. */
module FanOut {
  import opened Common
  import opened ImageInfo

  /** What one try at building a platform comes to. */
  datatype Attempt =
    | DockerError            // retried
    | OtherError             // ends the thread, or the sequential build
    | Digest(digest: string)

  const TRIES: nat := 5

  /** The outcome of the `k`-th try for the `i`-th platform. */
  type World = (nat, nat) -> Attempt

  /** What the `i`-th build puts on the queue in the end, if anything, from its `k`-th try on. */
  function OutcomeFrom(world: World, i: nat, k: nat): Option<string>
    requires k <= TRIES
    decreases TRIES - k
  {
    if k == TRIES then None
    else match world(i, k)
      case DockerError => OutcomeFrom(world, i, k + 1)
      case OtherError => None
      case Digest(digest) => Some(digest)
  }

  function Outcome(world: World, i: nat): Option<string> {
    OutcomeFrom(world, i, 0)
  }

  /** A build ends with the digest of the first try that is not a Docker error, among the first five. */
  ghost predicate EndsWith(world: World, i: nat, k: nat, n: nat, digest: string) {
    k <= n < 5 && world(i, n) == Digest(digest) && forall j: nat :: k <= j < n ==> world(i, j) == DockerError
  }

  lemma {:induction false} OutcomeFromMeaning(world: World, i: nat, k: nat, digest: string)
    requires k <= 5
    ensures OutcomeFrom(world, i, k) == Some(digest) <==> exists n: nat :: EndsWith(world, i, k, n, digest)
    decreases 5 - k
  {
    if k < 5 && world(i, k) == DockerError {
      var next := k + 1;
      OutcomeFromMeaning(world, i, next, digest);
      if n: nat :| EndsWith(world, i, k, n, digest) {
        assert EndsWith(world, i, next, n, digest);
      }
      if n: nat :| EndsWith(world, i, next, n, digest) {
        assert EndsWith(world, i, k, n, digest);
      }
    } else if k < 5 && world(i, k).Digest? {
      assert EndsWith(world, i, k, k, world(i, k).digest);
    }
  }

  lemma OutcomeMeaning(world: World, i: nat, digest: string)
    ensures Outcome(world, i) == Some(digest) <==> exists n: nat :: EndsWith(world, i, 0, n, digest)
  {
    OutcomeFromMeaning(world, i, 0, digest);
  }

  function Dashed(platform: string): (dashed: string)
    ensures |dashed| == |platform|
    ensures forall i :: 0 <= i < |platform| ==> dashed[i] == if platform[i] == '/' then '-' else platform[i]
  {
    seq(|platform|, i requires 0 <= i < |platform| => if platform[i] == '/' then '-' else platform[i])
  }

  datatype Job = Job(repo: string, id: string, platforms: seq<string>) {
    function Tag(i: nat): string
      requires i < |platforms|
    {
      id + "-" + Dashed(platforms[i])
    }

    function Ref(i: nat): string
      requires i < |platforms|
    {
      repo + ":" + Tag(i)
    }

    function Image(i: nat, digest: string): BuiltImage
      requires i < |platforms|
    {
      BuiltImage(repo, Tag(i), digest, platforms[i])
    }
  }

  lemma SameRefSameDashes(job: Job, i: nat, j: nat)
    requires i < |job.platforms| && j < |job.platforms|
    ensures job.Ref(i) == job.Ref(j) <==> Dashed(job.platforms[i]) == Dashed(job.platforms[j])
  {
    var prefix := job.repo + ":" + job.id + "-";
    assert job.Ref(i) == prefix + Dashed(job.platforms[i]);
    assert job.Ref(j) == prefix + Dashed(job.platforms[j]);
    assert job.Ref(i)[|prefix|..] == Dashed(job.platforms[i]);
    assert job.Ref(j)[|prefix|..] == Dashed(job.platforms[j]);
  }

  ghost predicate TagsDistinct(job: Job) {
    forall i, j :: 0 <= i < j < |job.platforms| ==> job.Ref(i) != job.Ref(j)
  }

  ghost predicate AllBuilt(job: Job, world: World) {
    forall i :: 0 <= i < |job.platforms| ==> Outcome(world, i).Some?
  }

  /** Of the builds that share the reference of the `i`-th, the `k`-th is the only one to put a digest. */
  ghost predicate OnlyPut(job: Job, world: World, i: nat, k: nat)
    requires i < |job.platforms|
  {
    && k < |job.platforms| && job.Ref(k) == job.Ref(i) && Outcome(world, k).Some?
    && forall j :: 0 <= j < |job.platforms| && job.Ref(j) == job.Ref(i) && Outcome(world, j).Some? ==> j == k
  }

  ghost predicate PutOnce(job: Job, world: World, i: nat) {
    i < |job.platforms| && exists k: nat :: OnlyPut(job, world, i, k)
  }

  ghost predicate EachRefPutOnce(job: Job, world: World) {
    forall i: nat :: i < |job.platforms| ==> PutOnce(job, world, i)
  }

  /** With distinct tags, one digest per reference means that every platform was built. */
  lemma PutOnceIsAllBuilt(job: Job, world: World)
    requires TagsDistinct(job)
    ensures EachRefPutOnce(job, world) <==> AllBuilt(job, world)
  {
    forall i: nat | i < |job.platforms|
      ensures PutOnce(job, world, i) <==> Outcome(world, i).Some?
    {
      if PutOnce(job, world, i) {
        var k: nat :| OnlyPut(job, world, i, k);
      }
      if Outcome(world, i).Some? {
        assert OnlyPut(job, world, i, i);
      }
    }
  }

  /** In every outcome, the build is reported as it went. */
  ghost predicate ReportsFailures(job: Job) {
    forall world: World :: EachRefPutOnce(job, world) <==> AllBuilt(job, world)
  }

  ghost predicate DashesDistinct(platforms: seq<string>) {
    forall i, j :: 0 <= i < j < |platforms| ==> Dashed(platforms[i]) != Dashed(platforms[j])
  }

  function FirstWith(job: Job, i: nat, k: nat): (first: nat)
    requires k <= i < |job.platforms|
    ensures k <= first <= i && job.Ref(first) == job.Ref(i)
    ensures forall j :: k <= j < first ==> job.Ref(j) != job.Ref(i)
    decreases i - k
  {
    if job.Ref(k) == job.Ref(i) then k else FirstWith(job, i, k + 1)
  }

  /** Only the first platform of each reference can be built. */
  function FirstOnly(job: Job): World {
    (i: nat, k: nat) => if i < |job.platforms| && FirstWith(job, i, 0) == i then Digest("sha256:0") else OtherError
  }

  lemma FirstOnlyOutcome(job: Job, i: nat)
    requires i < |job.platforms|
    ensures Outcome(FirstOnly(job), i).Some? <==> FirstWith(job, i, 0) == i
  {
    hide Job.Ref;
    assert FirstOnly(job)(i, 0).Digest? <==> FirstWith(job, i, 0) == i;
  }

  lemma FirstOnlyIsPutOnce(job: Job)
    ensures EachRefPutOnce(job, FirstOnly(job))
  {
    hide Job.Ref, Outcome, FirstOnly, FirstWith;
    forall i: nat | i < |job.platforms| ensures PutOnce(job, FirstOnly(job), i) {
      var k := FirstWith(job, i, 0);
      FirstOnlyOutcome(job, k);
      SameFirst(job, k, i);
      forall j | 0 <= j < |job.platforms| && job.Ref(j) == job.Ref(i) && Outcome(FirstOnly(job), j).Some?
        ensures j == k
      {
        FirstOnlyOutcome(job, j);
        SameFirst(job, j, i);
      }
      assert OnlyPut(job, FirstOnly(job), i, k);
    }
  }

  lemma SameFirst(job: Job, i: nat, j: nat)
    requires i < |job.platforms| && j < |job.platforms| && job.Ref(i) == job.Ref(j)
    ensures FirstWith(job, i, 0) == FirstWith(job, j, 0)
  {
    hide Job.Ref;
  }

  /** Failures are always reported exactly when no two platforms coincide once slashes become dashes. */
  lemma FailuresReportedExactlyWhen(job: Job)
    ensures ReportsFailures(job) <==> DashesDistinct(job.platforms)
  {
    hide Job.Ref, Dashed, Outcome, FirstOnly, EachRefPutOnce;
    if DashesDistinct(job.platforms) {
      forall i, j | 0 <= i < j < |job.platforms| ensures job.Ref(i) != job.Ref(j) {
        SameRefSameDashes(job, i, j);
      }
      forall world: World ensures EachRefPutOnce(job, world) <==> AllBuilt(job, world) {
        PutOnceIsAllBuilt(job, world);
      }
    } else {
      var i, j :| 0 <= i < j < |job.platforms| && Dashed(job.platforms[i]) == Dashed(job.platforms[j]);
      SameRefSameDashes(job, i, j);
      FirstOnlyIsPutOnce(job);
      FirstOnlyOutcome(job, j);
      assert FirstWith(job, j, 0) <= i;
    }
  }

  /** The info stored under a reference is that of the last platform with it. */
  ghost predicate IsLast(job: Job, i: nat) {
    i < |job.platforms| && forall j :: i < j < |job.platforms| ==> job.Ref(j) != job.Ref(i)
  }

  /** One entry per reference: the last platform with it, with the digest put under it. */
  ghost predicate IsImageMap(job: Job, world: World, images: map<string, BuiltImage>) {
    && (forall p :: p in images ==> exists i: nat :: IsLast(job, i) && job.platforms[i] == p)
    && (forall i: nat, k: nat :: IsLast(job, i) && OnlyPut(job, world, i, k) ==>
         job.platforms[i] in images && images[job.platforms[i]] == job.Image(i, Outcome(world, k).value))
  }

  /** The map a sequential build of distinct tags produces. */
  function Images(job: Job, world: World, n: nat): map<string, BuiltImage>
    requires n <= |job.platforms| && forall i :: 0 <= i < n ==> Outcome(world, i).Some?
  {
    if n == 0 then map[]
    else Images(job, world, n - 1)[job.platforms[n - 1] := job.Image(n - 1, Outcome(world, n - 1).value)]
  }

  lemma SamePlatformSameRef(job: Job, i: nat, j: nat)
    requires i < |job.platforms| && j < |job.platforms|
    ensures job.platforms[i] == job.platforms[j] ==> job.Ref(i) == job.Ref(j)
  {
  }

  lemma {:induction false} ImagesKeys(job: Job, world: World, n: nat)
    requires n <= |job.platforms| && forall i :: 0 <= i < n ==> Outcome(world, i).Some?
    ensures Images(job, world, n).Keys == Elems(job.platforms[..n])
  {
    hide Outcome, Job.Image;
    if n > 0 {
      ImagesKeys(job, world, n - 1);
      assert job.platforms[..n] == job.platforms[..n - 1] + [job.platforms[n - 1]];
    }
  }

  lemma {:induction false} ImageOfPlatform(job: Job, world: World, n: nat, i: nat)
    requires TagsDistinct(job) && i < n <= |job.platforms| && forall j :: 0 <= j < n ==> Outcome(world, j).Some?
    ensures job.platforms[i] in Images(job, world, n)
    ensures Images(job, world, n)[job.platforms[i]] == job.Image(i, Outcome(world, i).value)
  {
    hide Outcome, Job.Ref, Job.Image;
    if i < n - 1 {
      ImageOfPlatform(job, world, n - 1, i);
      SamePlatformSameRef(job, i, n - 1);
    }
  }

  /** With distinct tags the map is determined, whatever the order of the queue. */
  lemma ImageMapIsUnique(job: Job, world: World, images: map<string, BuiltImage>)
    requires TagsDistinct(job) && AllBuilt(job, world) && IsImageMap(job, world, images)
    ensures images == Images(job, world, |job.platforms|)
  {
    hide Dashed, Job.Ref, Outcome, Job.Image, Images;
    var all := Images(job, world, |job.platforms|);
    ImagesKeys(job, world, |job.platforms|);
    assert job.platforms[..|job.platforms|] == job.platforms;
    forall i | 0 <= i < |job.platforms|
      ensures job.platforms[i] in images && images[job.platforms[i]] == all[job.platforms[i]]
    {
      assert IsLast(job, i) && OnlyPut(job, world, i, i);
      ImageOfPlatform(job, world, |job.platforms|, i);
    }
    forall p | p in images ensures p in all {
      var i: nat :| IsLast(job, i) && job.platforms[i] == p;
    }
    forall p | p in all ensures p in images && images[p] == all[p] {
      var i: nat :| i < |job.platforms| && job.platforms[i] == p;
    }
  }

  /** The references are those of the platform images of the job, each once. */
  ghost predicate CombinesAll(job: Job, refs: seq<string>) {
    && NoDup(refs)
    && forall r :: r in refs <==>
         exists i: nat :: i < |job.platforms| && r == job.repo + ":" + (job.id + "-" + Dashed(job.platforms[i]))
  }

  /** The references of the images, one per platform, in terms of the job. */
  ghost predicate RefsOfImages(images: map<string, BuiltImage>, platforms: seq<string>, refs: seq<string>) {
    && NoDup(platforms) && images.Keys == Elems(platforms) && |refs| == |platforms|
    && forall k :: 0 <= k < |refs| ==>
         platforms[k] in images && refs[k] == images[platforms[k]].repo + ":" + images[platforms[k]].tag
  }

  lemma RefOfImage(job: Job, world: World, i: nat)
    requires TagsDistinct(job) && AllBuilt(job, world) && i < |job.platforms|
    ensures var images := Images(job, world, |job.platforms|); var p := job.platforms[i];
      p in images && images[p].repo + ":" + images[p].tag == job.Ref(i)
  {
    hide Dashed, Outcome, Images, TagsDistinct;
    ImageOfPlatform(job, world, |job.platforms|, i);
  }

  lemma PlatformOfRef(job: Job, world: World, platforms: seq<string>, refs: seq<string>, k: nat) returns (i: nat)
    requires TagsDistinct(job) && AllBuilt(job, world)
    requires RefsOfImages(Images(job, world, |job.platforms|), platforms, refs) && k < |refs|
    ensures i < |job.platforms| && job.platforms[i] == platforms[k] && refs[k] == job.Ref(i)
  {
    hide Dashed, Outcome, Images, TagsDistinct, Job.Ref, NoDup;
    ImagesKeys(job, world, |job.platforms|);
    assert job.platforms[..|job.platforms|] == job.platforms;
    i :| i < |job.platforms| && job.platforms[i] == platforms[k];
    RefOfImage(job, world, i);
  }

  lemma RefOfPlatform(job: Job, world: World, platforms: seq<string>, refs: seq<string>, i: nat)
    requires TagsDistinct(job) && AllBuilt(job, world)
    requires RefsOfImages(Images(job, world, |job.platforms|), platforms, refs) && i < |job.platforms|
    ensures job.Ref(i) in refs
  {
    hide Dashed, Outcome, Images, TagsDistinct, Job.Ref, NoDup;
    RefOfImage(job, world, i);
    assert job.platforms[i] in Images(job, world, |job.platforms|).Keys;
    var k :| 0 <= k < |platforms| && platforms[k] == job.platforms[i];
    assert refs[k] == job.Ref(i);
  }

  /** A build of distinct tags holds the image of every platform, under its reference. */
  lemma AllPlatformsCombined(job: Job, world: World, platforms: seq<string>, refs: seq<string>)
    requires TagsDistinct(job) && AllBuilt(job, world)
    requires RefsOfImages(Images(job, world, |job.platforms|), platforms, refs)
    ensures CombinesAll(job, refs)
  {
    hide Dashed, Outcome, Images, TagsDistinct, AllBuilt;
    forall r ensures r in refs <==>
      exists i: nat :: i < |job.platforms| && r == job.repo + ":" + (job.id + "-" + Dashed(job.platforms[i]))
    {
      if r in refs {
        var k :| 0 <= k < |refs| && refs[k] == r;
        var i := PlatformOfRef(job, world, platforms, refs, k);
        assert r == job.repo + ":" + (job.id + "-" + Dashed(job.platforms[i]));
      }
      if i: nat :| i < |job.platforms| && r == job.repo + ":" + (job.id + "-" + Dashed(job.platforms[i])) {
        RefOfPlatform(job, world, platforms, refs, i);
      }
    }
    forall k, l | 0 <= k < l < |refs| ensures refs[k] != refs[l] {
      var i := PlatformOfRef(job, world, platforms, refs, k);
      var j := PlatformOfRef(job, world, platforms, refs, l);
      RefsDiffer(job, i, j);
    }
  }

  lemma RefsDiffer(job: Job, i: nat, j: nat)
    requires TagsDistinct(job) && i < |job.platforms| && j < |job.platforms| && i != j
    ensures job.Ref(i) != job.Ref(j)
  {
    if i < j {
      assert job.Ref(i) != job.Ref(j);
    } else {
      assert job.Ref(j) != job.Ref(i);
    }
  }

  /** Two platforms with one tag: the failed one gets the image of the other, and the build reports success. */
  lemma SharedTagHidesAFailure(repo: string, id: string)
    ensures var job := Job(repo, id, ["linux/arm-v7", "linux/arm/v7"]);
            var world: World := (i, k) => if i == 0 then Digest("sha256:0") else OtherError;
            EachRefPutOnce(job, world) && !AllBuilt(job, world) && !TagsDistinct(job)
  {
    var job := Job(repo, id, ["linux/arm-v7", "linux/arm/v7"]);
    var world: World := (i, k) => if i == 0 then Digest("sha256:0") else OtherError;
    assert Dashed("linux/arm-v7") == Dashed("linux/arm/v7");
    assert job.Ref(0) == job.Ref(1);
    assert OnlyPut(job, world, 0, 0) && OnlyPut(job, world, 1, 0);
    assert PutOnce(job, world, 0) && PutOnce(job, world, 1);
    assert Outcome(world, 1).None?;
  }

  datatype Put = Put(ref: string, digest: string)
  datatype Info = Info(repo: string, tag: string, platform: string)

  /** The queue holds the digests of exactly the builds in `order`, one each, in that order. */
  ghost predicate QueueOf(job: Job, world: World, order: seq<nat>, queue: seq<Put>) {
    && NoDup(order) && |queue| == |order|
    && forall j :: 0 <= j < |order| ==>
      && order[j] < |job.platforms| && Outcome(world, order[j]).Some?
      && queue[j] == Put(job.Ref(order[j]), Outcome(world, order[j]).value)
  }

  ghost predicate HoldsAllDigests(job: Job, world: World, order: seq<nat>) {
    forall i: nat :: i < |job.platforms| && Outcome(world, i).Some? ==> i in order
  }

  /** The queue holds the digest of every build that has one, once, in some order. */
  ghost predicate HoldsEachDigestOnce(job: Job, world: World, queue: seq<Put>) {
    exists order :: QueueOf(job, world, order, queue) && HoldsAllDigests(job, world, order)
  }

  lemma PutNext(job: Job, world: World, order: seq<nat>, queue: seq<Put>, i: nat)
    requires QueueOf(job, world, order, queue) && i !in order
    requires i < |job.platforms| && Outcome(world, i).Some?
    ensures QueueOf(job, world, order + [i], queue + [Put(job.Ref(i), Outcome(world, i).value)])
  {
    NoDupAppend(order, i);
  }

  /** Where the threads stand: the next try of each one that still runs. */
  ghost predicate Progress(job: Job, world: World, running: set<nat>, tries: map<nat, nat>, order: seq<nat>) {
    && (forall i :: i in running ==> i < |job.platforms| && i !in order)
    && (forall i :: i in running ==>
         i in tries && tries[i] < TRIES && Outcome(world, i) == OutcomeFrom(world, i, tries[i]))
    && (forall i: nat :: i < |job.platforms| && i !in running && Outcome(world, i).Some? ==> i in order)
  }

  /** One try of one thread. */
  lemma ThreadStep(job: Job, world: World, running: set<nat>, tries: map<nat, nat>, order: seq<nat>,
                   queue: seq<Put>, i: nat)
    requires Progress(job, world, running, tries, order) && QueueOf(job, world, order, queue) && i in running
    ensures match world(i, tries[i])
      case Digest(digest) =>
        && Progress(job, world, running - {i}, tries, order + [i])
        && QueueOf(job, world, order + [i], queue + [Put(job.Ref(i), digest)])
      case OtherError => Progress(job, world, running - {i}, tries, order)
      case DockerError =>
        if tries[i] + 1 == TRIES then Progress(job, world, running - {i}, tries, order)
        else Progress(job, world, running, tries[i := tries[i] + 1], order)
  {
    if world(i, tries[i]).DockerError? {
      assert OutcomeFrom(world, i, tries[i]) == OutcomeFrom(world, i, tries[i] + 1);
    }
    if world(i, tries[i]).Digest? {
      PutNext(job, world, order, queue, i);
    }
  }

  function FirstIndices(n: nat): (indices: set<nat>)
    ensures forall i: nat :: i in indices <==> i < n
  {
    if n == 0 then {} else FirstIndices(n - 1) + {n - 1}
  }

  /** The threads take turns in any order, one try at a time, until all have ended. */
  method RunThreads(job: Job, world: World) returns (queue: seq<Put>, ghost order: seq<nat>)
    ensures HoldsEachDigestOnce(job, world, queue)
    ensures QueueOf(job, world, order, queue) && HoldsAllDigests(job, world, order)
  {
    hide QueueOf, OutcomeFrom, Progress;
    var running := FirstIndices(|job.platforms|);
    var tries: map<nat, nat> := map i: nat | i in running :: 0;
    queue, order := [], [];
    NothingPut(job, world, running, tries);
    ghost var left := set i: nat, k: nat | i in running && 0 <= k < TRIES :: (i, k);
    while running != {}
      invariant Progress(job, world, running, tries, order) && QueueOf(job, world, order, queue)
      invariant forall i :: i in running ==> i in tries && tries[i] < TRIES
      invariant forall i, k: nat :: i in running && tries[i] <= k < TRIES ==> (i, k) in left
      decreases left
    {
      var i :| i in running;
      ThreadStep(job, world, running, tries, order, queue, i);
      left := left - {(i, tries[i])};
      match world(i, tries[i]) {
        case Digest(digest) =>
          queue, order := queue + [Put(job.Ref(i), digest)], order + [i];
          running := running - {i};
        case OtherError =>
          running := running - {i};
        case DockerError =>
          if tries[i] + 1 == TRIES {
            running := running - {i};
          } else {
            tries := tries[i := tries[i] + 1];
          }
      }
    }
    AllEnded(job, world, tries, order);
  }

  lemma NothingPut(job: Job, world: World, running: set<nat>, tries: map<nat, nat>)
    requires forall i: nat :: i in running <==> i < |job.platforms|
    requires forall i :: i in running ==> i in tries && tries[i] == 0
    ensures Progress(job, world, running, tries, []) && QueueOf(job, world, [], [])
  {
  }

  lemma AllEnded(job: Job, world: World, tries: map<nat, nat>, order: seq<nat>)
    requires Progress(job, world, {}, tries, order)
    ensures HoldsAllDigests(job, world, order)
  {
  }

  /** The sequential build stops at the first platform that cannot be built. */
  method RunInSequence(job: Job, world: World) returns (queue: seq<Put>, ok: bool, ghost order: seq<nat>)
    ensures QueueOf(job, world, order, queue)
    ensures ok <==> AllBuilt(job, world)
    ensures ok ==> HoldsAllDigests(job, world, order)
  {
    queue, order := [], [];
    var i := 0;
    while i < |job.platforms|
      invariant 0 <= i <= |job.platforms|
      invariant QueueOf(job, world, order, queue) && |order| == i
      invariant forall j :: 0 <= j < i ==> order[j] == j && Outcome(world, j).Some?
    {
      var digest := BuildSingleImage(world, i);
      if digest.None? {
        return queue, false, order;
      }
      PutNext(job, world, order, queue, i);
      queue, order := queue + [Put(job.Ref(i), digest.value)], order + [i];
      i := i + 1;
    }
    forall j: nat | j < |job.platforms| ensures j in order {
      assert order[j] == j;
    }
    ok := true;
  }

  method BuildSingleImage(world: World, i: nat) returns (digest: Option<string>)
    ensures digest == Outcome(world, i)
  {
    var k := 0;
    while k < TRIES
      invariant 0 <= k <= TRIES && Outcome(world, i) == OutcomeFrom(world, i, k)
    {
      match world(i, k) {
        case Digest(d) => return Some(d);
        case OtherError => return None;
        case DockerError => k := k + 1;
      }
    }
    digest := None;
  }

  /** Every reference that was expected has been put once, and nothing else has. */
  ghost predicate RefsMatch(queue: seq<Put>, infos: map<string, Info>) {
    && (forall i, j :: 0 <= i < j < |queue| ==> queue[i].ref != queue[j].ref)
    && (forall j :: 0 <= j < |queue| ==> queue[j].ref in infos)
    && (forall r :: r in infos ==> exists j :: 0 <= j < |queue| && queue[j].ref == r)
  }

  ghost predicate PlatformsDistinct(infos: map<string, Info>) {
    forall r, s :: r in infos && s in infos && r != s ==> infos[r].platform != infos[s].platform
  }

  function ImageOf(info: Info, digest: string): BuiltImage {
    BuiltImage(info.repo, info.tag, digest, info.platform)
  }

  ghost predicate Placed(images: map<string, BuiltImage>, info: Info, digest: string) {
    info.platform in images && images[info.platform] == ImageOf(info, digest)
  }

  /** The images added from the first `n` entries of the queue. */
  ghost predicate Drained(queue: seq<Put>, infos: map<string, Info>, n: nat, images: map<string, BuiltImage>) {
    && n <= |queue|
    && (forall j :: 0 <= j < n ==> queue[j].ref in infos)
    && (forall j :: 0 <= j < n ==> Placed(images, infos[queue[j].ref], queue[j].digest))
    && (forall p :: p in images ==> exists j :: 0 <= j < n && infos[queue[j].ref].platform == p)
  }

  /** The entries left after the first `n` refs, all different, have been claimed. */
  ghost predicate Unclaimed(queue: seq<Put>, infos: map<string, Info>, n: nat, left: map<string, Info>) {
    && n <= |queue|
    && (forall i, j :: 0 <= i < j < n ==> queue[i].ref != queue[j].ref)
    && (forall r :: r in left <==> r in infos && forall j :: 0 <= j < n ==> queue[j].ref != r)
    && (forall r :: r in left ==> left[r] == infos[r])
  }

  lemma DrainStep(queue: seq<Put>, infos: map<string, Info>, n: nat, left: map<string, Info>,
                  images: map<string, BuiltImage>)
    requires Unclaimed(queue, infos, n, left) && Drained(queue, infos, n, images) && PlatformsDistinct(infos)
    requires n < |queue| && queue[n].ref in left
    ensures left[queue[n].ref].platform !in images
    ensures Unclaimed(queue, infos, n + 1, map r | r in left && r != queue[n].ref :: left[r])
    ensures Drained(queue, infos, n + 1,
      images[left[queue[n].ref].platform := ImageOf(left[queue[n].ref], queue[n].digest)])
  {
    ClaimStep(queue, infos, n, left);
    var info := infos[queue[n].ref];
    forall j | 0 <= j < n ensures infos[queue[j].ref].platform != info.platform {
    }
    PlaceStep(queue, infos, n, images);
  }

  lemma ClaimStep(queue: seq<Put>, infos: map<string, Info>, n: nat, left: map<string, Info>)
    requires Unclaimed(queue, infos, n, left) && n < |queue| && queue[n].ref in left
    ensures Unclaimed(queue, infos, n + 1, map r | r in left && r != queue[n].ref :: left[r])
  {
  }

  lemma PlaceStep(queue: seq<Put>, infos: map<string, Info>, n: nat, images: map<string, BuiltImage>)
    requires Drained(queue, infos, n, images) && n < |queue| && queue[n].ref in infos
    requires forall j :: 0 <= j < n ==> infos[queue[j].ref].platform != infos[queue[n].ref].platform
    ensures infos[queue[n].ref].platform !in images
    ensures Drained(queue, infos, n + 1,
      images[infos[queue[n].ref].platform := ImageOf(infos[queue[n].ref], queue[n].digest)])
  {
    var p := infos[queue[n].ref].platform;
    var more := images[p := ImageOf(infos[queue[n].ref], queue[n].digest)];
    forall q | q in more ensures exists j :: 0 <= j < n + 1 && infos[queue[j].ref].platform == q {
      if q in images {
        var j :| 0 <= j < n && infos[queue[j].ref].platform == q;
      } else {
        assert infos[queue[n].ref].platform == q;
      }
    }
  }

  lemma DrainEnd(queue: seq<Put>, infos: map<string, Info>, left: map<string, Info>, images: map<string, BuiltImage>)
    requires Unclaimed(queue, infos, |queue|, left) && Drained(queue, infos, |queue|, images)
    ensures left == map[] <==> RefsMatch(queue, infos)
  {
    if left == map[] {
      forall r | r in infos ensures exists j :: 0 <= j < |queue| && queue[j].ref == r {
        assert r !in left;
      }
    }
  }

  lemma DrainStuck(queue: seq<Put>, infos: map<string, Info>, n: nat, left: map<string, Info>)
    requires Unclaimed(queue, infos, n, left) && n < |queue| && queue[n].ref !in left
    ensures !RefsMatch(queue, infos)
  {
  }

  /** Empties the queue into the image info; false stands for a failed assertion. */
  method Drain(queue: seq<Put>, infos: map<string, Info>, built: BuiltImageInfo) returns (ok: bool)
    requires built.Valid() && built.imagesByPlatform == map[] && PlatformsDistinct(infos)
    modifies built`platforms, built`imagesByPlatform
    ensures built.Valid()
    ensures ok <==> RefsMatch(queue, infos)
    ensures ok ==> Drained(queue, infos, |queue|, built.imagesByPlatform)
  {
    hide Drained, Unclaimed, RefsMatch, PlatformsDistinct;
    var left := infos;
    var n := 0;
    DrainStart(queue, infos);
    while n < |queue|
      invariant 0 <= n <= |queue| && built.Valid()
      invariant Unclaimed(queue, infos, n, left) && Drained(queue, infos, n, built.imagesByPlatform)
    {
      var put := queue[n];
      if put.ref !in left {
        DrainStuck(queue, infos, n, left);
        return false;
      }
      DrainStep(queue, infos, n, left, built.imagesByPlatform);
      var info := left[put.ref];
      left := map r | r in left && r != put.ref :: left[r];
      var added := built.AddPlatformImage(info.platform, ImageOf(info, put.digest));
      if !added {
        return false;
      }
      n := n + 1;
    }
    DrainEnd(queue, infos, left, built.imagesByPlatform);
    ok := left == map[];
  }

  lemma DrainStart(queue: seq<Put>, infos: map<string, Info>)
    ensures Unclaimed(queue, infos, 0, infos) && Drained(queue, infos, 0, map[])
  {
  }

  /** What `infos` holds once the loop over the platforms has stored an entry for each. */
  ghost predicate InfosOf(job: Job, n: nat, infos: map<string, Info>) {
    && n <= |job.platforms|
    && (forall i: nat :: i < n ==> job.Ref(i) in infos)
    && (forall r :: r in infos ==> exists i: nat :: InfoFrom(job, n, infos[r], r, i))
  }

  ghost predicate InfoFrom(job: Job, n: nat, info: Info, r: string, i: nat) {
    LastBefore(job, n, i) && job.Ref(i) == r && info == Info(job.repo, job.Tag(i), job.platforms[i])
  }

  ghost predicate LastBefore(job: Job, n: nat, i: nat) {
    i < n <= |job.platforms| && forall j :: i < j < n ==> job.Ref(j) != job.Ref(i)
  }

  lemma InfosStep(job: Job, n: nat, infos: map<string, Info>)
    requires InfosOf(job, n, infos) && n < |job.platforms|
    ensures InfosOf(job, n + 1, infos[job.Ref(n) := Info(job.repo, job.Tag(n), job.platforms[n])])
  {
    hide Dashed, Job.Ref, Job.Tag;
    var m, more := n + 1, infos[job.Ref(n) := Info(job.repo, job.Tag(n), job.platforms[n])];
    forall r | r in more ensures exists i: nat :: InfoFrom(job, m, more[r], r, i) {
      if r == job.Ref(n) {
        assert InfoFrom(job, m, more[r], r, n);
      } else {
        var i: nat :| InfoFrom(job, n, infos[r], r, i);
        assert InfoFrom(job, m, more[r], r, i);
      }
    }
  }

  lemma InfoOfRef(job: Job, infos: map<string, Info>, r: string) returns (i: nat)
    requires InfosOf(job, |job.platforms|, infos) && r in infos
    ensures IsLast(job, i) && job.Ref(i) == r && infos[r] == Info(job.repo, job.Tag(i), job.platforms[i])
  {
    i :| InfoFrom(job, |job.platforms|, infos[r], r, i);
  }

  lemma InfosDiffer(job: Job, infos: map<string, Info>)
    requires InfosOf(job, |job.platforms|, infos)
    ensures PlatformsDistinct(infos)
  {
    forall r, t | r in infos && t in infos && r != t ensures infos[r].platform != infos[t].platform {
      var i := InfoOfRef(job, infos, r);
      var k := InfoOfRef(job, infos, t);
      assert job.Ref(i) != job.Ref(k);
    }
  }

  /** The drain succeeds exactly when each reference was put once. */
  lemma MatchIsPutOnce(job: Job, world: World, order: seq<nat>, queue: seq<Put>, infos: map<string, Info>)
    requires QueueOf(job, world, order, queue) && HoldsAllDigests(job, world, order)
    requires InfosOf(job, |job.platforms|, infos)
    ensures RefsMatch(queue, infos) <==> EachRefPutOnce(job, world)
  {
    hide QueueOf, HoldsAllDigests, InfosOf, RefsMatch, PutOnce;
    if RefsMatch(queue, infos) {
      forall i: nat | i < |job.platforms| ensures PutOnce(job, world, i) {
        MatchedOnce(job, world, order, queue, infos, i);
      }
    }
    if EachRefPutOnce(job, world) {
      PutOnceMatches(job, world, order, queue, infos);
    }
  }

  lemma MatchedOnce(job: Job, world: World, order: seq<nat>, queue: seq<Put>, infos: map<string, Info>, i: nat)
    requires QueueOf(job, world, order, queue) && HoldsAllDigests(job, world, order)
    requires InfosOf(job, |job.platforms|, infos) && RefsMatch(queue, infos) && i < |job.platforms|
    ensures PutOnce(job, world, i)
  {
    hide Dashed, Job.Ref, Job.Tag, Outcome;
    assert job.Ref(i) in infos;
    var j :| 0 <= j < |queue| && queue[j].ref == job.Ref(i);
    forall m: nat | m < |job.platforms| && job.Ref(m) == job.Ref(i) && Outcome(world, m).Some? ensures m == order[j] {
      assert m in order;
      var l :| 0 <= l < |order| && order[l] == m;
      assert queue[l].ref == job.Ref(m);
    }
    assert OnlyPut(job, world, i, order[j]);
  }

  lemma PutOnceMatches(job: Job, world: World, order: seq<nat>, queue: seq<Put>, infos: map<string, Info>)
    requires QueueOf(job, world, order, queue) && HoldsAllDigests(job, world, order)
    requires InfosOf(job, |job.platforms|, infos) && EachRefPutOnce(job, world)
    ensures RefsMatch(queue, infos)
  {
    hide Dashed, Job.Ref, Job.Tag, Outcome;
    forall i, j | 0 <= i < j < |queue| ensures queue[i].ref != queue[j].ref {
      assert PutOnce(job, world, order[i]);
      var k: nat :| OnlyPut(job, world, order[i], k);
      assert k == order[i] && order[j] != k;
    }
    forall r | r in infos ensures exists j :: 0 <= j < |queue| && queue[j].ref == r {
      var i := InfoOfRef(job, infos, r);
      assert PutOnce(job, world, i);
      var k: nat :| OnlyPut(job, world, i, k);
      assert k in order;
      var j :| 0 <= j < |order| && order[j] == k;
      assert queue[j].ref == r;
    }
  }

  lemma DrainedPlatforms(job: Job, queue: seq<Put>, infos: map<string, Info>, images: map<string, BuiltImage>,
                         p: string)
    requires InfosOf(job, |job.platforms|, infos) && Drained(queue, infos, |queue|, images) && p in images
    ensures exists i: nat :: IsLast(job, i) && job.platforms[i] == p
  {
    hide InfosOf, Job.Ref;
    var j :| 0 <= j < |queue| && infos[queue[j].ref].platform == p;
    var i := InfoOfRef(job, infos, queue[j].ref);
  }

  lemma DrainedImage(job: Job, world: World, order: seq<nat>, queue: seq<Put>, infos: map<string, Info>,
                     images: map<string, BuiltImage>, i: nat, k: nat)
    requires QueueOf(job, world, order, queue) && k in order
    requires InfosOf(job, |job.platforms|, infos) && Drained(queue, infos, |queue|, images)
    requires IsLast(job, i) && OnlyPut(job, world, i, k)
    ensures Placed(images, Info(job.repo, job.Tag(i), job.platforms[i]), Outcome(world, k).value)
  {
    hide InfosOf, Job.Ref, Job.Tag, Outcome, Placed;
    var j :| 0 <= j < |order| && order[j] == k;
    assert queue[j] == Put(job.Ref(i), Outcome(world, k).value);
    assert queue[j].ref in infos;
    var m := InfoOfRef(job, infos, queue[j].ref);
    assert m == i;
  }

  /** What was drained is the image map of the job. */
  lemma DrainedIsImageMap(job: Job, world: World, order: seq<nat>, queue: seq<Put>, infos: map<string, Info>,
                          images: map<string, BuiltImage>)
    requires QueueOf(job, world, order, queue) && HoldsAllDigests(job, world, order)
    requires InfosOf(job, |job.platforms|, infos) && Drained(queue, infos, |queue|, images)
    ensures IsImageMap(job, world, images)
  {
    hide InfosOf, QueueOf, Drained, Job.Ref, Job.Tag, Outcome;
    forall p | p in images ensures exists i: nat :: IsLast(job, i) && job.platforms[i] == p {
      DrainedPlatforms(job, queue, infos, images, p);
    }
    forall i: nat, k: nat | IsLast(job, i) && OnlyPut(job, world, i, k)
      ensures job.platforms[i] in images && images[job.platforms[i]] == job.Image(i, Outcome(world, k).value)
    {
      DrainedImage(job, world, order, queue, infos, images, i, k);
    }
  }

  /** Builds all platforms, in threads or one after the other; None stands for an exception. */
  method BuildMultipleImages(job: Job, world: World, useThreading: bool) returns (built: BuiltImageInfo, ok: bool)
    ensures fresh(built) && built.Valid() && built.id == job.id
    ensures useThreading ==> (ok <==> EachRefPutOnce(job, world))
    ensures !useThreading ==> (ok <==> AllBuilt(job, world) && EachRefPutOnce(job, world))
    ensures ok ==> IsImageMap(job, world, built.imagesByPlatform)
    ensures TagsDistinct(job) ==> (ok <==> AllBuilt(job, world))
    ensures TagsDistinct(job) && ok ==> built.imagesByPlatform == Images(job, world, |job.platforms|)
    ensures TagsDistinct(job) && ok ==> CombinesAll(job, built.SourceRefs())
  {
    hide InfosOf, QueueOf, EachRefPutOnce, IsImageMap, TagsDistinct, HoldsAllDigests, RefsMatch;
    hide Drained, PlatformsDistinct, Images, CombinesAll, Outcome, Dashed;
    built := new BuiltImageInfo(job.id);
    var infos := StoreInfos(job);
    var queue: seq<Put>;
    ghost var order: seq<nat>;
    ok := true;
    if useThreading {
      queue, order := RunThreads(job, world);
    } else {
      queue, ok, order := RunInSequence(job, world);
    }
    if TagsDistinct(job) {
      PutOnceIsAllBuilt(job, world);
    }
    if !ok {
      return;
    }
    InfosDiffer(job, infos);
    MatchIsPutOnce(job, world, order, queue, infos);
    ok := Drain(queue, infos, built);
    if ok {
      DrainedIsImageMap(job, world, order, queue, infos, built.imagesByPlatform);
      if TagsDistinct(job) {
        ImageMapIsUnique(job, world, built.imagesByPlatform);
        AllPlatformsCombined(job, world, built.platforms, built.SourceRefs());
      }
    }
  }

  method StoreInfos(job: Job) returns (infos: map<string, Info>)
    ensures InfosOf(job, |job.platforms|, infos)
  {
    infos := map[];
    var i := 0;
    while i < |job.platforms|
      invariant 0 <= i <= |job.platforms| && InfosOf(job, i, infos)
    {
      InfosStep(job, i, infos);
      infos := infos[job.Ref(i) := Info(job.repo, job.Tag(i), job.platforms[i])];
      i := i + 1;
    }
  }
}
