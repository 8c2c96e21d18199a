/** Which step configurations are accepted: the checks on multi-platform builds, pushed tags and re-tagging. */
module Validation {
  import opened Common

  datatype Push = Push(repository: string, tags: seq<string>)

  datatype CacheItem = Text(text: string) | Options(options: map<string, string>)
  datatype CacheFrom = NoCache | One(item: CacheItem) | Many(items: seq<CacheItem>)

  /** The base image is the one its Dockerfile names; `None` when it names none. */
  datatype Build = Build(
    platform: Option<string>,
    platforms: Option<seq<string>>,
    cacheFrom: CacheFrom,
    imported: string,
    hasSecrets: bool,
    base: Option<string>)

  datatype Run = Run(image: string)

  datatype Step = Step(name: string, build: Option<Build>, run: Option<Run>, push: seq<Push>, commit: seq<Push>)

  datatype Error =
    | NoSteps
    | LegacySecrets
    | BothPlatforms(name: string)
    | CacheFromList(name: string)
    | ImportNotAllowed(name: string)
    | RunNotAllowed(name: string)
    | DuplicateTag(tag: string, name: string)
    | BadDockerfile
    | Retagged(images: seq<string>)

  // ---- what the checks are for

  predicate IsMultiPlatform(s: Step) {
    s.build.Some? && s.build.value.platforms.Some?
  }

  /** The references one entry names: its repository with each tag, or the bare repository without tags. */
  function RefsOf(p: Push): seq<string> {
    if p.tags == [] then [p.repository] else Tagged(p.repository, p.tags)
  }

  function Tagged(repository: string, tags: seq<string>): (refs: seq<string>)
    ensures |refs| == |tags| && forall i :: 0 <= i < |tags| ==> refs[i] == repository + ":" + tags[i]
  {
    seq(|tags|, i requires 0 <= i < |tags| => repository + ":" + tags[i])
  }

  function Refs(pushes: seq<Push>): seq<string> {
    if pushes == [] then [] else Refs(pushes[..|pushes| - 1]) + RefsOf(pushes[|pushes| - 1])
  }

  /** All references pushed by multi-platform steps, repetitions included. */
  function MultiPlatformRefs(steps: seq<Step>): seq<string> {
    if steps == [] then []
    else
      var s := steps[|steps| - 1];
      MultiPlatformRefs(steps[..|steps| - 1]) + if IsMultiPlatform(s) then Refs(s.push) else []
  }

  ghost predicate TextList(c: CacheFrom) {
    c.Many? && forall item :: item in c.items ==> item.Text?
  }

  ghost predicate WellFormed(s: Step)
    requires IsMultiPlatform(s)
  {
    var b := s.build.value;
    b.platform.None? && !(b.platforms.value != [] && TextList(b.cacheFrom)) && b.imported == "" && s.run.None?
  }

  ghost predicate AllWellFormed(steps: seq<Step>) {
    forall i :: 0 <= i < |steps| && IsMultiPlatform(steps[i]) ==> WellFormed(steps[i])
  }

  /** An image reference with its tag written out. */
  function WithLatest(image: string): string {
    if ':' in image then image else image + ":latest"
  }

  /** What a step starts from; `None` when it starts from nothing named. */
  function SourceImage(s: Step): Option<string>
    requires s.build.Some? ==> s.build.value.base.Some?
  {
    if s.build.Some? then s.build.value.base
    else if s.run.Some? && s.run.value.image != "" then Some(WithLatest(s.run.value.image))
    else None
  }

  /** The base of a build comes before an image to run, whose tag is filled in where there is no colon. */
  ghost predicate ReadsSource(s: Step, source: Option<string>) {
    && (s.build.Some? ==> source == s.build.value.base)
    && (s.build.None? && (s.run.None? || s.run.value.image == "") ==> source == None)
    && (s.build.None? && s.run.Some? && s.run.value.image != "" ==>
          if ':' in s.run.value.image then source == Some(s.run.value.image)
          else source == Some(s.run.value.image + ":latest"))
  }

  ghost predicate SourcesKnown(steps: seq<Step>) {
    forall i :: 0 <= i < |steps| && steps[i].build.Some? ==> steps[i].build.value.base.Some?
  }

  function DestinationImages(s: Step): seq<string> {
    Refs(s.push) + Refs(s.commit)
  }

  /** A single-platform step re-tags an image of a multi-platform step. */
  ghost predicate Retags(single: Step, multi: Step)
    requires single.build.Some? ==> single.build.value.base.Some?
  {
    && !IsMultiPlatform(single) && IsMultiPlatform(multi)
    && DestinationImages(single) != []
    && SourceImage(single).Some? && SourceImage(single).value in DestinationImages(multi)
  }

  ghost predicate NothingRetagged(steps: seq<Step>)
    requires SourcesKnown(steps)
  {
    forall i, j :: 0 <= i < |steps| && 0 <= j < |steps| ==> !Retags(steps[i], steps[j])
  }

  ghost predicate SinglesApart(steps: seq<Step>, taken: set<string>) {
    forall i :: 0 <= i < |steps| && !IsMultiPlatform(steps[i]) ==> Apart(Refs(steps[i].push), taken)
  }

  ghost predicate Apart(refs: seq<string>, taken: set<string>) {
    forall ref :: ref in refs ==> ref !in taken
  }

  ghost predicate SecretsAllowed(steps: seq<Step>, legacyBuilder: bool) {
    forall i :: 0 <= i < |steps| && steps[i].build.Some? && steps[i].build.value.hasSecrets ==>
      IsMultiPlatform(steps[i]) || !legacyBuilder
  }

  ghost predicate AnyMultiPlatform(steps: seq<Step>) {
    exists i :: 0 <= i < |steps| && IsMultiPlatform(steps[i])
  }

  /** The configurations the checks are meant to let through. */
  ghost predicate Acceptable(steps: seq<Step>, legacyBuilder: bool) {
    && steps != []
    && SecretsAllowed(steps, legacyBuilder)
    && (AnyMultiPlatform(steps) ==>
          && AllWellFormed(steps)
          && NoDup(MultiPlatformRefs(steps))
          && SourcesKnown(steps) && NothingRetagged(steps)
          && SinglesApart(steps, Elems(MultiPlatformRefs(steps))))
  }

  // ---- what distinct references mean

  ghost predicate DistinctWithin(steps: seq<Step>) {
    forall i :: 0 <= i < |steps| && IsMultiPlatform(steps[i]) ==> NoDup(Refs(steps[i].push))
  }

  ghost predicate DistinctAcross(steps: seq<Step>) {
    forall i, j :: 0 <= i < j < |steps| && IsMultiPlatform(steps[i]) && IsMultiPlatform(steps[j]) ==>
      Apart(Refs(steps[i].push), Elems(Refs(steps[j].push)))
  }

  ghost predicate PushedBy(steps: seq<Step>, i: nat, ref: string) {
    i < |steps| && IsMultiPlatform(steps[i]) && ref in Refs(steps[i].push)
  }

  lemma {:induction false} InMultiPlatformRefs(steps: seq<Step>, ref: string)
    ensures ref in MultiPlatformRefs(steps) <==> exists i: nat :: PushedBy(steps, i, ref)
    decreases |steps|
  {
    hide Refs;
    if steps != [] {
      var n := |steps| - 1;
      var front := steps[..n];
      InMultiPlatformRefs(front, ref);
      assert forall i: nat :: PushedBy(front, i, ref) <==> PushedBy(steps, i, ref) && i < n;
      assert ref in MultiPlatformRefs(steps) <==> ref in MultiPlatformRefs(front) || PushedBy(steps, n, ref);
    }
  }

  /** No reference is pushed twice exactly when none repeats within a multi-platform step or between two of them. */
  lemma {:induction false} DistinctRefs(steps: seq<Step>)
    ensures NoDup(MultiPlatformRefs(steps)) <==> DistinctWithin(steps) && DistinctAcross(steps)
    decreases |steps|
  {
    hide Refs, NoDup;
    if steps == [] {
      assert NoDup(MultiPlatformRefs(steps)) by { NothingRepeats<string>(); }
    } else {
      var n := |steps| - 1;
      var front, last := steps[..n], steps[n];
      DistinctRefs(front);
      if IsMultiPlatform(last) {
        NoDupConcat(MultiPlatformRefs(front), Refs(last.push));
        FrontApart(steps);
        LastAcross(steps);
      } else {
        assert MultiPlatformRefs(front) + [] == MultiPlatformRefs(front);
        LastAcross(steps);
      }
    }
  }

  lemma NothingRepeats<T>()
    ensures NoDup<T>([])
  {
  }

  ghost predicate ApartFrom(steps: seq<Step>, n: nat, last: Step) {
    forall i :: 0 <= i < n && i < |steps| && IsMultiPlatform(steps[i]) ==>
      Apart(Refs(steps[i].push), Elems(Refs(last.push)))
  }

  lemma FrontApart(steps: seq<Step>)
    requires steps != []
    ensures var n := |steps| - 1;
      ApartFrom(steps, n, steps[n]) <==>
        forall ref :: ref in MultiPlatformRefs(steps[..n]) ==> ref !in Refs(steps[n].push)
  {
    hide Refs;
    var n := |steps| - 1;
    var front, refs := steps[..n], Refs(steps[n].push);
    if ApartFrom(steps, n, steps[n]) {
      forall ref | ref in MultiPlatformRefs(front) ensures ref !in refs {
        InMultiPlatformRefs(front, ref);
        var i: nat :| PushedBy(front, i, ref);
        assert Apart(Refs(steps[i].push), Elems(refs));
      }
    } else {
      var i :| 0 <= i < n && IsMultiPlatform(steps[i]) && !Apart(Refs(steps[i].push), Elems(refs));
      var ref :| ref in Refs(steps[i].push) && ref in refs;
      InMultiPlatformRefs(front, ref);
      assert PushedBy(front, i, ref);
    }
  }

  lemma LastAcross(steps: seq<Step>)
    requires steps != []
    ensures var n := |steps| - 1;
      && (DistinctWithin(steps) <==>
            DistinctWithin(steps[..n]) && (IsMultiPlatform(steps[n]) ==> NoDup(Refs(steps[n].push))))
      && (DistinctAcross(steps) <==>
            DistinctAcross(steps[..n]) && (IsMultiPlatform(steps[n]) ==> ApartFrom(steps, n, steps[n])))
  {
    hide Refs, NoDup, Apart;
    var n := |steps| - 1;
    var front := steps[..n];
    assert forall i :: 0 <= i < n ==> front[i] == steps[i];
    if DistinctAcross(front) && (IsMultiPlatform(steps[n]) ==> ApartFrom(steps, n, steps[n])) {
      forall i, j | 0 <= i < j < |steps| && IsMultiPlatform(steps[i]) && IsMultiPlatform(steps[j])
        ensures Apart(Refs(steps[i].push), Elems(Refs(steps[j].push)))
      {
        if j < n {
          assert Apart(Refs(front[i].push), Elems(Refs(front[j].push)));
        }
      }
    }
    if DistinctAcross(steps) {
      forall i, j | 0 <= i < j < n && IsMultiPlatform(front[i]) && IsMultiPlatform(front[j])
        ensures Apart(Refs(front[i].push), Elems(Refs(front[j].push)))
      {
        assert Apart(Refs(steps[i].push), Elems(Refs(steps[j].push)));
      }
    }
    if DistinctWithin(steps) {
      forall i | 0 <= i < n && IsMultiPlatform(front[i]) ensures NoDup(Refs(front[i].push)) {
        assert NoDup(Refs(steps[i].push));
      }
    }
    if DistinctWithin(front) {
      forall i | 0 <= i < n && IsMultiPlatform(steps[i]) ensures NoDup(Refs(steps[i].push)) {
        assert NoDup(Refs(front[i].push));
      }
    }
  }

  lemma {:induction false} RefsConcat(a: seq<Push>, b: seq<Push>)
    ensures Refs(a + b) == Refs(a) + Refs(b)
    decreases |b|
  {
    hide RefsOf;
    if b == [] {
      assert a + b == a && Refs(a) + [] == Refs(a);
    } else {
      var front, last := b[..|b| - 1], b[|b| - 1];
      RefsConcat(a, front);
      assert (a + b)[..|a + b| - 1] == a + front && (a + b)[|a + b| - 1] == last;
      assert Refs(a) + (Refs(front) + RefsOf(last)) == Refs(a) + Refs(front) + RefsOf(last);
    }
  }

  /** The checks of a validation, and the tags they have seen pushed by multi-platform steps. */
  class Validator {
    var mpPushTags: set<string>

    constructor ()
      ensures mpPushTags == {}
    {
      mpPushTags := {};
    }

    /** Accepts tags not seen before; when told to, remembers them, and then none may repeat. */
    method ValidateTags(tags: seq<string>, name: string, update: bool) returns (error: Option<Error>)
      modifies this
      ensures error.None? <==> Apart(tags, old(mpPushTags)) && (update ==> NoDup(tags))
      ensures error.None? || !update ==> mpPushTags == old(mpPushTags) + if update then Elems(tags) else {}
      ensures error.Some? ==> error.value.DuplicateTag? && error.value.tag in tags && error.value.name == name
    {
      for i := 0 to |tags|
        invariant forall j :: 0 <= j < i ==> tags[j] !in old(mpPushTags)
        invariant update ==> NoDup(tags[..i])
        invariant mpPushTags == old(mpPushTags) + if update then Elems(tags[..i]) else {}
      {
        assert tags[..i + 1] == tags[..i] + [tags[i]];
        if tags[i] in mpPushTags {
          error := Some(DuplicateTag(tags[i], name));
          if tags[i] !in old(mpPushTags) {
            var j :| 0 <= j < i && tags[..i][j] == tags[i];
            assert tags[j] == tags[i];
          }
          return;
        }
        if update {
          mpPushTags := mpPushTags + {tags[i]};
          NoDupAppend(tags[..i], tags[i]);
        }
      }
      assert tags[..|tags|] == tags;
      error := None;
    }

    method ValidatePush(push: seq<Push>, name: string, update: bool) returns (error: Option<Error>)
      modifies this
      ensures error.None? <==> Apart(Refs(push), old(mpPushTags)) && (update ==> NoDup(Refs(push)))
      ensures error.None? || !update ==> mpPushTags == old(mpPushTags) + if update then Elems(Refs(push)) else {}
      ensures error.Some? ==> error.value.DuplicateTag?
    {
      hide Refs, NoDup, Apart, RefsOf;
      NoRefs(mpPushTags);
      for i := 0 to |push|
        invariant Apart(Refs(push[..i]), old(mpPushTags)) && (update ==> NoDup(Refs(push[..i])))
        invariant mpPushTags == old(mpPushTags) + if update then Elems(Refs(push[..i])) else {}
      {
        ghost var seen := Refs(push[..i]);
        var tags := if push[i].tags == [] then [push[i].repository] else Tagged(push[i].repository, push[i].tags);
        assert tags == RefsOf(push[i]) by { EntryRefs(push[i]); }
        RefsNext(push, i);
        TagsNext(seen, tags, old(mpPushTags), update);
        error := ValidateTags(tags, name, update);
        if error.Some? {
          AllRefs(push, i + 1, old(mpPushTags), update);
          return;
        }
      }
      assert push[..|push|] == push;
      error := None;
    }

    method ValidateBuild(s: Step) returns (error: Option<Error>)
      requires IsMultiPlatform(s)
      ensures error.None? <==> WellFormed(s)
    {
      var b := s.build.value;
      if b.platform.Some? {
        return Some(BothPlatforms(s.name));
      }
      var texts := b.cacheFrom.Many? && forall item :: item in b.cacheFrom.items ==> item.Text?;
      if b.platforms.value != [] && texts {
        return Some(CacheFromList(s.name));
      }
      if b.imported != "" {
        return Some(ImportNotAllowed(s.name));
      }
      if s.run.Some? {
        return Some(RunNotAllowed(s.name));
      }
      return None;
    }

    method ValidateMultiplatformBuild(steps: seq<Step>) returns (error: Option<Error>)
      modifies this
      ensures error.None? <==>
        AllWellFormed(steps) && NoDup(MultiPlatformRefs(steps)) && Apart(MultiPlatformRefs(steps), old(mpPushTags))
      ensures error.None? ==> mpPushTags == old(mpPushTags) + Elems(MultiPlatformRefs(steps))
    {
      hide Refs, NoDup, Apart, WellFormed, MultiPlatformRefs;
      NoStepRefs(mpPushTags);
      for i := 0 to |steps|
        invariant AllWellFormed(steps[..i])
        invariant NoDup(MultiPlatformRefs(steps[..i])) && Apart(MultiPlatformRefs(steps[..i]), old(mpPushTags))
        invariant mpPushTags == old(mpPushTags) + Elems(MultiPlatformRefs(steps[..i]))
      {
        StepRefsNext(steps, i);
        ghost var seen := MultiPlatformRefs(steps[..i]);
        if IsMultiPlatform(steps[i]) {
          error := ValidateBuild(steps[i]);
          if error.Some? {
            return;
          }
          TagsNext(seen, Refs(steps[i].push), old(mpPushTags), true);
          error := ValidatePush(steps[i].push, steps[i].name, true);
          if error.Some? {
            AllStepRefs(steps, i + 1, old(mpPushTags));
            return;
          }
        } else {
          assert seen + [] == seen;
        }
      }
      assert steps[..|steps|] == steps;
      error := None;
    }

    method SourceImages(steps: seq<Step>) returns (sources: seq<Option<string>>, error: Option<Error>)
      ensures error.None? <==> SourcesKnown(steps)
      ensures error.None? ==> |sources| == |steps|
      ensures error.None? ==> forall i :: 0 <= i < |steps| ==> sources[i] == SourceImage(steps[i])
      ensures error.None? ==> forall i :: 0 <= i < |steps| ==> ReadsSource(steps[i], sources[i])
    {
      sources, error := [], None;
      for i := 0 to |steps|
        invariant SourcesKnown(steps[..i])
        invariant |sources| == i
        invariant forall j :: 0 <= j < i ==> steps[..i][j] == steps[j] && sources[j] == SourceImage(steps[j])
      {
        var s := steps[i];
        if s.build.Some? {
          if s.build.value.base.None? {
            return [], Some(BadDockerfile);
          }
          sources := sources + [s.build.value.base];
        } else if s.run.Some? && s.run.value.image != "" {
          sources := sources + [Some(WithLatest(s.run.value.image))];
        } else {
          sources := sources + [None];
        }
      }
      assert steps[..|steps|] == steps;
    }

    method ValidateNotRetagged(steps: seq<Step>) returns (error: Option<Error>)
      ensures error.None? <==> SourcesKnown(steps) && NothingRetagged(steps)
    {
      hide SourceImage, DestinationImages, IsMultiPlatform, SourcesKnown;
      var sources: seq<Option<string>>;
      sources, error := SourceImages(steps);
      if error.Some? {
        return;
      }
      var retagged: seq<string> := [];
      for i := 0 to |steps|
        invariant retagged == [] <==> forall k, j :: 0 <= k < i && 0 <= j < |steps| ==> !RetagsAt(steps, sources, k, j)
      {
        if DestinationImages(steps[i]) != [] && !IsMultiPlatform(steps[i]) {
          for j := 0 to |steps|
            invariant retagged == [] <==>
              && (forall k, l :: 0 <= k < i && 0 <= l < |steps| ==> !RetagsAt(steps, sources, k, l))
              && (forall l :: 0 <= l < j ==> !RetagsAt(steps, sources, i, l))
          {
            if j != i && sources[i].Some? && sources[i].value in DestinationImages(steps[j])
               && IsMultiPlatform(steps[j])
            {
              retagged := retagged + [sources[i].value];
              assert RetagsAt(steps, sources, i, j);
            }
          }
        }
      }
      SourcesDecide(steps, sources);
      error := if retagged == [] then None else Some(Retagged(retagged));
    }

    /** The check of a whole configuration. */
    method ValidateSteps(steps: seq<Step>, legacyBuilder: bool) returns (error: Option<Error>)
      requires mpPushTags == {}
      modifies this
      ensures error.None? <==> Acceptable(steps, legacyBuilder)
    {
      hide IsMultiPlatform, MultiPlatformRefs, NoDup, Apart, Refs, AllWellFormed, SourcesKnown, NothingRetagged;
      if steps == [] {
        return Some(NoSteps);
      }
      var hasMultiPlatform := false;
      for i := 0 to |steps|
        invariant hasMultiPlatform <==> exists j :: 0 <= j < i && IsMultiPlatform(steps[j])
        invariant forall j :: 0 <= j < i && steps[j].build.Some? && steps[j].build.value.hasSecrets ==>
          IsMultiPlatform(steps[j]) || !legacyBuilder
      {
        hasMultiPlatform := hasMultiPlatform || IsMultiPlatform(steps[i]);
        if steps[i].build.Some? && steps[i].build.value.hasSecrets && !IsMultiPlatform(steps[i]) && legacyBuilder {
          return Some(LegacySecrets);
        }
      }
      if !hasMultiPlatform {
        return None;
      }
      NoTagsTaken(MultiPlatformRefs(steps));
      error := ValidateMultiplatformBuild(steps);
      if error.Some? {
        return;
      }
      error := ValidateNotRetagged(steps);
      if error.Some? {
        return;
      }
      for i := 0 to |steps|
        invariant mpPushTags == Elems(MultiPlatformRefs(steps))
        invariant forall j :: 0 <= j < i && !IsMultiPlatform(steps[j]) ==> Apart(Refs(steps[j].push), mpPushTags)
      {
        if !IsMultiPlatform(steps[i]) {
          error := ValidatePush(steps[i].push, steps[i].name, false);
          if error.Some? {
            return;
          }
        }
      }
      error := None;
    }
  }

  lemma NoTagsTaken(refs: seq<string>)
    ensures Apart(refs, {})
  {
  }

  lemma NoRefs(taken: set<string>)
    ensures Refs([]) == [] && Apart([], taken) && NoDup<string>([]) && Elems<string>([]) == {}
  {
  }

  lemma NoStepRefs(taken: set<string>)
    ensures MultiPlatformRefs([]) == [] && Apart([], taken) && NoDup<string>([]) && Elems<string>([]) == {}
  {
  }

  lemma EntryRefs(p: Push)
    ensures RefsOf(p) == if p.tags == [] then [p.repository] else Tagged(p.repository, p.tags)
  {
  }

  lemma RefsNext(push: seq<Push>, i: nat)
    requires i < |push|
    ensures Refs(push[..i + 1]) == Refs(push[..i]) + RefsOf(push[i])
  {
    assert push[..i + 1][..i] == push[..i];
  }

  lemma StepRefsNext(steps: seq<Step>, i: nat)
    requires i < |steps|
    ensures MultiPlatformRefs(steps[..i + 1])
      == MultiPlatformRefs(steps[..i]) + if IsMultiPlatform(steps[i]) then Refs(steps[i].push) else []
  {
    assert steps[..i + 1][..i] == steps[..i];
  }

  /** References so far and further ones, against the tags taken before the first and before the second. */
  lemma TagsNext(seen: seq<string>, more: seq<string>, taken: set<string>, update: bool)
    requires Apart(seen, taken) && (update ==> NoDup(seen))
    ensures Elems(seen + more) == Elems(seen) + Elems(more)
    ensures var now := taken + if update then Elems(seen) else {};
      (Apart(more, now) && (update ==> NoDup(more))) <==> (Apart(seen + more, taken) && (update ==> NoDup(seen + more)))
  {
    NoDupConcat(seen, more);
  }

  /** What fails for some of the references fails for all of them. */
  lemma {:induction false} AllRefs(push: seq<Push>, n: nat, taken: set<string>, update: bool)
    requires n <= |push|
    requires !(Apart(Refs(push[..n]), taken) && (update ==> NoDup(Refs(push[..n]))))
    ensures !(Apart(Refs(push), taken) && (update ==> NoDup(Refs(push))))
  {
    hide Refs;
    RefsConcat(push[..n], push[n..]);
    assert push[..n] + push[n..] == push;
    NoDupConcat(Refs(push[..n]), Refs(push[n..]));
  }

  lemma {:induction false} AllStepRefs(steps: seq<Step>, n: nat, taken: set<string>)
    requires n <= |steps|
    requires !(Apart(MultiPlatformRefs(steps[..n]), taken) && NoDup(MultiPlatformRefs(steps[..n])))
    ensures !(Apart(MultiPlatformRefs(steps), taken) && NoDup(MultiPlatformRefs(steps)))
    decreases |steps| - n
  {
    hide Refs, NoDup;
    if n == |steps| {
      assert steps[..n] == steps;
    } else {
      StepRefsNext(steps, n);
      var seen := MultiPlatformRefs(steps[..n]);
      var more := if IsMultiPlatform(steps[n]) then Refs(steps[n].push) else [];
      NoDupConcat(seen, more);
      assert forall ref :: ref in seen ==> ref in seen + more;
      AllStepRefs(steps, n + 1, taken);
    }
  }

  ghost predicate RetagsAt(steps: seq<Step>, sources: seq<Option<string>>, i: nat, j: nat)
    requires i < |steps| && j < |steps| && |sources| == |steps|
  {
    && DestinationImages(steps[i]) != [] && !IsMultiPlatform(steps[i])
    && sources[i].Some? && sources[i].value in DestinationImages(steps[j]) && IsMultiPlatform(steps[j])
  }

  lemma SourcesDecide(steps: seq<Step>, sources: seq<Option<string>>)
    requires SourcesKnown(steps) && |sources| == |steps|
    requires forall i :: 0 <= i < |steps| ==> sources[i] == SourceImage(steps[i])
    ensures NothingRetagged(steps) <==>
      forall i, j :: 0 <= i < |steps| && 0 <= j < |steps| ==> !RetagsAt(steps, sources, i, j)
  {
    hide SourceImage, DestinationImages, IsMultiPlatform;
    assert forall i, j :: 0 <= i < |steps| && 0 <= j < |steps| ==>
      (Retags(steps[i], steps[j]) <==> RetagsAt(steps, sources, i, j));
  }

  // ---- committed references, which multi-platform steps publish too

  ghost predicate DifferInCommits(steps: seq<Step>, other: seq<Step>) {
    |steps| == |other| && forall i :: 0 <= i < |steps| ==> other[i].(commit := steps[i].commit) == steps[i]
  }

  lemma {:induction false} SamePushes(steps: seq<Step>, other: seq<Step>)
    requires DifferInCommits(steps, other)
    ensures MultiPlatformRefs(steps) == MultiPlatformRefs(other)
    decreases |steps|
  {
    if steps != [] {
      var n := |steps| - 1;
      assert other[n].push == steps[n].push && other[n].build == steps[n].build;
      SamePushes(steps[..n], other[..n]);
    }
  }

  /** Only pushed references are compared: whatever the commits of an accepted configuration are replaced by, it stays
      accepted, save where an image is now re-tagged. */
  lemma CommitsAreNotCompared(steps: seq<Step>, other: seq<Step>, legacyBuilder: bool)
    requires Acceptable(steps, legacyBuilder) && DifferInCommits(steps, other)
    ensures Acceptable(other, legacyBuilder) <==>
      (AnyMultiPlatform(other) ==> SourcesKnown(other) && NothingRetagged(other))
  {
    hide MultiPlatformRefs, NoDup, Apart, Refs, NothingRetagged;
    SamePushes(steps, other);
    forall i | 0 <= i < |steps|
      ensures other[i].build == steps[i].build && other[i].push == steps[i].push && other[i].run == steps[i].run
    {
      assert other[i].(commit := steps[i].commit) == steps[i];
    }
    if AnyMultiPlatform(other) {
      var i :| 0 <= i < |other| && IsMultiPlatform(other[i]);
      assert IsMultiPlatform(steps[i]);
      assert AllWellFormed(other) && SecretsAllowed(other, legacyBuilder);
      assert SinglesApart(other, Elems(MultiPlatformRefs(other)));
    }
  }
}
