/** Pushing the multi-platform images: one manifest per tagged reference, combining the platform images of one build. */
module ManifestPush {
  import opened ImageInfo
  import FanOut

  datatype Manifest = Manifest(sources: seq<string>, tag: string)

  /** The platform images of one build and the references it was tagged with. */
  datatype View = View(sources: seq<string>, tagged: seq<TaggedImage>)

  function Manifests(sources: seq<string>, refs: seq<string>): seq<Manifest> {
    seq(|refs|, i requires 0 <= i < |refs| => Manifest(sources, refs[i]))
  }

  /** The manifests for one build, in the order they are created. */
  function ForTagged(sources: seq<string>, tagged: seq<TaggedImage>): seq<Manifest> {
    if tagged == [] then []
    else ForTagged(sources, tagged[..|tagged| - 1]) + Manifests(sources, tagged[|tagged| - 1].ImageRefs())
  }

  function ForAll(views: seq<View>): seq<Manifest> {
    if views == [] then []
    else ForAll(views[..|views| - 1]) + ForTagged(views[|views| - 1].sources, views[|views| - 1].tagged)
  }

  /** `m` is the manifest of the `k`-th tag of the `j`-th tagged image of build `v`. */
  ghost predicate Belongs(v: View, m: Manifest, j: nat, k: nat) {
    && j < |v.tagged| && k < |v.tagged[j].tags|
    && m == Manifest(v.sources, v.tagged[j].repo + ":" + v.tagged[j].tags[k])
  }

  ghost predicate BelongsTo(v: View, m: Manifest) {
    exists j: nat, k: nat :: Belongs(v, m, j, k)
  }

  lemma {:induction false} TaggedMeaning(v: View, m: Manifest)
    ensures m in ForTagged(v.sources, v.tagged) <==> BelongsTo(v, m)
    decreases |v.tagged|
  {
    if v.tagged == [] {
    } else {
      var n := |v.tagged| - 1;
      var rest := v.(tagged := v.tagged[..n]);
      TaggedMeaning(rest, m);
      var last := Manifests(v.sources, v.tagged[n].ImageRefs());
      if m in last {
        var k :| 0 <= k < |last| && last[k] == m;
        assert Belongs(v, m, n, k);
      }
      if BelongsTo(rest, m) {
        var j: nat, k: nat :| Belongs(rest, m, j, k);
        assert Belongs(v, m, j, k);
      }
      if BelongsTo(v, m) {
        var j: nat, k: nat :| Belongs(v, m, j, k);
        if j == n {
          assert last[k] == m;
        } else {
          assert Belongs(rest, m, j, k);
        }
      }
    }
  }

  /** Every manifest combines all platform images of one build and nothing else, under one of its references; and
      every reference of every build has its manifest. */
  lemma {:induction false} ManifestsAreExact(views: seq<View>, m: Manifest)
    ensures m in ForAll(views) <==> exists i: nat :: i < |views| && BelongsTo(views[i], m)
    decreases |views|
  {
    if views == [] {
    } else {
      var n := |views| - 1;
      ManifestsAreExact(views[..n], m);
      TaggedMeaning(views[n], m);
      assert views[n] == View(views[n].sources, views[n].tagged);
      if i: nat :| i < n && BelongsTo(views[..n][i], m) {
        assert BelongsTo(views[i], m);
      }
      if i: nat :| i < n && BelongsTo(views[i], m) {
        assert BelongsTo(views[..n][i], m);
      }
    }
  }

  /** If every build combines the images of all platforms of its job, so does every manifest, of one job. */
  lemma ManifestsCombineAllPlatforms(jobs: seq<FanOut.Job>, views: seq<View>, m: Manifest)
    requires |jobs| == |views| && m in ForAll(views)
    requires forall i :: 0 <= i < |views| ==> FanOut.CombinesAll(jobs[i], views[i].sources)
    ensures exists i: nat :: i < |views| && BelongsTo(views[i], m) && FanOut.CombinesAll(jobs[i], m.sources)
  {
    hide FanOut.CombinesAll;
    ManifestsAreExact(views, m);
  }

  function CountTagged(tagged: seq<TaggedImage>): nat {
    if tagged == [] then 0 else CountTagged(tagged[..|tagged| - 1]) + |tagged[|tagged| - 1].ImageRefs()|
  }

  function CountAll(views: seq<View>): nat {
    if views == [] then 0 else CountAll(views[..|views| - 1]) + CountTagged(views[|views| - 1].tagged)
  }

  lemma {:induction false} CountMatchesTagged(sources: seq<string>, tagged: seq<TaggedImage>)
    ensures |ForTagged(sources, tagged)| == CountTagged(tagged)
  {
    if tagged == [] {
    } else {
      CountMatchesTagged(sources, tagged[..|tagged| - 1]);
    }
  }

  lemma {:induction false} CountMatches(views: seq<View>)
    ensures |ForAll(views)| == CountAll(views)
  {
    if views == [] {
    } else {
      CountMatches(views[..|views| - 1]);
      CountMatchesTagged(views[|views| - 1].sources, views[|views| - 1].tagged);
    }
  }

  lemma {:induction false} ForAllPrefix(views: seq<View>, n: nat)
    requires n <= |views|
    ensures ForAll(views[..n]) <= ForAll(views)
    decreases |views|
  {
    if n == |views| {
      assert views[..n] == views;
    } else {
      var rest := views[..|views| - 1];
      ForAllPrefix(rest, n);
      assert rest[..n] == views[..n];
    }
  }

  lemma {:induction false} ForTaggedPrefix(sources: seq<string>, tagged: seq<TaggedImage>, n: nat)
    requires n <= |tagged|
    ensures ForTagged(sources, tagged[..n]) <= ForTagged(sources, tagged)
    decreases |tagged|
  {
    if n == |tagged| {
      assert tagged[..n] == tagged;
    } else {
      var rest := tagged[..|tagged| - 1];
      ForTaggedPrefix(sources, rest, n);
      assert rest[..n] == tagged[..n];
    }
  }

  /** Of the wanted manifests, the first few were created, and not all. */
  ghost predicate OnlyPart(before: seq<Manifest>, after: seq<Manifest>, wanted: seq<Manifest>) {
    exists n :: 0 <= n < |wanted| && after == before + wanted[..n]
  }

  lemma PartOfMore(before: seq<Manifest>, done: seq<Manifest>, after: seq<Manifest>, next: seq<Manifest>,
                   all: seq<Manifest>)
    requires done + next <= all && OnlyPart(before + done, after, next)
    ensures OnlyPart(before, after, all)
  {
    var n :| 0 <= n < |next| && after == before + done + next[..n];
    assert all[..|done| + n] == done + next[..n];
    assert after == before + all[..|done| + n];
  }

  lemma PartOf(before: seq<Manifest>, wanted: seq<Manifest>, n: nat)
    requires n < |wanted|
    ensures OnlyPart(before, before + wanted[..n], wanted)
  {
  }

  datatype Outcome = Pushed | Raised | CountMismatch

  ghost function ViewsOf(images: seq<BuiltImageInfo>): seq<View>
    requires forall b :: b in images ==> b.Valid()
    reads images
  {
    seq(|images|, i requires 0 <= i < |images| && images[i].Valid() reads images =>
      View(images[i].SourceRefs(), images[i].taggedImages))
  }

  lemma NoBuilds()
    ensures ForAll([]) == [] && CountAll([]) == 0
  {
  }

  lemma NextBuild(views: seq<View>, i: nat)
    requires i < |views|
    ensures ForAll(views[..i + 1]) == ForAll(views[..i]) + ForTagged(views[i].sources, views[i].tagged)
    ensures CountAll(views[..i + 1]) == CountAll(views[..i]) + CountTagged(views[i].tagged)
    ensures ForAll(views[..i + 1]) <= ForAll(views)
  {
    assert views[..i + 1][..i] == views[..i];
    ForAllPrefix(views, i + 1);
  }

  class MultiplatformImageBuilder {
    var builtImages: seq<BuiltImageInfo>
    var created: seq<Manifest>           // the manifests the remote registry has accepted
    ghost var refusals: nat              // how often it has not, after all retries

    ghost predicate Valid()
      reads this`builtImages, builtImages
    {
      forall b :: b in builtImages ==> b.Valid()
    }

    ghost function Views(): seq<View>
      requires Valid()
      reads this`builtImages, builtImages
    {
      ViewsOf(builtImages)
    }

    constructor ()
      ensures Valid() && builtImages == [] && created == [] && refusals == 0
    {
      builtImages, created, refusals := [], [], 0;
    }

    /** The registry accepts the manifest, or every retry fails. */
    method CreateManifest(sources: seq<string>, tag: string) returns (ok: bool)
      modifies this`created, this`refusals
      ensures created == if ok then old(created) + [Manifest(sources, tag)] else old(created)
      ensures refusals == old(refusals) + if ok then 0 else 1
    {
      ok := *;
      if ok {
        created := created + [Manifest(sources, tag)];
      } else {
        refusals := refusals + 1;
      }
    }

    method Push() returns (outcome: Outcome)
      requires Valid()
      modifies this`created, this`refusals
      ensures outcome != CountMismatch
      ensures outcome == Pushed <==> refusals == old(refusals)
      ensures outcome == Pushed ==> created == old(created) + ForAll(Views())
      ensures outcome == Pushed ==> forall m :: m in created[|old(created)|..] ==> FromOneBuild(m)
      ensures outcome == Raised ==> OnlyPart(old(created), created, ForAll(Views()))
    {
      hide ForTagged, OnlyPart, ForAll, CountAll;
      var expected := CountExpected();
      var count := 0;
      ghost var views, before := Views(), created;
      NoBuilds();
      assert views[..0] == [] && before + [] == before;
      var i := 0;
      while i < |builtImages|
        invariant 0 <= i <= |builtImages| && Valid() && Views() == views && refusals == old(refusals)
        invariant created == before + ForAll(views[..i]) && count == CountAll(views[..i])
      {
        NextBuild(views, i);
        var pushed: nat, ok: bool;
        pushed, ok := PushBuilt(builtImages[i]);
        if !ok {
          PartOfMore(before, ForAll(views[..i]), created, ForTagged(views[i].sources, views[i].tagged), ForAll(views));
          assert Views() == views;
          return Raised;
        }
        assert before + ForAll(views[..i]) + ForTagged(views[i].sources, views[i].tagged)
          == before + ForAll(views[..i + 1]);
        count := count + pushed;
        i := i + 1;
      }
      assert views[..i] == views;
      CountMatches(views);
      AllFromOneBuild();
      return if count != expected then CountMismatch else Pushed;
    }

    /** The manifest combines all platform images of one build. */
    ghost predicate FromOneBuild(m: Manifest)
      requires Valid()
      reads this`builtImages, builtImages
    {
      exists b :: b in builtImages && m.sources == b.SourceRefs()
    }

    lemma AllFromOneBuild()
      requires Valid()
      ensures forall m :: m in ForAll(Views()) ==> FromOneBuild(m)
    {
      forall m | m in ForAll(Views()) ensures FromOneBuild(m) {
        ManifestsAreExact(Views(), m);
        var i: nat :| i < |Views()| && BelongsTo(Views()[i], m);
        assert builtImages[i] in builtImages && m.sources == builtImages[i].SourceRefs();
      }
    }

    method CountExpected() returns (expected: nat)
      requires Valid()
      ensures expected == CountAll(Views())
    {
      expected := 0;
      ghost var views := Views();
      var i := 0;
      while i < |builtImages|
        invariant 0 <= i <= |builtImages| && expected == CountAll(views[..i])
      {
        assert views[..i + 1][..i] == views[..i];
        var tagged := builtImages[i].taggedImages;
        var here := 0;
        var j := 0;
        while j < |tagged|
          invariant 0 <= j <= |tagged| && here == CountTagged(tagged[..j])
        {
          assert tagged[..j + 1][..j] == tagged[..j];
          here := here + |tagged[j].ImageRefs()|;
          j := j + 1;
        }
        assert tagged[..j] == tagged;
        expected := expected + here;
        i := i + 1;
      }
      assert views[..i] == views;
    }

    /** One build, tag by tag; a build without tags is skipped. */
    method PushBuilt(built: BuiltImageInfo) returns (pushed: nat, ok: bool)
      requires built.Valid()
      modifies this`created, this`refusals
      ensures refusals >= old(refusals) && (ok <==> refusals == old(refusals))
      ensures ok ==> created == old(created) + ForTagged(built.SourceRefs(), built.taggedImages)
      ensures ok ==> pushed == CountTagged(built.taggedImages)
      ensures !ok ==> OnlyPart(old(created), created, ForTagged(built.SourceRefs(), built.taggedImages))
    {
      hide OnlyPart;
      var sources, tagged := built.SourceRefs(), built.taggedImages;
      ghost var before := created;
      pushed := 0;
      assert before + [] == before;
      var j := 0;
      while j < |tagged|
        invariant 0 <= j <= |tagged| && tagged == built.taggedImages && sources == built.SourceRefs()
        invariant refusals == old(refusals)
        invariant created == before + ForTagged(sources, tagged[..j]) && pushed == CountTagged(tagged[..j])
      {
        assert tagged[..j + 1][..j] == tagged[..j];
        ForTaggedPrefix(sources, tagged, j + 1);
        var refs := tagged[j].ImageRefs();
        var done := PushRefs(sources, refs);
        if !done {
          PartOfMore(before, ForTagged(sources, tagged[..j]), created, Manifests(sources, refs),
                     ForTagged(sources, tagged));
          return pushed, false;
        }
        assert before + ForTagged(sources, tagged[..j]) + Manifests(sources, refs)
          == before + ForTagged(sources, tagged[..j + 1]);
        pushed, j := pushed + |refs|, j + 1;
      }
      assert tagged[..j] == tagged;
      ok := true;
    }

    /** Each tag gets a manifest of its own. */
    method PushRefs(sources: seq<string>, refs: seq<string>) returns (ok: bool)
      modifies this`created, this`refusals
      ensures refusals >= old(refusals) && (ok <==> refusals == old(refusals))
      ensures ok ==> created == old(created) + Manifests(sources, refs)
      ensures !ok ==> OnlyPart(old(created), created, Manifests(sources, refs))
    {
      hide OnlyPart;
      var k := 0;
      while k < |refs|
        invariant 0 <= k <= |refs| && created == old(created) + Manifests(sources, refs)[..k]
        invariant refusals == old(refusals)
      {
        ok := CreateManifest(sources, refs[k]);
        if !ok {
          PartOf(old(created), Manifests(sources, refs), k);
          return;
        }
        assert Manifests(sources, refs)[..k + 1] == Manifests(sources, refs)[..k] + [Manifest(sources, refs[k])];
        k := k + 1;
      }
      assert Manifests(sources, refs)[..k] == Manifests(sources, refs);
      ok := true;
    }
  }
}
