/** What is really published for the push and commit sections of a step: repositories in lower case, tags cleaned, and
    a tag inside the repository cut off, none of which the checks of a configuration know about. */
module Publishing {
  import opened Common
  import opened Validation
  import opened DefaultTags
  import opened ImageInfo
  import opened ManifestPush

  /** How the language turns a text into lower case, and the characters a tag may have. */
  datatype Spelling = Spelling(lower: string -> string, legal: char -> bool)

  // ---- cleaning tags

  /** A hyphen in place of every longest run of illegal characters. */
  function Hyphenated(sp: Spelling, s: string): string {
    if s == "" then ""
    else if sp.legal(s[0]) then [s[0]] + Hyphenated(sp, s[1..])
    else if |s| > 1 && !sp.legal(s[1]) then Hyphenated(sp, s[1..])
    else "-" + Hyphenated(sp, s[1..])
  }

  function SanitizeTag(sp: Spelling, tag: string): string {
    Hyphenated(sp, sp.lower(tag))
  }

  ghost predicate AllLegal(sp: Spelling, s: string) {
    forall c :: c in s ==> sp.legal(c)
  }

  ghost predicate DrawnFrom(t: string, s: string) {
    forall c :: c in t ==> c in s || c == '-'
  }

  /** Characters that lower-casing leaves, hyphens and colons included. */
  ghost predicate AllLow(sp: Spelling, t: string) {
    forall c :: c in t ==> c == '-' || c == ':' || exists s :: c in sp.lower(s)
  }

  /** A text in lower case stays as it is. */
  ghost predicate KeepsLower(sp: Spelling) {
    forall t :: AllLow(sp, t) ==> sp.lower(t) == t
  }

  /** What is used of the language: no colon comes up in lower case, and colons are illegal in a tag. */
  ghost predicate Lawful(sp: Spelling) {
    && KeepsLower(sp) && sp.legal('-') && !sp.legal(':')
    && forall s :: ':' in sp.lower(s) ==> ':' in s
  }

  lemma DrawnIsLow(sp: Spelling, t: string, s: string)
    requires KeepsLower(sp) && DrawnFrom(t, sp.lower(s))
    ensures AllLow(sp, t) && sp.lower(t) == t
  {
  }

  lemma {:induction false} HyphenatedIsLegal(sp: Spelling, s: string)
    requires sp.legal('-')
    ensures AllLegal(sp, Hyphenated(sp, s)) && DrawnFrom(Hyphenated(sp, s), s)
    ensures Hyphenated(sp, s) == s <==> AllLegal(sp, s)
  {
    if s != "" {
      HyphenatedIsLegal(sp, s[1..]);
      assert s == [s[0]] + s[1..];
      assert forall c :: c in s <==> c == s[0] || c in s[1..];
    }
  }

  ghost predicate AllIllegal(sp: Spelling, s: string) {
    forall c :: c in s ==> !sp.legal(c)
  }

  /** A longest run of illegal characters becomes one hyphen, wherever it stands. */
  lemma {:induction false} RunBecomesHyphen(sp: Spelling, a: string, run: string, b: string)
    requires run != "" && AllIllegal(sp, run)
    requires (a != "" ==> sp.legal(a[|a| - 1])) && (b != "" ==> sp.legal(b[0]))
    ensures Hyphenated(sp, a + run + b) == Hyphenated(sp, a) + "-" + Hyphenated(sp, b)
    decreases |a| + |run|
  {
    var s := a + run + b;
    if a != "" {
      assert s[0] == a[0] && s[1..] == a[1..] + run + b && |s| > 1;
      assert s[1] == if |a| > 1 then a[1] else run[0];
      assert a[1..] != "" ==> a[1..][|a| - 2] == a[|a| - 1];
      RunBecomesHyphen(sp, a[1..], run, b);
    } else {
      assert run[0] in run && s[0] == run[0] && s[1..] == run[1..] + b && Hyphenated(sp, a) == "";
      if |run| > 1 {
        assert run[1] in run && s[1] == run[1];
        assert "" + run[1..] + b == s[1..];
        RunBecomesHyphen(sp, "", run[1..], b);
      } else {
        assert run[1..] + b == b;
        assert |s| > 1 ==> s[1] == b[0];
      }
    }
  }

  lemma SanitizedTag(sp: Spelling, tag: string)
    requires Lawful(sp)
    ensures SanitizeTag(sp, SanitizeTag(sp, tag)) == SanitizeTag(sp, tag)
    ensures ':' !in SanitizeTag(sp, tag)
    ensures SanitizeTag(sp, tag) == tag <==> sp.lower(tag) == tag && AllLegal(sp, tag)
  {
    hide Hyphenated;
    var clean := SanitizeTag(sp, tag);
    HyphenatedIsLegal(sp, sp.lower(tag));
    DrawnIsLow(sp, clean, tag);
    HyphenatedIsLegal(sp, clean);
  }

  // ---- the references of one entry

  function Sanitized(sp: Spelling, tags: seq<string>): seq<string> {
    seq(|tags|, i requires 0 <= i < |tags| => SanitizeTag(sp, tags[i]))
  }

  predicate IsCut(repository: string) {
    0 < FirstColon(repository) < |repository|
  }

  /** The repository and the tags an entry is published under. */
  function Definition(sp: Spelling, p: Push): Push {
    var repository, tags := sp.lower(p.repository), Sanitized(sp, p.tags);
    if IsCut(repository) then
      var k := FirstColon(repository);
      Push(repository[..k], WithTag(tags, repository[k + 1..]))
    else Push(repository, tags)
  }

  function PublishedOf(sp: Spelling, p: Push): seq<string> {
    var d := Definition(sp, p);
    Tagged(d.repository, d.tags)
  }

  /** The repository is published up to its first colon, unless that comes first, and what follows is one more tag. */
  lemma DefinitionMeaning(sp: Spelling, p: Push, front: string, rest: string)
    requires ':' !in front
    ensures Sanitized(sp, p.tags) == Definition(sp, p).tags[..|p.tags|]
    ensures sp.lower(p.repository) == front ==>
      Definition(sp, p).repository == front && |Definition(sp, p).tags| == |p.tags|
    ensures sp.lower(p.repository) == front + ":" + rest && front != "" ==>
      && Definition(sp, p).repository == front
      && Definition(sp, p).tags[|p.tags|..] == if rest in Sanitized(sp, p.tags) then [] else [rest]
    ensures sp.lower(p.repository) == ":" + rest ==>
      Definition(sp, p).repository == ":" + rest && |Definition(sp, p).tags| == |p.tags|
  {
    hide SanitizeTag;
    var low := sp.lower(p.repository);
    ColonAt(front, rest);
    assert (front + ":" + rest)[..|front|] == front && (front + ":" + rest)[|front| + 1..] == rest;
    if ':' !in low {
      assert FirstColon(low) == |low|;
    }
  }

  class RepoDefinition {
    var repository: string
    var tags: seq<string>

    function Value(): Push
      reads this
    {
      Push(repository, tags)
    }

    constructor (sp: Spelling, p: Push)
      ensures Value() == Definition(sp, p)
    {
      var repo, cleaned := sp.lower(p.repository), Sanitized(sp, p.tags);
      var tagIndex := FirstColon(repo);
      if 0 < tagIndex < |repo| {
        var tag := repo[tagIndex + 1..];
        if tag !in cleaned {
          cleaned := cleaned + [tag];
        }
        repo := repo[..tagIndex];
      }
      repository, tags := repo, cleaned;
    }
  }

  /** An entry that is published under exactly the references it spells out. */
  ghost predicate NormalForm(sp: Spelling, p: Push) {
    && sp.lower(p.repository) == p.repository
    && if p.tags == [] then IsCut(p.repository)
       else !IsCut(p.repository) && forall t :: t in p.tags ==> SanitizeTag(sp, t) == t
  }

  lemma CutTogether(repository: string)
    requires IsCut(repository)
    ensures var k := FirstColon(repository); repository[..k] + ":" + repository[k + 1..] == repository
  {
  }

  /** A text in lower case does not begin with a text that is not, and it is no longer than itself. */
  lemma NothingBehind(sp: Spelling, repository: string, rest: string)
    requires Lawful(sp)
    ensures sp.lower(repository) != repository + ":" + rest
  {
    assert DrawnFrom(repository, repository + ":" + rest);
    if DrawnFrom(repository, sp.lower(repository)) {
      DrawnIsLow(sp, repository, repository);
    }
  }

  lemma SameFront(sp: Spelling, repository: string, clean: string, tag: string)
    requires Lawful(sp) && ':' !in clean
    ensures sp.lower(repository) + ":" + clean == repository + ":" + tag <==>
      sp.lower(repository) == repository && clean == tag
  {
    var low := sp.lower(repository);
    var a, b := low + ":" + clean, repository + ":" + tag;
    assert b[|repository|] == ':' && b[..|repository|] == repository && b[|repository| + 1..] == tag;
    assert a[|low| + 1..] == clean && forall k :: |low| < k < |a| ==> a[k] == clean[k - |low| - 1];
    if a == b && |low| >= |repository| {
      assert a[..|repository|] == low[..|repository|];
      DrawnIsLow(sp, repository, repository);
    }
  }

  lemma UncutEntry(sp: Spelling, p: Push, i: nat)
    requires Lawful(sp) && !IsCut(sp.lower(p.repository)) && i < |p.tags|
    ensures PublishedOf(sp, p)[i] == RefsOf(p)[i] <==>
      sp.lower(p.repository) == p.repository && SanitizeTag(sp, p.tags[i]) == p.tags[i]
  {
    hide SanitizeTag, IsCut;
    SanitizedTag(sp, p.tags[i]);
    SameFront(sp, p.repository, SanitizeTag(sp, p.tags[i]), p.tags[i]);
  }

  lemma CutEntry(sp: Spelling, p: Push)
    requires Lawful(sp) && IsCut(sp.lower(p.repository)) && p.tags != []
    ensures PublishedOf(sp, p) != RefsOf(p)
  {
    hide SanitizeTag, FirstColon, Lawful;
    var low := sp.lower(p.repository);
    var cut := low[FirstColon(low) + 1..];
    CutTogether(low);
    if cut in Sanitized(sp, p.tags) {
      var i :| 0 <= i < |p.tags| && Sanitized(sp, p.tags)[i] == cut;
      assert PublishedOf(sp, p)[i] == low;
      NothingBehind(sp, p.repository, p.tags[i]);
    }
  }

  lemma AsSpelledExactlyWhen(sp: Spelling, p: Push)
    requires Lawful(sp)
    ensures PublishedOf(sp, p) == RefsOf(p) <==> NormalForm(sp, p)
  {
    hide SanitizeTag, FirstColon, Lawful;
    var low := sp.lower(p.repository);
    if p.tags == [] {
      if IsCut(low) {
        CutTogether(low);
        assert WithTag([], low[FirstColon(low) + 1..]) == [low[FirstColon(low) + 1..]];
        assert PublishedOf(sp, p) == [low];
      }
    } else if IsCut(low) {
      CutEntry(sp, p);
    } else {
      assert |PublishedOf(sp, p)| == |RefsOf(p)| == |p.tags|;
      forall i | 0 <= i < |p.tags|
        ensures PublishedOf(sp, p)[i] == RefsOf(p)[i] <==>
          low == p.repository && SanitizeTag(sp, p.tags[i]) == p.tags[i]
      {
        UncutEntry(sp, p, i);
      }
      if PublishedOf(sp, p) == RefsOf(p) {
        assert PublishedOf(sp, p)[0] == RefsOf(p)[0];
        forall t | t in p.tags ensures SanitizeTag(sp, t) == t {
          var i :| 0 <= i < |p.tags| && p.tags[i] == t;
          assert PublishedOf(sp, p)[i] == RefsOf(p)[i];
        }
      }
      if NormalForm(sp, p) {
        assert forall i :: 0 <= i < |p.tags| ==> p.tags[i] in p.tags;
      }
    }
  }

  // ---- the references of whole steps

  function PublishedAll(sp: Spelling, pushes: seq<Push>): seq<string> {
    if pushes == [] then []
    else PublishedAll(sp, pushes[..|pushes| - 1]) + PublishedOf(sp, pushes[|pushes| - 1])
  }

  /** All references that multi-platform steps publish, repetitions included. */
  function PublishedRefs(sp: Spelling, steps: seq<Step>): seq<string> {
    if steps == [] then []
    else
      var s := steps[|steps| - 1];
      PublishedRefs(sp, steps[..|steps| - 1]) +
      if IsMultiPlatform(s) then PublishedAll(sp, s.push) + PublishedAll(sp, s.commit) else []
  }

  /** The entries as they are published; one without any tag is not. */
  function Defined(sp: Spelling, pushes: seq<Push>): seq<Push> {
    if pushes == [] then []
    else
      var d := Definition(sp, pushes[|pushes| - 1]);
      Defined(sp, pushes[..|pushes| - 1]) + if d.tags == [] then [] else [d]
  }

  function Normalised(sp: Spelling, steps: seq<Step>): (normal: seq<Step>)
    ensures |normal| == |steps|
  {
    seq(|steps|, i requires 0 <= i < |steps| =>
      steps[i].(push := Defined(sp, steps[i].push), commit := Defined(sp, steps[i].commit)))
  }

  lemma {:induction false} DefinedRefs(sp: Spelling, pushes: seq<Push>)
    ensures Refs(Defined(sp, pushes)) == PublishedAll(sp, pushes)
    decreases |pushes|
  {
    hide Definition;
    if pushes != [] {
      var front, d := pushes[..|pushes| - 1], Definition(sp, pushes[|pushes| - 1]);
      DefinedRefs(sp, front);
      if d.tags != [] {
        assert (Defined(sp, front) + [d])[..|Defined(sp, front)|] == Defined(sp, front);
      } else {
        assert PublishedAll(sp, front) + [] == PublishedAll(sp, front) && Defined(sp, front) + [] == Defined(sp, front);
      }
    }
  }

  /** What is published is what the normalised steps spell out. */
  lemma {:induction false} NormalisedRefs(sp: Spelling, steps: seq<Step>)
    ensures PublishedRefs(sp, steps) == DestinationRefs(Normalised(sp, steps))
    decreases |steps|
  {
    hide Refs, Defined, PublishedAll;
    if steps != [] {
      var n := |steps| - 1;
      NormalisedRefs(sp, steps[..n]);
      assert Normalised(sp, steps)[..n] == Normalised(sp, steps[..n]);
      DefinedRefs(sp, steps[n].push);
      DefinedRefs(sp, steps[n].commit);
    }
  }

  /** The steps with their commits in place of their pushes. */
  function Commits(steps: seq<Step>): (committing: seq<Step>)
    ensures |committing| == |steps|
  {
    seq(|steps|, i requires 0 <= i < |steps| => steps[i].(push := steps[i].commit))
  }

  /** All references that multi-platform steps spell out: what they push and what they commit. */
  function DestinationRefs(steps: seq<Step>): seq<string> {
    if steps == [] then []
    else
      var s := steps[|steps| - 1];
      DestinationRefs(steps[..|steps| - 1]) + if IsMultiPlatform(s) then Refs(s.push) + Refs(s.commit) else []
  }

  ghost predicate Disjoint(a: seq<string>, b: seq<string>) {
    forall x :: x in a ==> x !in b
  }

  lemma {:induction false} DestinationParts(steps: seq<Step>)
    ensures Composed(DestinationRefs(steps), MultiPlatformRefs(steps), MultiPlatformRefs(Commits(steps)))
    decreases |steps|
  {
    hide Refs, NoDup, Composed;
    if steps == [] {
      NothingMade();
    } else {
      var n := |steps| - 1;
      var front, last := steps[..n], steps[n];
      DestinationParts(front);
      assert Commits(steps)[..n] == Commits(front) && Commits(steps)[n] == last.(push := last.commit);
      if IsMultiPlatform(last) {
        TwoParts(DestinationRefs(front), MultiPlatformRefs(front), MultiPlatformRefs(Commits(front)),
                 Refs(last.push), Refs(last.commit));
      } else {
        assert DestinationRefs(front) + [] == DestinationRefs(front);
        assert MultiPlatformRefs(front) + [] == MultiPlatformRefs(front);
        assert MultiPlatformRefs(Commits(front)) + [] == MultiPlatformRefs(Commits(front));
      }
    }
  }

  ghost predicate Composed(all: seq<string>, pushed: seq<string>, committed: seq<string>) {
    && (forall x :: x in all <==> x in pushed || x in committed)
    && (NoDup(all) <==> NoDup(pushed) && NoDup(committed) && Disjoint(pushed, committed))
  }

  lemma NothingMade()
    ensures Composed([], [], [])
  {
  }

  lemma TwoParts(all: seq<string>, pushed: seq<string>, committed: seq<string>, p: seq<string>, c: seq<string>)
    requires Composed(all, pushed, committed)
    ensures Composed(all + (p + c), pushed + p, committed + c)
  {
    hide NoDup;
    NoDupConcat(all, p + c);
    NoDupConcat(p, c);
    NoDupConcat(pushed, p);
    NoDupConcat(committed, c);
    assert Disjoint(pushed + p, committed + c) <==>
      Disjoint(pushed, committed) && Disjoint(pushed, c) && Disjoint(p, committed) && Disjoint(p, c) by {
      assert forall x :: x in pushed + p <==> x in pushed || x in p;
      assert forall x :: x in committed + c <==> x in committed || x in c;
    }
    assert (forall x :: x in all ==> x !in p + c) <==>
      Disjoint(pushed, p) && Disjoint(pushed, c) && Disjoint(committed, p) && Disjoint(committed, c);
    assert Disjoint(p, committed) <==> Disjoint(committed, p);
  }

  /** Every reference is published once by the multi-platform steps exactly when, in normal form, none repeats within
      or across their push sections, nor within or across their commit sections, nor between the two. And no
      single-platform step pushes one of them exactly when none pushes a pushed or a committed one. */
  lemma PublishedOnceExactlyWhen(sp: Spelling, steps: seq<Step>)
    ensures var normal := Normalised(sp, steps);
      NoDup(PublishedRefs(sp, steps)) <==>
        && DistinctWithin(normal) && DistinctAcross(normal)
        && DistinctWithin(Commits(normal)) && DistinctAcross(Commits(normal))
        && Disjoint(MultiPlatformRefs(normal), MultiPlatformRefs(Commits(normal)))
    ensures var normal := Normalised(sp, steps);
      SinglesApart(normal, Elems(PublishedRefs(sp, steps))) <==>
        SinglesApart(normal, Elems(MultiPlatformRefs(normal)))
        && SinglesApart(normal, Elems(MultiPlatformRefs(Commits(normal))))
  {
    hide NoDup, Refs, DistinctWithin, DistinctAcross, Normalised;
    var normal := Normalised(sp, steps);
    NormalisedRefs(sp, steps);
    DestinationParts(normal);
    DistinctRefs(normal);
    DistinctRefs(Commits(normal));
  }

  ghost predicate AllNormal(sp: Spelling, pushes: seq<Push>) {
    forall p :: p in pushes ==> NormalForm(sp, p)
  }

  /** Every entry of a multi-platform step is published as spelled. */
  ghost predicate NormalSteps(sp: Spelling, steps: seq<Step>) {
    forall i :: 0 <= i < |steps| && IsMultiPlatform(steps[i]) ==>
      AllNormal(sp, steps[i].push) && AllNormal(sp, steps[i].commit)
  }

  lemma {:induction false} AllAsSpelled(sp: Spelling, pushes: seq<Push>)
    requires Lawful(sp) && AllNormal(sp, pushes)
    ensures PublishedAll(sp, pushes) == Refs(pushes)
    decreases |pushes|
  {
    hide NormalForm, PublishedOf, RefsOf, Lawful;
    if pushes != [] {
      AllAsSpelled(sp, pushes[..|pushes| - 1]);
      AsSpelledExactlyWhen(sp, pushes[|pushes| - 1]);
    }
  }

  lemma {:induction false} StepsAsSpelled(sp: Spelling, steps: seq<Step>)
    requires Lawful(sp) && NormalSteps(sp, steps)
    ensures PublishedRefs(sp, steps) == DestinationRefs(steps)
    decreases |steps|
  {
    hide Lawful, AllNormal, Refs, PublishedAll;
    if steps != [] {
      var n := |steps| - 1;
      assert forall i :: 0 <= i < n ==> steps[..n][i] == steps[i];
      StepsAsSpelled(sp, steps[..n]);
      if IsMultiPlatform(steps[n]) {
        AllAsSpelled(sp, steps[n].push);
        AllAsSpelled(sp, steps[n].commit);
      }
    }
  }

  /** Where all entries are in normal form, the checks cover what is pushed: an accepted configuration publishes every
      reference once exactly when no committed one repeats, within a step or between two, and none is pushed as well. */
  lemma AcceptedNormalSteps(sp: Spelling, steps: seq<Step>, legacyBuilder: bool)
    requires Lawful(sp) && NormalSteps(sp, steps) && Acceptable(steps, legacyBuilder)
    ensures NoDup(PublishedRefs(sp, steps)) <==>
      && DistinctWithin(Commits(steps)) && DistinctAcross(Commits(steps))
      && Disjoint(MultiPlatformRefs(steps), MultiPlatformRefs(Commits(steps)))
  {
    hide NoDup, Refs, DistinctWithin, DistinctAcross, AllWellFormed, NothingRetagged, SourcesKnown, Lawful, NormalSteps;
    StepsAsSpelled(sp, steps);
    DestinationParts(steps);
    DistinctRefs(Commits(steps));
    if !AnyMultiPlatform(steps) {
      NoMultiPlatform(steps);
      NothingRepeats<string>();
    }
  }

  lemma {:induction false} NoMultiPlatform(steps: seq<Step>)
    requires !AnyMultiPlatform(steps)
    ensures MultiPlatformRefs(steps) == []
    decreases |steps|
  {
    if steps != [] {
      var n := |steps| - 1;
      assert !IsMultiPlatform(steps[n]);
      assert forall i :: 0 <= i < n ==> steps[..n][i] == steps[i] && !IsMultiPlatform(steps[i]);
      NoMultiPlatform(steps[..n]);
    }
  }

  // ---- configurations that are accepted and publish an image twice

  /** Two multi-platform steps: one pushes an image, the other pushes or commits one. */
  function TwoImages(x: Push, y: Push, commit: bool, base: string): seq<Step> {
    var build := Build(None, Some(["linux/amd64"]), NoCache, "", false, Some(base));
    [Step("a", Some(build), None, [x], []),
     if commit then Step("b", Some(build), None, [], [y]) else Step("b", Some(build), None, [y], [])]
  }

  lemma TwoImagesAccepted(a: string, b: string, tag: string, commit: bool, base: string)
    requires commit || a != b
    ensures Acceptable(TwoImages(Push(a, [tag]), Push(b, [tag]), commit, base), true)
  {
    hide Refs, RefsOf;
    var steps := TwoImages(Push(a, [tag]), Push(b, [tag]), commit, base);
    OneRef(a, tag);
    OneRef(b, tag);
    NoRefs({});
    if a != b {
      OtherRepository(a, b, tag);
    }
    var front := steps[..1];
    assert front[..0] == [] && front[0].push == [Push(a, [tag])];
    assert MultiPlatformRefs(front) == [] + [a + ":" + tag];
    assert MultiPlatformRefs(steps) == [a + ":" + tag] + if commit then [] else [b + ":" + tag];
  }

  lemma OtherRepository(a: string, b: string, tag: string)
    requires a != b
    ensures a + ":" + tag != b + ":" + tag
  {
    assert |a| == |b| ==> (a + ":" + tag)[..|a|] == a && (b + ":" + tag)[..|b|] == b;
  }

  lemma TwoImagesPublished(sp: Spelling, x: Push, y: Push, commit: bool, base: string)
    requires PublishedOf(sp, x) == PublishedOf(sp, y) != []
    ensures !NoDup(PublishedRefs(sp, TwoImages(x, y, commit, base)))
  {
    hide PublishedOf;
    var steps := TwoImages(x, y, commit, base);
    var front, refs := steps[..1], PublishedOf(sp, x);
    assert [x][..0] == [] && [y][..0] == [] && front[..0] == [];
    assert PublishedAll(sp, [x]) == [] + refs && PublishedAll(sp, [y]) == [] + refs && PublishedAll(sp, []) == [];
    assert PublishedRefs(sp, front) == [] + (refs + []);
    assert PublishedRefs(sp, steps) == refs + refs;
    assert (refs + refs)[0] == (refs + refs)[|refs|];
  }

  /** One step pushes an image and another one commits it. */
  lemma PublishedTwice(sp: Spelling, repository: string, tag: string, base: string)
    ensures var steps := TwoImages(Push(repository, [tag]), Push(repository, [tag]), true, base);
      Acceptable(steps, true) && !NoDup(PublishedRefs(sp, steps))
  {
    hide Acceptable, TwoImages, NoDup, Definition, PublishedRefs;
    TwoImagesAccepted(repository, repository, tag, true, base);
    IsPublished(sp, Push(repository, [tag]));
    TwoImagesPublished(sp, Push(repository, [tag]), Push(repository, [tag]), true, base);
  }

  lemma IsPublished(sp: Spelling, p: Push)
    requires p.tags != []
    ensures PublishedOf(sp, p) != []
  {
  }

  /** Two steps push an image under two spellings of one repository: all spelled references differ. */
  lemma SpellingsPublishedTwice(sp: Spelling, a: string, b: string, tag: string, base: string)
    requires a != b && sp.lower(a) == sp.lower(b)
    ensures var steps := TwoImages(Push(a, [tag]), Push(b, [tag]), false, base);
      Acceptable(steps, true) && !NoDup(PublishedRefs(sp, steps))
  {
    hide Acceptable, TwoImages, NoDup, PublishedRefs;
    TwoImagesAccepted(a, b, tag, false, base);
    IsPublished(sp, Push(a, [tag]));
    TwoImagesPublished(sp, Push(a, [tag]), Push(b, [tag]), false, base);
  }

  function LowerAscii(s: string): (low: string)
    ensures |low| == |s|
    ensures forall i :: 0 <= i < |s| ==> low[i] == if 'A' <= s[i] <= 'Z' then s[i] - 'A' + 'a' else s[i]
  {
    seq(|s|, i requires 0 <= i < |s| => if 'A' <= s[i] <= 'Z' then s[i] - 'A' + 'a' else s[i])
  }

  predicate IsWord(c: char) {
    'a' <= c <= 'z' || 'A' <= c <= 'Z' || '0' <= c <= '9' || c == '_' || c == '-' || c == '.'
  }

  /** Plain letters: what an image reference is made of. */
  const ASCII := Spelling(LowerAscii, IsWord)

  lemma AsciiIsLawful()
    ensures Lawful(ASCII)
  {
    forall t | AllLow(ASCII, t) ensures LowerAscii(t) == t {
      forall i | 0 <= i < |t| ensures LowerAscii(t)[i] == t[i] {
        assert t[i] in t;
      }
    }
  }

  /** One step pushes `Img:v` and another one `img:v`. */
  lemma ImgPublishedTwice(base: string)
    ensures var steps := TwoImages(Push("Img", ["v"]), Push("img", ["v"]), false, base);
      Acceptable(steps, true) && !NoDup(PublishedRefs(ASCII, steps))
  {
    assert LowerAscii("Img") == LowerAscii("img");
    SpellingsPublishedTwice(ASCII, "Img", "img", "v", base);
  }

  lemma OneRef(repository: string, tag: string)
    ensures Refs([Push(repository, [tag])]) == [repository + ":" + tag]
  {
    var image := Push(repository, [tag]);
    assert [image][..0] == [];
    assert RefsOf(image) == [repository + ":" + tag];
  }

  // ---- from the entries of a step to the manifests

  function TaggedAs(sp: Spelling, pushes: seq<Push>): (tagged: seq<TaggedImage>)
    ensures |tagged| == |pushes|
  {
    seq(|pushes|, i requires 0 <= i < |pushes| =>
      TaggedImage(Definition(sp, pushes[i]).repository, Definition(sp, pushes[i]).tags))
  }

  /** The task that tags what a step has built: the push section, or the commit section with `commitOnly`. */
  class PushBuildStepRunnerTask {
    const sp: Spelling
    const pushes: seq<Push>
    const commitOnly: bool
    var repos: seq<RepoDefinition>

    ghost predicate Valid()
      reads this, repos
    {
      |repos| == |pushes| && forall i :: 0 <= i < |repos| ==> repos[i].Value() == Definition(sp, pushes[i])
    }

    constructor (sp: Spelling, pushes: seq<Push>, commitOnly: bool)
      ensures Valid() && this.sp == sp && this.pushes == pushes && this.commitOnly == commitOnly && fresh(repos)
    {
      this.sp, this.pushes, this.commitOnly := sp, pushes, commitOnly;
      repos := [];
      new;
      hide Definition;
      for i := 0 to |pushes|
        invariant |repos| == i && fresh(repos) && this.pushes == pushes && this.sp == sp
        invariant forall j :: 0 <= j < i ==> repos[j].Value() == Definition(sp, pushes[j])
      {
        var repo := new RepoDefinition(sp, pushes[i]);
        repos := repos + [repo];
      }
    }

    /** Tags a multi-platform image. Naming the first tag of an artifact raises when there is none. */
    method TagImages(built: BuiltImageInfo, committed: set<string>) returns (committedImages: set<string>, ok: bool)
      requires Valid() && built.Valid()
      modifies built`taggedImages
      ensures Valid() && built.Valid()
      ensures ok <==> commitOnly || forall i :: 0 <= i < |pushes| ==> Definition(sp, pushes[i]).tags != []
      ensures ok ==> built.taggedImages == old(built.taggedImages) + TaggedAs(sp, pushes)
      ensures ok ==> committedImages == committed + Elems(PublishedAll(sp, pushes))
      ensures !ok ==> exists n ::
        UpTo(old(built.taggedImages), built.taggedImages, committed, committedImages, n)
    {
      hide Definition, PublishedOf, IsCut;
      committedImages := committed;
      assert TaggedAs(sp, pushes[..0]) == [];
      for i := 0 to |repos|
        invariant built.taggedImages == old(built.taggedImages) + TaggedAs(sp, pushes)[..i] && built.Valid()
        invariant committedImages == committed + Elems(PublishedAll(sp, pushes[..i]))
        invariant commitOnly || forall j :: 0 <= j < i ==> Definition(sp, pushes[j]).tags != []
      {
        var repo := repos[i];
        PublishedNext(sp, pushes, i);
        committedImages := TagOne(repo, built, committedImages);
        if !commitOnly && repo.tags == [] {
          assert UpTo(old(built.taggedImages), built.taggedImages, committed, committedImages, i);
          return committedImages, false;
        }
      }
      assert pushes[..|pushes|] == pushes;
      ok := true;
    }

    method TagOne(repo: RepoDefinition, built: BuiltImageInfo, committed: set<string>) returns (all: set<string>)
      requires built.Valid()
      modifies built`taggedImages
      ensures built.Valid()
      ensures built.taggedImages == old(built.taggedImages) + [TaggedImage(repo.repository, repo.tags)]
      ensures all == committed + Elems(TaggedImage(repo.repository, repo.tags).ImageRefs())
    {
      built.AddTaggedImage(repo.repository, repo.tags);
      all := AddAll(committed, TaggedImage(repo.repository, repo.tags).ImageRefs());
    }

    method AddAll(images: set<string>, refs: seq<string>) returns (all: set<string>)
      ensures all == images + Elems(refs)
    {
      all := images;
      for i := 0 to |refs|
        invariant all == images + Elems(refs[..i])
      {
        all := all + {refs[i]};
        assert refs[..i + 1] == refs[..i] + [refs[i]];
      }
      assert refs[..|refs|] == refs;
    }

    /** The tagging went on up to the `n`-th entry, the first without a tag. */
    ghost predicate UpTo(before: seq<TaggedImage>, after: seq<TaggedImage>, committed: set<string>,
                         committedImages: set<string>, n: int)
    {
      && 0 <= n < |pushes| && Definition(sp, pushes[n]).tags == []
      && (forall i :: 0 <= i < n ==> Definition(sp, pushes[i]).tags != [])
      && after == before + TaggedAs(sp, pushes[..n + 1])
      && committedImages == committed + Elems(PublishedAll(sp, pushes[..n + 1]))
    }
  }

  lemma PublishedNext(sp: Spelling, pushes: seq<Push>, i: nat)
    requires i < |pushes|
    ensures var d := Definition(sp, pushes[i]);
      && PublishedAll(sp, pushes[..i + 1])
           == PublishedAll(sp, pushes[..i]) + TaggedImage(d.repository, d.tags).ImageRefs()
      && TaggedAs(sp, pushes)[..i + 1] == TaggedAs(sp, pushes)[..i] + [TaggedImage(d.repository, d.tags)]
      && TaggedAs(sp, pushes[..i]) == TaggedAs(sp, pushes)[..i]
      && TaggedAs(sp, pushes[..i + 1]) == TaggedAs(sp, pushes)[..i + 1]
  {
    hide Definition;
    assert pushes[..i + 1][..i] == pushes[..i];
  }

  /** The builds of the multi-platform steps, tagged by their push and commit sections. */
  function StepViews(sp: Spelling, steps: seq<Step>, sources: seq<seq<string>>): seq<View>
    requires |sources| == |steps|
  {
    if steps == [] then []
    else
      var n := |steps| - 1;
      var s := steps[n];
      StepViews(sp, steps[..n], sources[..n]) +
      if IsMultiPlatform(s) then [View(sources[n], TaggedAs(sp, s.push) + TaggedAs(sp, s.commit))] else []
  }

  function Tags(manifests: seq<Manifest>): seq<string> {
    seq(|manifests|, i requires 0 <= i < |manifests| => manifests[i].tag)
  }

  lemma TagsConcat(a: seq<Manifest>, b: seq<Manifest>)
    ensures Tags(a + b) == Tags(a) + Tags(b)
  {
  }

  lemma {:induction false} TaggedManifests(sp: Spelling, sources: seq<string>, before: seq<TaggedImage>,
                                           pushes: seq<Push>)
    ensures Tags(ForTagged(sources, before + TaggedAs(sp, pushes)))
      == Tags(ForTagged(sources, before)) + PublishedAll(sp, pushes)
    decreases |pushes|
  {
    hide ForTagged, TaggedAs, PublishedAll, Definition, Tags;
    NoneTagged(sp, before);
    if pushes != [] {
      var n := |pushes| - 1;
      var d := Definition(sp, pushes[n]);
      var front := TaggedAs(sp, pushes[..n]);
      TaggedManifests(sp, sources, before, pushes[..n]);
      PublishedNext(sp, pushes, n);
      assert pushes[..n + 1] == pushes && TaggedAs(sp, pushes)[..n + 1] == TaggedAs(sp, pushes);
      assert TaggedAs(sp, pushes)[..n] == front;
      OneMoreTagged(sources, before + front, TaggedImage(d.repository, d.tags));
      assert before + TaggedAs(sp, pushes) == before + front + [TaggedImage(d.repository, d.tags)];
    }
  }

  lemma NoneTagged(sp: Spelling, before: seq<TaggedImage>)
    ensures before + TaggedAs(sp, []) == before && PublishedAll(sp, []) == []
  {
  }

  lemma OneMoreTagged(sources: seq<string>, tagged: seq<TaggedImage>, image: TaggedImage)
    ensures Tags(ForTagged(sources, tagged + [image])) == Tags(ForTagged(sources, tagged)) + image.ImageRefs()
  {
    assert (tagged + [image])[..|tagged|] == tagged;
    TagsConcat(ForTagged(sources, tagged), Manifests(sources, image.ImageRefs()));
    assert Tags(Manifests(sources, image.ImageRefs())) == image.ImageRefs();
  }

  /** The manifests of a build that tagged everything are wanted under exactly the published references, in order. */
  lemma {:induction false} ManifestsArePublished(sp: Spelling, steps: seq<Step>, sources: seq<seq<string>>)
    requires |sources| == |steps|
    ensures Tags(ForAll(StepViews(sp, steps, sources))) == PublishedRefs(sp, steps)
    decreases |steps|
  {
    hide Definition, ForTagged, PublishedAll, TaggedAs;
    if steps != [] {
      var n := |steps| - 1;
      var s, views := steps[n], StepViews(sp, steps[..n], sources[..n]);
      ManifestsArePublished(sp, steps[..n], sources[..n]);
      if IsMultiPlatform(s) {
        var tagged := TaggedAs(sp, s.push) + TaggedAs(sp, s.commit);
        NothingTagged(sources[n]);
        TaggedManifests(sp, sources[n], [], s.push);
        TaggedManifests(sp, sources[n], TaggedAs(sp, s.push), s.commit);
        assert [] + TaggedAs(sp, s.push) == TaggedAs(sp, s.push);
        assert (views + [View(sources[n], tagged)])[..|views|] == views;
        TagsConcat(ForAll(views), ForTagged(sources[n], tagged));
      } else {
        assert views + [] == views;
      }
    }
  }

  lemma NothingTagged(sources: seq<string>)
    ensures Tags(ForTagged(sources, [])) == []
  {
  }

  // ---- references given as text

  /** A reference given as text is really among those published for it exactly when it has a single colon, its
      repository is in lower case and its tag is clean. */
  lemma PublishedTextExactlyWhen(sp: Spelling, image: string, buildId: string)
    requires Lawful(sp) && Default(SaidText(image), SanitizeTag(sp, buildId)).Some?
    ensures var v := Default(SaidText(image), SanitizeTag(sp, buildId)).value.value;
      image in PublishedOf(sp, Push(v.repository, v.tags.tags)) <==>
        && ':' in image && Colons(image) == 1
        && sp.lower(Repository(image)) == Repository(image)
        && SanitizeTag(sp, Tag(image)) == Tag(image)
  {
    hide Repository, Tag, AfterColon, Colons, FirstColon, SanitizeTag, Lawful, IsCut;
    var tag := SanitizeTag(sp, buildId);
    var v := Default(SaidText(image), tag).value.value;
    var refs := PublishedOf(sp, Push(v.repository, v.tags.tags));
    TextIsNotCut(sp, image);
    SanitizedTag(sp, buildId);
    assert |refs| == |v.tags.tags|;
    if ':' !in image {
      forall i | 0 <= i < |refs| ensures refs[i] != image {
        assert refs[i][|sp.lower(v.repository)|] == ':';
      }
    } else {
      OneColon(image);
      TagIsRest(image);
      forall i | 0 <= i < |refs|
        ensures refs[i] == image <==>
          sp.lower(Repository(image)) == Repository(image) && SanitizeTag(sp, v.tags.tags[i]) == AfterColon(image)
      {
        SanitizedTag(sp, v.tags.tags[i]);
        AroundColon(image);
        SameFront(sp, Repository(image), SanitizeTag(sp, v.tags.tags[i]), AfterColon(image));
        assert image == Repository(image) + ":" + AfterColon(image);
      }
      assert v.tags.tags[0] == Tag(image);
      forall i | 0 <= i < |refs| && SanitizeTag(sp, v.tags.tags[i]) == AfterColon(image)
        ensures ':' !in AfterColon(image) && SanitizeTag(sp, Tag(image)) == Tag(image)
      {
        SanitizedTag(sp, v.tags.tags[i]);
      }
    }
  }

  /** The repository of a text has no colon, so nothing is cut off it. */
  lemma TextIsNotCut(sp: Spelling, image: string)
    requires Lawful(sp)
    ensures !IsCut(sp.lower(Repository(image)))
  {
    assert ':' !in Repository(image);
  }

  /** A reference with a registry port is not published at all: `host:5000/img:1` becomes `host:5000-img`. */
  lemma PortIsPublishedAsTag(sp: Spelling, host: string, port: string, path: string, version: string, buildId: string)
    requires Lawful(sp) && ':' !in host && ':' !in port && ':' !in path
    ensures var image, front := host + ":" + (port + "/" + path + (":" + version)), port + "/" + path;
      var tag := SanitizeTag(sp, buildId);
      var published := PublishedOf(sp, Push(host, WithTag([front], tag)));
      && Default(SaidText(image), tag) == Some(SaidDict(PushValue(host, TagList(WithTag([front], tag)), true)))
      && image !in published && sp.lower(host) + ":" + SanitizeTag(sp, front) in published
  {
    hide Default, SanitizeTag, Lawful, FirstColon, Colons;
    var image, front := host + ":" + (port + "/" + path + (":" + version)), port + "/" + path;
    var tag := SanitizeTag(sp, buildId);
    SanitizedTag(sp, buildId);
    PortIsTakenForTag(host, port, path, version, tag);
    TextKeepsReference(image, tag);
    PublishedTextExactlyWhen(sp, image, buildId);
    PlainIsNotCut(sp, host);
    var published := PublishedOf(sp, Push(host, WithTag([front], tag)));
    assert published[0] == sp.lower(host) + ":" + SanitizeTag(sp, front);
  }

  lemma PlainIsNotCut(sp: Spelling, repository: string)
    requires Lawful(sp) && ':' !in repository
    ensures !IsCut(sp.lower(repository))
  {
  }

  // ---- reuse of what is published

  /** What the image of a single-platform step starts from: the base of its build, the image it runs, or the image it
      runs although it has an image built or imported as well. */
  datatype Start = FromBase | FromRun | FromRunAfterBuild

  /** What is built without the legacy builder is tagged whatever is run afterwards. An imported image has no base. */
  function StartOf(s: Step, legacyBuilder: bool): (start: Option<Start>)
    ensures start == Some(FromRun) <==> s.build.None? && s.run.Some? && s.run.value.image != ""
    ensures start == Some(FromBase) <==>
      && s.build.Some? && s.build.value.imported == ""
      && !(legacyBuilder && s.run.Some? && s.run.value.image != "")
    ensures start == Some(FromRunAfterBuild) <==>
      && s.build.Some? && s.run.Some? && s.run.value.image != ""
      && (legacyBuilder || s.build.value.imported != "")
  {
    var runs := s.run.Some? && s.run.value.image != "";
    if s.build.None? then if runs then Some(FromRun) else None
    else if runs && (legacyBuilder || s.build.value.imported != "") then Some(FromRunAfterBuild)
    else if s.build.value.imported == "" then Some(FromBase)
    else None
  }

  /** The image a step really starts from: images to run are forced into lower case, with `latest` filled in. */
  function RealSource(sp: Spelling, s: Step, legacyBuilder: bool): Option<string> {
    match StartOf(s, legacyBuilder)
    case None => None
    case Some(FromBase) => s.build.value.base
    case Some(_) => Some(WithLatest(sp.lower(s.run.value.image)))
  }

  /** The `i`-th step, of a single platform and with a destination, starts in this way from an image that the `j`-th
      step, of several platforms, publishes for the entry. */
  ghost predicate Reuses(sp: Spelling, steps: seq<Step>, legacyBuilder: bool, i: nat, j: nat, p: Push, start: Start) {
    && i < |steps| && j < |steps| && !IsMultiPlatform(steps[i]) && IsMultiPlatform(steps[j])
    && DestinationImages(steps[i]) != [] && (p in steps[j].push || p in steps[j].commit)
    && StartOf(steps[i], legacyBuilder) == Some(start)
    && RealSource(sp, steps[i], legacyBuilder).Some?
    && RealSource(sp, steps[i], legacyBuilder).value in PublishedOf(sp, p)
  }

  /** No accepted configuration reuses in this way what is published for the entry. */
  ghost predicate Protected(sp: Spelling, p: Push, start: Start) {
    forall steps, legacyBuilder, i, j ::
      Acceptable(steps, legacyBuilder) ==> !Reuses(sp, steps, legacyBuilder, i, j, p, start)
  }

  lemma {:induction false} InRefs(pushes: seq<Push>, p: Push, ref: string)
    requires p in pushes && ref in RefsOf(p)
    ensures ref in Refs(pushes)
    decreases |pushes|
  {
    hide RefsOf;
    var front, last := pushes[..|pushes| - 1], pushes[|pushes| - 1];
    if p != last {
      InRefs(front, p, ref);
    }
  }

  /** What the check takes for the source is not among the references an entry of another step spells out. */
  lemma AcceptedSource(sp: Spelling, steps: seq<Step>, legacyBuilder: bool, i: nat, j: nat, p: Push, start: Start)
    requires Acceptable(steps, legacyBuilder) && Reuses(sp, steps, legacyBuilder, i, j, p, start)
    ensures steps[i].build.Some? ==> steps[i].build.value.base.Some?
    ensures SourceImage(steps[i]).Some? && SourceImage(steps[i]).value !in RefsOf(p)
  {
    hide RefsOf, Refs, PublishedOf;
    assert AnyMultiPlatform(steps) && SourcesKnown(steps) && !Retags(steps[i], steps[j]);
    var source := SourceImage(steps[i]).value;
    if source in RefsOf(p) {
      InRefs(if p in steps[j].push then steps[j].push else steps[j].commit, p, source);
    }
  }

  /** A multi-platform step that commits `p`, and a step that makes another image from a base or an image to run. */
  function CommitAnd(p: Push, base: Option<string>, image: string): seq<Step> {
    var build := Build(None, Some(["linux/amd64"]), NoCache, "", false, Some("scratch:latest"));
    [Step("a", Some(build), None, [], [p]),
     Step("b", if base.Some? then Some(Build(None, None, NoCache, "", false, base)) else None,
          if image == "" then None else Some(Run(image)), [], [Push("other", ["tag"])])]
  }

  lemma CommitAndAccepted(p: Push, base: Option<string>, image: string)
    requires var source := SourceImage(CommitAnd(p, base, image)[1]); source.Some? ==> source.value !in RefsOf(p)
    ensures var steps := CommitAnd(p, base, image); Acceptable(steps, true) && DestinationImages(steps[1]) != []
  {
    hide Refs, RefsOf, SourceImage, NoDup, Apart;
    var steps := CommitAnd(p, base, image);
    OneEntry(p);
    OneEntry(Push("other", ["tag"]));
    NoRefs({});
    assert steps[..1][..0] == [] && steps[..1][0] == steps[0];
    assert steps[0].push == [] && !IsMultiPlatform(steps[1]) && |steps| == 2;
    assert MultiPlatformRefs(steps[..1]) == [] + [];
    assert MultiPlatformRefs(steps) == [] + [];
    assert DestinationImages(steps[0]) == [] + RefsOf(p);
  }

  lemma OneEntry(p: Push)
    ensures Refs([p]) == RefsOf(p) && RefsOf(p) != []
  {
    assert [p][..0] == [] && [] + RefsOf(p) == RefsOf(p);
  }

  lemma Unprotected(sp: Spelling, p: Push, base: Option<string>, image: string, start: Start)
    requires var s := CommitAnd(p, base, image)[1];
      && (SourceImage(s).Some? ==> SourceImage(s).value !in RefsOf(p))
      && StartOf(s, true) == Some(start)
      && RealSource(sp, s, true).Some? && RealSource(sp, s, true).value in PublishedOf(sp, p)
    ensures var steps := CommitAnd(p, base, image);
      Acceptable(steps, true) && Reuses(sp, steps, true, 1, 0, p, start)
    ensures !Protected(sp, p, start)
  {
    hide Acceptable, PublishedOf, SourceImage, DestinationImages, RealSource, StartOf, RefsOf;
    CommitAndAccepted(p, base, image);
    var steps := CommitAnd(p, base, image);
    assert Acceptable(steps, true) && Reuses(sp, steps, true, 1, 0, p, start);
  }

  /** What is published for an entry is never built upon in an accepted configuration exactly when all of it is spelled
      out: in particular when the entry is in normal form. */
  lemma BaseProtectedExactlyWhen(sp: Spelling, p: Push)
    ensures Protected(sp, p, FromBase) <==> forall ref :: ref in PublishedOf(sp, p) ==> ref in RefsOf(p)
  {
    hide Acceptable, PublishedOf, RefsOf, CommitAnd;
    if ref :| ref in PublishedOf(sp, p) && ref !in RefsOf(p) {
      BaseOnly(sp, p, ref);
      Unprotected(sp, p, Some(ref), "", FromBase);
    } else {
      forall steps, legacyBuilder, i: nat, j: nat | Acceptable(steps, legacyBuilder)
        ensures !Reuses(sp, steps, legacyBuilder, i, j, p, FromBase)
      {
        if Reuses(sp, steps, legacyBuilder, i, j, p, FromBase) {
          AcceptedSource(sp, steps, legacyBuilder, i, j, p, FromBase);
        }
      }
    }
  }

  lemma BaseOnly(sp: Spelling, p: Push, base: string)
    ensures var s := CommitAnd(p, Some(base), "")[1];
      SourceImage(s) == RealSource(sp, s, true) == Some(base) && StartOf(s, true) == Some(FromBase)
  {
  }

  /** It is never run exactly when, in every spelling with the same name in lower case, it is spelled out. */
  lemma RunProtectedExactlyWhen(sp: Spelling, p: Push)
    ensures Protected(sp, p, FromRun) <==>
      forall image :: image != "" && WithLatest(sp.lower(image)) in PublishedOf(sp, p) ==>
        WithLatest(image) in RefsOf(p)
  {
    hide Acceptable, PublishedOf, RefsOf, CommitAnd, WithLatest;
    if image :| image != "" && WithLatest(sp.lower(image)) in PublishedOf(sp, p) && WithLatest(image) !in RefsOf(p) {
      RunOnly(sp, p, image);
      Unprotected(sp, p, None, image, FromRun);
    } else {
      forall steps, legacyBuilder, i: nat, j: nat | Acceptable(steps, legacyBuilder)
        ensures !Reuses(sp, steps, legacyBuilder, i, j, p, FromRun)
      {
        if Reuses(sp, steps, legacyBuilder, i, j, p, FromRun) {
          AcceptedSource(sp, steps, legacyBuilder, i, j, p, FromRun);
        }
      }
    }
  }

  lemma RunOnly(sp: Spelling, p: Push, image: string)
    requires image != ""
    ensures var s := CommitAnd(p, None, image)[1];
      && SourceImage(s) == Some(WithLatest(image)) && StartOf(s, true) == Some(FromRun)
      && RealSource(sp, s, true) == Some(WithLatest(sp.lower(image)))
  {
  }

  /** Where a step runs an image although it builds one as well, the check looks at the base only: then all that is
      published for an entry can be reused. */
  lemma RunAfterBuildProtectedExactlyWhen(sp: Spelling, p: Push)
    requires Lawful(sp)
    ensures Protected(sp, p, FromRunAfterBuild) <==> PublishedOf(sp, p) == []
  {
    hide Acceptable, PublishedOf, RefsOf, CommitAnd, Reuses;
    if PublishedOf(sp, p) != [] {
      var ref := PublishedOf(sp, p)[0];
      var base := OtherBase(RefsOf(p));
      PublishedIsLow(sp, p, 0);
      BaseAndRun(sp, p, base, ref);
      Unprotected(sp, p, Some(base), ref, FromRunAfterBuild);
    } else {
      forall steps, legacyBuilder, i: nat, j: nat
        ensures !Reuses(sp, steps, legacyBuilder, i, j, p, FromRunAfterBuild)
      {
        ReusesSome(sp, steps, legacyBuilder, i, j, p, FromRunAfterBuild);
      }
    }
  }

  lemma ReusesSome(sp: Spelling, steps: seq<Step>, legacyBuilder: bool, i: nat, j: nat, p: Push, start: Start)
    ensures Reuses(sp, steps, legacyBuilder, i, j, p, start) ==> PublishedOf(sp, p) != []
  {
  }

  lemma BaseAndRun(sp: Spelling, p: Push, base: string, image: string)
    requires image != "" && ':' in image && sp.lower(image) == image
    ensures var s := CommitAnd(p, Some(base), image)[1];
      && SourceImage(s) == Some(base) && StartOf(s, true) == Some(FromRunAfterBuild)
      && RealSource(sp, s, true) == Some(image)
  {
  }

  /** Published references are in lower case. */
  lemma PublishedIsLow(sp: Spelling, p: Push, k: nat)
    requires Lawful(sp) && k < |PublishedOf(sp, p)|
    ensures var ref := PublishedOf(sp, p)[k]; ':' in ref && ref != "" && sp.lower(ref) == ref
  {
    hide SanitizeTag, FirstColon;
    var d := Definition(sp, p);
    var ref := PublishedOf(sp, p)[k];
    assert ref[|d.repository|] == ':';
    DrawnIsLow(sp, d.repository, p.repository);
    TagIsLow(sp, p, k);
    assert AllLow(sp, ref);
  }

  lemma TagIsLow(sp: Spelling, p: Push, k: nat)
    requires Lawful(sp) && k < |Definition(sp, p).tags|
    ensures AllLow(sp, Definition(sp, p).tags[k])
  {
    hide Hyphenated, FirstColon;
    var t := Definition(sp, p).tags[k];
    if k < |p.tags| {
      HyphenatedIsLegal(sp, sp.lower(p.tags[k]));
      DrawnIsLow(sp, t, p.tags[k]);
    } else {
      DrawnIsLow(sp, t, p.repository);
    }
  }

  /** A base that is not among the references. */
  function OtherBase(refs: seq<string>): (base: string)
    ensures base !in refs
  {
    "scratch:" + Stroke(refs)
  }

  function Stroke(refs: seq<string>): (tag: string)
    ensures forall ref :: ref in refs ==> |ref| <= |tag|
  {
    if refs == [] then "" else seq(|refs[0]|, i => '1') + Stroke(refs[1..])
  }

  /** An entry in normal form is safe from being built upon. */
  lemma NormalFormProtectsBase(sp: Spelling, p: Push)
    requires Lawful(sp) && NormalForm(sp, p)
    ensures Protected(sp, p, FromBase)
  {
    hide Lawful, NormalForm, PublishedOf, RefsOf, Protected;
    AsSpelledExactlyWhen(sp, p);
    BaseProtectedExactlyWhen(sp, p);
  }

  // ---- configurations that are accepted and reuse an image

  lemma PublishedPlainly(repository: string, low: string)
    requires ':' !in repository && LowerAscii(repository) == low
    ensures PublishedOf(ASCII, Push(repository, ["v"])) == [low + ":" + "v"]
    ensures RefsOf(Push(repository, ["v"])) == [repository + ":" + "v"]
    ensures low == repository ==> NormalForm(ASCII, Push(repository, ["v"]))
  {
    AsciiIsLawful();
    PlainIsNotCut(ASCII, repository);
    hide IsCut;
    assert LowerAscii("v") == "v" && AllLegal(ASCII, "v");
    SanitizedTag(ASCII, "v");
    assert Sanitized(ASCII, ["v"]) == ["v"];
  }

  /** `Repo` is published, and `repo:v` is built upon. */
  lemma RepoIsBuiltOn()
    ensures var p := Push("Repo", ["v"]);
      var steps := CommitAnd(p, Some("repo:v"), "");
      Acceptable(steps, true) && Reuses(ASCII, steps, true, 1, 0, p, FromBase)
  {
    hide Acceptable, Reuses, CommitAnd, RefsOf, PublishedOf;
    var p := Push("Repo", ["v"]);
    assert LowerAscii("Repo") == "repo";
    PublishedPlainly("Repo", "repo");
    assert "repo" + ":" + "v" == "repo:v" && ("Repo" + ":" + "v")[0] != "repo:v"[0];
    BaseOnly(ASCII, p, "repo:v");
    Unprotected(ASCII, p, Some("repo:v"), "", FromBase);
  }

  /** `repo` is published, in normal form, and `Repo:v` is run. */
  lemma RepoIsRun()
    ensures var p := Push("repo", ["v"]);
      var steps := CommitAnd(p, None, "Repo:v");
      NormalForm(ASCII, p) && Acceptable(steps, true) && Reuses(ASCII, steps, true, 1, 0, p, FromRun)
  {
    hide Acceptable, Reuses, CommitAnd, RefsOf, PublishedOf, NormalForm;
    var p := Push("repo", ["v"]);
    assert LowerAscii("repo") == "repo" && LowerAscii("Repo:v") == "repo:v";
    PublishedPlainly("repo", "repo");
    assert "repo" + ":" + "v" == "repo:v" && "repo:v"[0] != "Repo:v"[0] && "Repo:v"[4] == "repo:v"[4] == ':';
    RunOnly(ASCII, p, "Repo:v");
    Unprotected(ASCII, p, None, "Repo:v", FromRun);
  }

  /** `repo` is published, in normal form, and `repo:v` is run by a step that also builds an image. */
  lemma RepoIsRunAfterBuild()
    ensures var p := Push("repo", ["v"]);
      var steps := CommitAnd(p, Some("scratch:latest"), "repo:v");
      NormalForm(ASCII, p) && Acceptable(steps, true) && Reuses(ASCII, steps, true, 1, 0, p, FromRunAfterBuild)
  {
    hide Acceptable, Reuses, CommitAnd, RefsOf, PublishedOf, NormalForm;
    var p := Push("repo", ["v"]);
    assert LowerAscii("repo") == "repo" && LowerAscii("repo:v") == "repo:v";
    PublishedPlainly("repo", "repo");
    assert "repo" + ":" + "v" == "repo:v" && "repo:v"[0] != "scratch:latest"[0] && "repo:v"[4] == ':';
    BaseAndRun(ASCII, p, "scratch:latest", "repo:v");
    Unprotected(ASCII, p, Some("scratch:latest"), "repo:v", FromRunAfterBuild);
  }
}
