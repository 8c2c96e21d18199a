/** The build tag that is added to every pushed or committed image, and what it means for re-tagging. */
module DefaultTags {
  import opened Common
  import opened Validation

  /** The `tags` of an entry: none given (or something empty), a list, or something else. */
  datatype Tags = Absent | TagList(tags: seq<string>) | NotAList

  datatype PushValue = PushValue(repository: string, tags: Tags, addBuildTag: bool)

  /** What an entry of a push or commit section says. */
  datatype Said = SaidText(image: string) | SaidDict(value: PushValue) | SaidOther

  class PushDict {
    const repository: string
    const addBuildTag: bool
    var tags: Tags

    constructor (repository: string, tags: Tags, addBuildTag: bool)
      ensures Value() == PushValue(repository, tags, addBuildTag)
    {
      this.repository, this.tags, this.addBuildTag := repository, tags, addBuildTag;
    }

    ghost function Value(): PushValue reads this {
      PushValue(repository, tags, addBuildTag)
    }
  }

  datatype Entry = Text(image: string) | Dict(dict: PushDict) | Other

  ghost function Says(e: Entry): Said
    reads if e.Dict? then {e.dict} else {}
  {
    match e
    case Text(image) => SaidText(image)
    case Dict(dict) => SaidDict(dict.Value())
    case Other => SaidOther
  }

  // ---- texts like repository:tag

  function FirstColon(s: string): (k: nat)
    ensures k <= |s| && ':' !in s[..k] && (k < |s| ==> s[k] == ':')
  {
    if s == "" || s[0] == ':' then 0 else 1 + FirstColon(s[1..])
  }

  function Repository(image: string): string {
    image[..FirstColon(image)]
  }

  /** What stands between the first colon and the next. */
  function Tag(image: string): string
    requires ':' in image
  {
    var rest := image[FirstColon(image) + 1..];
    rest[..FirstColon(rest)]
  }

  function Colons(s: string): nat {
    if s == "" then 0 else (if s[0] == ':' then 1 else 0) + Colons(s[1..])
  }

  // ---- the default tag

  function WithTag(tags: seq<string>, tag: string): seq<string> {
    if tag in tags then tags else tags + [tag]
  }

  /** An entry with the build tag added; `None` when it cannot be read. */
  function Default(said: Said, tag: string): Option<Said> {
    match said
    case SaidOther => Some(said)
    case SaidDict(v) =>
      if v.tags.NotAList? then None
      else
        var tags := if v.tags.Absent? then [] else v.tags.tags;
        Some(SaidDict(v.(tags := TagList(if v.addBuildTag then WithTag(tags, tag) else tags))))
    case SaidText(image) =>
      if ':' in image && Tag(image) == "" then None
      else
        var tags := if ':' in image then [Tag(image)] else [];
        Some(SaidDict(PushValue(Repository(image), TagList(WithTag(tags, tag)), true)))
  }

  /** An entry cannot be read exactly when its tags are no list or nothing stands behind its first colon, up to another
      one; what is neither text nor dictionary is left alone. */
  lemma DefaultFailsExactlyWhen(said: Said, tag: string)
    ensures Default(said, tag).None? <==>
      || (said.SaidDict? && said.value.tags.NotAList?)
      || (said.SaidText? && ':' in said.image && (AfterColon(said.image) == "" || AfterColon(said.image)[0] == ':'))
    ensures said.SaidOther? ==> Default(said, tag) == Some(said)
  {
  }

  /** Adding the tag again changes nothing, so an entry shared by several steps is tagged once. */
  lemma DefaultTwice(said: Said, tag: string)
    requires Default(said, tag).Some?
    ensures Default(Default(said, tag).value, tag) == Default(said, tag)
  {
  }

  lemma {:induction false} ColonsConcat(a: string, b: string)
    ensures Colons(a + b) == Colons(a) + Colons(b)
  {
    if a == "" {
      assert a + b == b;
    } else {
      ColonsConcat(a[1..], b);
      assert (a + b)[1..] == a[1..] + b;
    }
  }

  lemma {:induction false} NoColons(s: string)
    ensures Colons(s) == 0 <==> ':' !in s
  {
    if s != "" {
      NoColons(s[1..]);
    }
  }

  function AfterColon(image: string): string
    requires ':' in image
  {
    image[FirstColon(image) + 1..]
  }

  lemma AroundColon(image: string)
    requires ':' in image
    ensures image == Repository(image) + (":" + AfterColon(image)) && ':' !in Repository(image)
  {
    hide FirstColon;
    var k := FirstColon(image);
    assert image == image[..k] + [image[k]] + image[k + 1..];
  }

  lemma OneColon(image: string)
    requires ':' in image
    ensures Colons(image) == 1 <==> ':' !in AfterColon(image)
  {
    hide Repository, AfterColon, FirstColon;
    var repository, rest := Repository(image), AfterColon(image);
    AroundColon(image);
    ColonsConcat(repository, ":" + rest);
    NoColons(repository);
    NoColons(rest);
    assert (":" + rest)[1..] == rest;
  }

  lemma WholeReference(image: string, t: string)
    requires ':' in image
    ensures Repository(image) + ":" + t == image <==> t == AfterColon(image)
  {
    hide Repository, AfterColon, FirstColon;
    var repository := Repository(image);
    AroundColon(image);
    var ref := repository + ":" + t;
    assert ref[|repository| + 1..] == t && image[|repository| + 1..] == AfterColon(image);
    assert ref == repository + (":" + t);
  }

  lemma TagIsRest(image: string)
    requires ':' in image
    ensures ':' !in Tag(image)
    ensures ':' !in AfterColon(image) ==> Tag(image) == AfterColon(image)
  {
  }

  /** A reference given as text is among the references the checks see for it exactly when it has a single colon: a
      registry port is taken for the tag, and a bare repository is seen under the build tag alone. */
  lemma TextKeepsReference(image: string, tag: string)
    requires Default(SaidText(image), tag).Some? && ':' !in tag
    ensures var v := Default(SaidText(image), tag).value.value;
      image in Tagged(v.repository, v.tags.tags) <==> Colons(image) == 1
  {
    hide Repository, Tag, AfterColon, Colons, FirstColon;
    var v := Default(SaidText(image), tag).value.value;
    var tags, refs := v.tags.tags, Tagged(v.repository, v.tags.tags);
    if ':' !in image {
      NoColons(image);
      forall i | 0 <= i < |refs| ensures refs[i] != image {
        assert refs[i][|v.repository|] == ':';
      }
    } else {
      OneColon(image);
      TagIsRest(image);
      assert tags[0] == Tag(image);
      forall i | 0 <= i < |refs| ensures refs[i] == image <==> tags[i] == AfterColon(image) {
        WholeReference(image, tags[i]);
      }
      if ':' !in AfterColon(image) {
        assert refs[0] == image;
      }
    }
  }

  /** In a reference with a registry port, such as `host:5000/img:1`, the port and the path are taken for the tag, and
      the checks do not see the reference. */
  lemma PortIsTakenForTag(host: string, port: string, path: string, version: string, tag: string)
    requires ':' !in host && ':' !in port && ':' !in path && ':' !in tag
    ensures var image := host + ":" + (port + "/" + path + (":" + version));
      var pushed := PushValue(host, TagList(WithTag([port + "/" + path], tag)), true);
      && Default(SaidText(image), tag) == Some(SaidDict(pushed))
      && image !in Tagged(host, WithTag([port + "/" + path], tag))
  {
    var front := port + "/" + path;
    var rest := front + (":" + version);
    var image := host + ":" + rest;
    ColonAt(host, rest);
    ColonAt(front, version);
    assert rest == front + ":" + version;
    assert image[..|host|] == host && image[|host| + 1..] == rest;
    assert rest[..|front|] == front && rest[|front|] == ':' && front[|port|] == '/';
    TextKeepsReference(image, tag);
    OneColon(image);
  }

  lemma {:induction false} ColonAt(front: string, back: string)
    requires ':' !in front
    ensures FirstColon(front + ":" + back) == |front|
  {
    if front != "" {
      ColonAt(front[1..], back);
      assert (front + ":" + back)[1..] == front[1..] + ":" + back;
    }
  }

  // ---- in place

  ghost function Dicts(entries: seq<Entry>): set<PushDict> {
    set e | e in entries && e.Dict? :: e.dict
  }

  method AddDefaultTag(e: Entry, tag: string) returns (r: Entry, ok: bool)
    modifies if e.Dict? then {e.dict} else {}
    ensures ok <==> Default(old(Says(e)), tag).Some?
    ensures ok ==> Says(r) == Default(old(Says(e)), tag).value
    ensures if e.Text? && ok then r.Dict? && fresh(r.dict) else r == e
    ensures !ok && e.Dict? ==> e.dict.Value() == old(e.dict.Value())
  {
    r, ok := e, true;
    match e
    case Dict(dict) =>
      if dict.tags.Absent? {
        dict.tags := TagList([]);
      }
      if dict.tags.NotAList? {
        return e, false;
      }
      if dict.addBuildTag && tag !in dict.tags.tags {
        dict.tags := TagList(dict.tags.tags + [tag]);
      }
    case Text(image) =>
      var tags: seq<string> := [];
      if ':' in image {
        if Tag(image) == "" {
          return e, false;
        }
        tags := [Tag(image)];
      }
      if tag !in tags {
        tags := tags + [tag];
      }
      var dict := new PushDict(Repository(image), TagList(tags), true);
      r := Dict(dict);
    case Other =>
  }

  /** Tags every entry of a push or commit section. The entries are changed in place, and one may occur repeatedly. */
  method AddDefaultTags(entries: seq<Entry>, tag: string) returns (result: seq<Entry>, ok: bool)
    modifies Dicts(entries)
    ensures ok <==> forall i :: 0 <= i < |entries| ==> Default(old(Says(entries[i])), tag).Some?
    ensures ok ==> |result| == |entries|
    ensures ok ==> forall i :: 0 <= i < |entries| ==> Says(result[i]) == Default(old(Says(entries[i])), tag).value
  {
    hide Default;
    result, ok := [], true;
    for i := 0 to |entries|
      invariant |result| == i
      invariant forall j :: 0 <= j < i ==> Default(old(Says(entries[j])), tag).Some?
      invariant forall j :: 0 <= j < i ==> Says(result[j]) == Default(old(Says(entries[j])), tag).value
      invariant forall j :: 0 <= j < i ==> result[j] == entries[j] || (result[j].Dict? && fresh(result[j].dict))
      invariant forall j :: 0 <= j < |entries| && entries[j].Dict? ==>
        entries[j].dict.Value() == old(entries[j].dict.Value())
        || Some(Says(entries[j])) == Default(old(Says(entries[j])), tag)
    {
      label before:
      ghost var said := Says(entries[i]);
      if Some(said) == Default(old(Says(entries[i])), tag) {
        DefaultTwice(old(Says(entries[i])), tag);
      }
      var r: Entry;
      r, ok := AddDefaultTag(entries[i], tag);
      if !ok {
        return;
      }
      forall j | 0 <= j < i ensures Says(result[j]) == Default(old(Says(entries[j])), tag).value {
        if entries[i].Dict? && result[j] == entries[i] {
          DefaultTwice(old(Says(entries[j])), tag);
        }
      }
      result := result + [r];
    }
  }

  // ---- together with the re-tagging check

  /** A step as written, with its push and commit sections before the build tag is added. */
  datatype RawStep = RawStep(step: Step, push: seq<Said>, commit: seq<Said>)

  /** An entry as the checks see it. An empty tag list is not accepted. */
  function Checked(said: Said, tag: string): Option<Push> {
    var d := Default(said, tag);
    if d.None? || !d.value.SaidDict? then None
    else
      var v := d.value.value;
      if !v.tags.TagList? || v.tags.tags == [] then None else Some(Push(v.repository, v.tags.tags))
  }

  function CheckedAll(said: seq<Said>, tag: string): Option<seq<Push>> {
    if said == [] then Some([])
    else
      var front, last := CheckedAll(said[..|said| - 1], tag), Checked(said[|said| - 1], tag);
      if front.None? || last.None? then None else Some(front.value + [last.value])
  }

  /** A section is accepted exactly when each of its entries can be read and ends up with a tag. */
  lemma {:induction false} CheckedExactlyWhen(said: seq<Said>, tag: string)
    ensures CheckedAll(said, tag).Some? <==> forall i :: 0 <= i < |said| ==> Checked(said[i], tag).Some?
    ensures CheckedAll(said, tag).Some? ==>
      && |CheckedAll(said, tag).value| == |said|
      && forall i :: 0 <= i < |said| ==> Checked(said[i], tag) == Some(CheckedAll(said, tag).value[i])
    decreases |said|
  {
    hide Checked;
    if said != [] {
      CheckedExactlyWhen(said[..|said| - 1], tag);
      assert forall i :: 0 <= i < |said| - 1 ==> said[..|said| - 1][i] == said[i];
    }
  }

  ghost predicate Configured(raw: RawStep, tag: string, s: Step) {
    && CheckedAll(raw.push, tag).Some? && CheckedAll(raw.commit, tag).Some?
    && s == raw.step.(push := CheckedAll(raw.push, tag).value, commit := CheckedAll(raw.commit, tag).value)
  }

  ghost predicate AllConfigured(raws: seq<RawStep>, tag: string, steps: seq<Step>) {
    |raws| == |steps| && forall i :: 0 <= i < |raws| ==> Configured(raws[i], tag, steps[i])
  }

  function RepositoryOf(said: Said): string
    requires !said.SaidOther?
  {
    if said.SaidText? then Repository(said.image) else said.value.repository
  }

  ghost predicate Lists(said: Said, t: string) {
    match said
    case SaidText(image) => ':' in image && t == Tag(image)
    case SaidDict(v) => v.tags.TagList? && t in v.tags.tags
    case SaidOther => false
  }

  ghost predicate AddsBuildTag(said: Said) {
    said.SaidText? || (said.SaidDict? && said.value.addBuildTag)
  }

  /** The entry stands for this reference: through a tag it lists, or through the build tag it does not disable. */
  ghost predicate Names(said: Said, tag: string, ref: string) {
    && !said.SaidOther?
    && exists t :: (Lists(said, t) || (t == tag && AddsBuildTag(said))) && ref == RepositoryOf(said) + ":" + t
  }

  lemma CheckedNames(said: Said, tag: string, ref: string)
    requires Checked(said, tag).Some?
    ensures ref in RefsOf(Checked(said, tag).value) <==> Names(said, tag, ref)
  {
    hide Repository, Tag;
    var p := Checked(said, tag).value;
    assert forall t :: t in p.tags <==> Lists(said, t) || (t == tag && AddsBuildTag(said));
    if Names(said, tag, ref) {
      var t :| (Lists(said, t) || (t == tag && AddsBuildTag(said))) && ref == RepositoryOf(said) + ":" + t;
      var k :| 0 <= k < |p.tags| && p.tags[k] == t;
      assert RefsOf(p)[k] == ref;
    }
    if ref in RefsOf(p) {
      var k :| 0 <= k < |p.tags| && RefsOf(p)[k] == ref;
      assert p.tags[k] in p.tags;
    }
  }

  ghost predicate SomeNames(said: seq<Said>, tag: string, ref: string) {
    exists i :: 0 <= i < |said| && Names(said[i], tag, ref)
  }

  lemma {:induction false} RefsNamed(said: seq<Said>, tag: string, ref: string)
    requires CheckedAll(said, tag).Some?
    ensures ref in Refs(CheckedAll(said, tag).value) <==> SomeNames(said, tag, ref)
    ensures Refs(CheckedAll(said, tag).value) == [] <==> said == []
    decreases |said|
  {
    hide Names, RefsOf, Checked;
    if said != [] {
      var n := |said| - 1;
      var front, last := said[..n], Checked(said[n], tag).value;
      RefsNamed(front, tag, ref);
      CheckedNames(said[n], tag, ref);
      HasRefs(last);
      assert CheckedAll(said, tag).value[..n] == CheckedAll(front, tag).value by {
        CheckedLength(front, tag);
      }
      CheckedLength(front, tag);
      assert SomeNames(said, tag, ref) <==> SomeNames(front, tag, ref) || Names(said[n], tag, ref) by {
        assert forall i :: 0 <= i < n ==> front[i] == said[i];
      }
    }
  }

  lemma HasRefs(p: Push)
    ensures RefsOf(p) != []
  {
  }

  lemma {:induction false} CheckedLength(said: seq<Said>, tag: string)
    requires CheckedAll(said, tag).Some?
    ensures |CheckedAll(said, tag).value| == |said|
    decreases |said|
  {
    if said != [] {
      CheckedLength(said[..|said| - 1], tag);
    }
  }

  /** Re-tagging as the checks see it, in terms of what was written: the source of a single-platform step that has a
      push or commit entry is named by an entry of a multi-platform step. */
  lemma RetagIsReuse(raw: RawStep, other: RawStep, tag: string, single: Step, multi: Step)
    requires Configured(raw, tag, single) && Configured(other, tag, multi)
    requires single.build.Some? ==> single.build.value.base.Some?
    ensures Retags(single, multi) <==>
      && !IsMultiPlatform(raw.step) && IsMultiPlatform(other.step)
      && (raw.push != [] || raw.commit != [])
      && SourceImage(raw.step).Some?
      && (|| SomeNames(other.push, tag, SourceImage(raw.step).value)
          || SomeNames(other.commit, tag, SourceImage(raw.step).value))
  {
    hide Refs, SomeNames, CheckedAll;
    var source := if SourceImage(raw.step).Some? then SourceImage(raw.step).value else "";
    RefsNamed(raw.push, tag, source);
    RefsNamed(raw.commit, tag, source);
    RefsNamed(other.push, tag, source);
    RefsNamed(other.commit, tag, source);
  }

  /** Using an image of a multi-platform step, spelled as in its entry, through the build tag nobody wrote is rejected,
      unless the entry disables the build tag. */
  lemma BuildTagReuseIsRejected(raws: seq<RawStep>, tag: string, steps: seq<Step>, legacyBuilder: bool, i: nat,
                                j: nat, said: Said)
    requires AllConfigured(raws, tag, steps) && i < |raws| && j < |raws|
    requires !IsMultiPlatform(raws[i].step) && (raws[i].push != [] || raws[i].commit != [])
    requires IsMultiPlatform(raws[j].step) && (said in raws[j].push || said in raws[j].commit) && AddsBuildTag(said)
    requires raws[i].step.build.Some? ==> raws[i].step.build.value.base.Some?
    requires SourceImage(raws[i].step) == Some(RepositoryOf(said) + ":" + tag)
    ensures !Acceptable(steps, legacyBuilder)
  {
    hide SourceImage, DestinationImages, RepositoryOf, AllWellFormed, MultiPlatformRefs;
    var ref := RepositoryOf(said) + ":" + tag;
    assert Names(said, tag, ref);
    assert Configured(raws[i], tag, steps[i]) && Configured(raws[j], tag, steps[j]);
    assert SomeNames(raws[j].push, tag, ref) || SomeNames(raws[j].commit, tag, ref);
    RetagIsReuse(raws[i], raws[j], tag, steps[i], steps[j]);
    assert IsMultiPlatform(steps[j]);
    if SourcesKnown(steps) {
      assert Retags(steps[i], steps[j]);
    }
  }
}
