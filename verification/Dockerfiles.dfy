/** How the check of re-tagging reads the base image off a Dockerfile. */
module Dockerfiles {
  import opened Common
  import opened Validation

  const FROM := "from"

  /** The text with every `from` taken out. */
  function Without(s: string): string {
    if |s| < |FROM| then s
    else if s[..|FROM|] == FROM then Without(s[|FROM|..])
    else [s[0]] + Without(s[1..])
  }

  function StripLeft(blank: char -> bool, s: string): string {
    if s != "" && blank(s[0]) then StripLeft(blank, s[1..]) else s
  }

  function StripRight(blank: char -> bool, s: string): string {
    if s != "" && blank(s[|s| - 1]) then StripRight(blank, s[..|s| - 1]) else s
  }

  function Strip(blank: char -> bool, s: string): string {
    StripRight(blank, StripLeft(blank, s))
  }

  predicate IsFrom(line: string) {
    FROM <= line
  }

  function NameIn(blank: char -> bool, line: string): string {
    WithLatest(Strip(blank, Without(line)))
  }

  /** What the last line that begins with `from` names; the lines are in lower case. `None` stands for an error. */
  function BaseImage(blank: char -> bool, lines: seq<string>): Option<string> {
    if lines == [] then None
    else if IsFrom(lines[|lines| - 1]) then Some(NameIn(blank, lines[|lines| - 1]))
    else BaseImage(blank, lines[..|lines| - 1])
  }

  method GetBaseImage(blank: char -> bool, lines: seq<string>) returns (image: Option<string>)
    ensures image == BaseImage(blank, lines)
    ensures image.None? <==> forall line :: line in lines ==> !IsFrom(line)
  {
    image := None;
    for i := 0 to |lines|
      invariant image == BaseImage(blank, lines[..i])
      invariant image.None? <==> forall j :: 0 <= j < i ==> !IsFrom(lines[j])
    {
      assert lines[..i + 1][..i] == lines[..i];
      if IsFrom(lines[i]) {
        var name := Strip(blank, Without(lines[i]));
        if ':' !in name {
          name := name + ":latest";
        }
        image := Some(name);
      }
    }
    assert lines[..|lines|] == lines;
  }

  lemma {:induction false} BaseIsLast(blank: char -> bool, lines: seq<string>, k: nat)
    requires k < |lines| && "from" <= lines[k] && forall j :: k < j < |lines| ==> !("from" <= lines[j])
    ensures BaseImage(blank, lines) == Some(NameIn(blank, lines[k]))
    decreases |lines|
  {
    if k < |lines| - 1 {
      BaseIsLast(blank, lines[..|lines| - 1], k);
    }
  }

  /** A name of an image or of a stage: not empty, without blanks. */
  ghost predicate IsName(blank: char -> bool, name: string) {
    name != "" && forall c :: c in name ==> !blank(c)
  }

  /** No `from` reaches across a space. */
  lemma {:induction false} WithoutConcat(a: string, b: string)
    ensures Without(a + " " + b) == Without(a) + " " + Without(b)
    decreases |a|
  {
    var both := a + " " + b;
    if a == "" {
      assert both[0] == ' ' && both[1..] == b;
      WithoutFirst(both);
    } else if IsFrom(a) {
      assert a == FROM + a[|FROM|..] && both == FROM + (a[|FROM|..] + " " + b);
      WithoutConcat(a[|FROM|..], b);
    } else {
      assert both[0] == a[0] && both[1..] == a[1..] + " " + b;
      assert both[|a|] == ' ' && forall k :: 0 <= k < |FROM| ==> FROM[k] != ' ';
      WithoutFirst(both);
      WithoutFirst(a);
      WithoutConcat(a[1..], b);
    }
  }

  lemma WithoutFirst(s: string)
    requires s != "" && !IsFrom(s)
    ensures Without(s) == [s[0]] + Without(s[1..])
  {
    if |s| < |FROM| {
      assert Without(s[1..]) == s[1..];
    }
  }

  lemma {:induction false} WithoutKeeps(s: string)
    ensures forall c :: c in Without(s) ==> c in s
    ensures ':' in Without(s) <==> ':' in s
    decreases |s|
  {
    if IsFrom(s) {
      WithoutKeeps(s[|FROM|..]);
      assert s == FROM + s[|FROM|..];
    } else if s != "" {
      WithoutFirst(s);
      WithoutKeeps(s[1..]);
      assert s == [s[0]] + s[1..];
    }
  }

  lemma StripBlank(blank: char -> bool, s: string)
    requires blank(' ') && (s != "" ==> !blank(s[0]) && !blank(s[|s| - 1]))
    ensures Strip(blank, " " + s) == s
  {
    assert (" " + s)[1..] == s;
    assert StripLeft(blank, " " + s) == StripLeft(blank, s) == s;
  }

  lemma WithoutFrom(rest: string)
    ensures Without(FROM + " " + rest) == " " + Without(rest)
  {
    assert FROM[|FROM|..] == "" && Without(FROM) == "";
    WithoutConcat(FROM, rest);
  }

  /** The base of a line that names just an image is read right exactly when the name has no `from` in it. */
  lemma BaseReadExactlyWhen(blank: char -> bool, name: string)
    requires blank(' ') && IsName(blank, name)
    ensures NameIn(blank, "from" + " " + name) == WithLatest(name) <==> Without(name) == name
  {
    hide Strip, Without;
    WithoutFrom(name);
    WithoutKeeps(name);
    StripBlank(blank, Without(name));
    assert WithLatest(name)[..|name|] == name;
  }

  /** With a stage name behind it, the base is not read right: it is read as one name with a blank in it. */
  lemma StageHidesBase(blank: char -> bool, name: string, stage: string)
    requires blank(' ') && IsName(blank, name) && IsName(blank, stage)
    requires Without(name) == name && Without(stage) == stage
    ensures NameIn(blank, "from" + " " + (name + " " + ("as" + " " + stage))) != WithLatest(name)
  {
    hide Strip, Without;
    var rest := name + " " + ("as" + " " + stage);
    WithoutFrom(rest);
    WithoutConcat(name, "as" + " " + stage);
    WithoutConcat("as", stage);
    assert Without("as") == "as" by { WithoutShort("as"); }
    assert rest[0] == name[0] && rest[|rest| - 1] == stage[|stage| - 1];
    StripBlank(blank, rest);
    assert WithLatest(rest)[|name|] == ' ';
  }

  lemma WithoutShort(s: string)
    requires |s| < |FROM|
    ensures Without(s) == s
  {
  }
}
