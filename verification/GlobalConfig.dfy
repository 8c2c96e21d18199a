/** Loading the global configuration: each file is rendered against what is merged so far, scrubbed, and merged in. */
module GlobalConfig {
  import opened Common
  import opened ConfigTrees
  import opened ConfigDicts

  const LOCAL_FILES := "local-files"

  /** A configured file: whether it exists, whether it is the master file, and what it renders to in a context. */
  datatype ConfigFile = ConfigFile(exists_: bool, isMaster: bool, render: Tree -> Tree)

  /** Which local paths the user may mount, and where a configured path really points. Looking up a path that does not
      exist may raise, which gives `None`. */
  datatype Permissions = Permissions(resolve: string -> string, allowed: string -> Option<bool>) {
    predicate MayMount(path: string) {
      allowed(path) == Some(true)
    }
  }

  /** The entries of a `local-files` dictionary that survive scrubbing. */
  function Allowed(p: Permissions, local: map<string, Tree>): map<string, Tree> {
    map k | k in local && local[k].Leaf? && local[k].value.Text? && p.MayMount(p.resolve(local[k].value.s)) ::
      Leaf(Text(p.resolve(local[k].value.s)))
  }

  /** Looking up the path of an entry raises. */
  predicate Unreadable(p: Permissions, entry: Tree) {
    entry.Leaf? && entry.value.Text? && p.allowed(p.resolve(entry.value.s)).None?
  }

  /** Raises (gives None) when `local-files` is present without being a dictionary, or a lookup in it raises. */
  function Scrubbed(p: Permissions, t: Tree): Option<Tree>
    requires t.Node?
  {
    if LOCAL_FILES !in t.entries then Some(Node(t.entries[LOCAL_FILES := Node(map[])]))
    else if t.entries[LOCAL_FILES].Leaf? then None
    else
      var local := t.entries[LOCAL_FILES].entries;
      if exists k :: k in local && Unreadable(p, local[k]) then None
      else Some(Node(t.entries[LOCAL_FILES := Node(Allowed(p, local))]))
  }

  function CanonicalTrees(ts: seq<Tree>): seq<Tree> {
    seq(|ts|, i requires 0 <= i < |ts| => CanonicalTree(ts[i]))
  }

  /** Up to equal values, merging the files one after the other lets the last definer of each path win. */
  lemma {:induction false} OverlayAllIsStacked(ts: seq<Tree>)
    ensures CanonicalTree(OverlayAll(ts)) == Stacked(CanonicalTrees(ts))
  {
    if ts == [] {
    } else {
      var rest := ts[..|ts| - 1];
      OverlayAllIsStacked(rest);
      OverlayIsLastWins(OverlayAll(rest), ts[|ts| - 1]);
      assert CanonicalTrees(ts)[..|ts| - 1] == CanonicalTrees(rest);
    }
  }

  /** `t` is what a file contributes when the trees `before` have been merged. */
  ghost predicate Contributes(p: Permissions, file: ConfigFile, before: seq<Tree>, t: Tree) {
    var rendered := file.render(OverlayAll(before));
    rendered.Node? && Some(t) == if file.isMaster then Some(rendered) else Scrubbed(p, rendered)
  }

  /** The contributions of the files that exist, each rendered in the context of the earlier ones. */
  ghost predicate Contributions(p: Permissions, files: seq<ConfigFile>, ts: seq<Tree>)
    decreases |files|
  {
    && (forall u :: u in ts ==> u.Node?)
    && if files == [] then ts == []
       else if !files[|files| - 1].exists_ then Contributions(p, files[..|files| - 1], ts)
       else
         && ts != []
         && Contributions(p, files[..|files| - 1], ts[..|ts| - 1])
         && Contributes(p, files[|files| - 1], ts[..|ts| - 1], ts[|ts| - 1])
  }

  /** The files before the `n`-th contribute these trees, and it exists but cannot contribute any. */
  ghost predicate CannotContribute(p: Permissions, files: seq<ConfigFile>, ts: seq<Tree>, n: nat) {
    && n < |files| && files[n].exists_ && Contributions(p, files[..n], ts)
    && forall t :: !Contributes(p, files[n], ts, t)
  }

  /** Such a file makes the whole load fail. */
  lemma {:induction false} NoContributions(p: Permissions, files: seq<ConfigFile>, ts: seq<Tree>, n: nat,
                                           all: seq<Tree>)
    requires CannotContribute(p, files, ts, n)
    ensures !Contributions(p, files, all)
    decreases |files|
  {
    if Contributions(p, files, all) {
      var rest := files[..|files| - 1];
      if n < |rest| {
        assert rest[..n] == files[..n];
        NoContributions(p, rest, ts, n, if files[|files| - 1].exists_ then all[..|all| - 1] else all);
      } else {
        OnlyContributions(p, rest, ts, all[..|all| - 1]);
      }
    }
  }

  /** What the files contribute is determined. */
  lemma {:induction false} OnlyContributions(p: Permissions, files: seq<ConfigFile>, a: seq<Tree>, b: seq<Tree>)
    requires Contributions(p, files, a) && Contributions(p, files, b)
    ensures a == b
    decreases |files|
  {
    if files != [] {
      var rest := files[..|files| - 1];
      if files[|files| - 1].exists_ {
        OnlyContributions(p, rest, a[..|a| - 1], b[..|b| - 1]);
        assert a == a[..|a| - 1] + [a[|a| - 1]] && b == b[..|b| - 1] + [b[|b| - 1]];
      } else {
        OnlyContributions(p, rest, a, b);
      }
    }
  }

  /** Allocates the dictionary objects of a parsed file. */
  method Parse(t: Tree) returns (d: Dict)
    requires t.Node?
    ensures d.Valid() && fresh(d.Repr) && d.Contents() == t
    decreases t, 1
  {
    hide Restricted;
    d := new Dict();
    var keys := t.entries.Keys;
    ghost var done: set<string> := {};
    NothingParsed(t);
    while keys != {}
      invariant done !! keys && done + keys == t.entries.Keys
      invariant d.Valid() && fresh(d.Repr) && d.Contents() == Restricted(t, done)
      decreases keys
    {
      var key :| key in keys;
      var v := ParseValue(t, key);
      ParsedOneMore(t, done, key);
      d.Assign(key, v);
      keys, done := keys - {key}, done + {key};
    }
  }

  method ParseValue(t: Tree, key: string) returns (v: Value)
    requires t.Node? && key in t.entries
    ensures ValidValue(v) && fresh(Footprint(v)) && TreeOf(v) == t.entries[key]
    decreases t, 0
  {
    match t.entries[key] {
      case Leaf(value) => v := Plain(value);
      case Node(_) =>
        var sub := Parse(t.entries[key]);
        v := Sub(sub);
    }
  }

  lemma NothingParsed(t: Tree)
    requires t.Node?
    ensures Restricted(t, {}) == Node(map[]) && Restricted(t, t.entries.Keys) == t
  {
  }

  lemma ParsedOneMore(t: Tree, done: set<string>, key: string)
    requires t.Node? && key in t.entries
    ensures Node(Restricted(t, done).entries[key := t.entries[key]]) == Restricted(t, done + {key})
  {
  }

  /** What scrubbing leaves: everything outside `local-files`, and there exactly the mounts that are allowed, each with
      the path it really leads to. */
  ghost predicate IsScrubbed(p: Permissions, from: Tree, t: Tree) {
    && t.Node?
    && (forall path :: path != [] && path[0] != "local-files" ==> At(t, path) == At(from, path))
    && (forall name, x :: LeafAt(t, ["local-files", name]) == Some(x) <==> AllowedMount(p, from, name, x))
  }

  ghost predicate AllowedMount(p: Permissions, from: Tree, name: string, x: Scalar) {
    var said := LeafAt(from, ["local-files", name]);
    said.Some? && said.value.Text? && p.allowed(p.resolve(said.value.s)) == Some(true)
    && x == Text(p.resolve(said.value.s))
  }

  /** The path of this mount cannot be looked up. */
  ghost predicate LookupRaises(p: Permissions, from: Tree, name: string) {
    var said := LeafAt(from, ["local-files", name]);
    said.Some? && said.value.Text? && p.allowed(p.resolve(said.value.s)).None?
  }

  lemma ScrubbedMeaning(p: Permissions, from: Tree)
    requires from.Node?
    ensures Scrubbed(p, from).None? <==>
      LeafAt(from, ["local-files"]).Some? || exists name :: LookupRaises(p, from, name)
    ensures Scrubbed(p, from).Some? ==> IsScrubbed(p, from, Scrubbed(p, from).value)
  {
    assert [LOCAL_FILES] == [LOCAL_FILES] + [];
    AtStep(from, LOCAL_FILES, []);
    forall name
      ensures LookupRaises(p, from, name) <==>
        LOCAL_FILES in from.entries && from.entries[LOCAL_FILES].Node?
        && name in from.entries[LOCAL_FILES].entries && Unreadable(p, from.entries[LOCAL_FILES].entries[name])
    {
      MountAt(from, name);
    }
    if Scrubbed(p, from).Some? {
      var t := Scrubbed(p, from).value;
      forall name, x ensures LeafAt(t, [LOCAL_FILES, name]) == Some(x) <==> AllowedMount(p, from, name, x) {
        MountAt(t, name);
        MountAt(from, name);
      }
    }
  }

  lemma MountAt(t: Tree, name: string)
    requires t.Node?
    ensures LeafAt(t, [LOCAL_FILES, name]) ==
      if LOCAL_FILES in t.entries && t.entries[LOCAL_FILES].Node? && name in t.entries[LOCAL_FILES].entries
         && t.entries[LOCAL_FILES].entries[name].Leaf?
      then Some(t.entries[LOCAL_FILES].entries[name].value) else None
  {
    assert [LOCAL_FILES, name] == [LOCAL_FILES] + [name] && [name] == [name] + [];
    AtStep(t, LOCAL_FILES, [name]);
    if LOCAL_FILES in t.entries && t.entries[LOCAL_FILES].Node? {
      AtStep(t.entries[LOCAL_FILES], name, []);
    }
  }

  lemma AtStep(t: Tree, key: string, rest: seq<string>)
    requires t.Node?
    ensures At(t, [key] + rest) == if key in t.entries then At(t.entries[key], rest) else None
  {
    assert ([key] + rest)[1..] == rest;
  }

  /** Renders a file in the context of the trees merged so far, and scrubs it unless it is the master file: fails
      exactly when, in another file, a value stands where the mounts should be, or the path of a mount cannot be looked
      up. */
  method Fetch(p: Permissions, file: ConfigFile, before: seq<Tree>) returns (tree: Option<Tree>)
    requires forall t: Tree :: file.render(t).Node?
    ensures var rendered := file.render(OverlayAll(before));
      && (tree.None? <==>
            !file.isMaster
            && (LeafAt(rendered, ["local-files"]).Some? || exists name :: LookupRaises(p, rendered, name)))
      && (tree.Some? ==> if file.isMaster then tree.value == rendered else IsScrubbed(p, rendered, tree.value))
    ensures tree.Some? ==> tree.value.Node? && Contributes(p, file, before, tree.value)
    ensures tree.None? ==> forall t: Tree :: !Contributes(p, file, before, t)
  {
    hide IsScrubbed, LeafAt, LookupRaises;
    var rendered := file.render(OverlayAll(before));
    ScrubbedMeaning(p, rendered);
    tree := if file.isMaster then Some(rendered) else Scrubbed(p, rendered);
  }

  /** None stands for the error raised at a file that cannot contribute. */
  method LoadGlobalConfigFiles(p: Permissions, files: seq<ConfigFile>, overrides: Tree)
    returns (context: Option<Dict>, ts: seq<Tree>)
    requires overrides.Node?
    requires forall f, t: Tree :: f in files ==> f.render(t).Node?
    ensures context.Some? ==> Contributions(p, files, ts)
    ensures context.Some? ==> context.value.Valid() && context.value.Contents() == OverlayAll(ts + [overrides])
    ensures context.None? ==> exists n: nat :: CannotContribute(p, files, ts, n)
    ensures context.Some? ==> forall path, i: nat, s ::
      LastSay(ts + [overrides], path, i) && i <= |ts| && LeafAt((ts + [overrides])[i], path) == Some(Text(s)) ==>
      LeafAt(context.value.Contents(), path) == Some(Text(s))
  {
    hide Overlay, Contributes, IsScrubbed, LastSay, LeafAt;
    var merged := new Dict();
    ts := [];
    var i := 0;
    while i < |files|
      invariant 0 <= i <= |files|
      invariant merged.Valid() && fresh(merged.Repr)
      invariant Contributions(p, files[..i], ts)
      invariant merged.Contents() == OverlayAll(ts)
    {
      var file := files[i];
      assert files[..i + 1][..i] == files[..i];
      if file.exists_ {
        var tree := Fetch(p, file, ts);
        if tree.None? {
          assert CannotContribute(p, files, ts, i);
          return None, ts;
        }
        var current := Parse(tree.value);
        merged.DeepMerge(current);
        assert (ts + [tree.value])[..|ts|] == ts;
        ts := ts + [tree.value];
      }
      i := i + 1;
    }
    assert files[..i] == files;
    var last := Parse(overrides);
    merged.DeepMerge(last);
    assert (ts + [overrides])[..|ts|] == ts;
    context := Some(merged);
    forall path, i: nat, s |
      LastSay(ts + [overrides], path, i) && i <= |ts| && LeafAt((ts + [overrides])[i], path) == Some(Text(s))
      ensures LeafAt(OverlayAll(ts + [overrides]), path) == Some(Text(s))
    {
      LastTextWins(ts + [overrides], path, i, s);
    }
  }

  function Existing(files: seq<ConfigFile>): seq<ConfigFile> {
    if files == [] then []
    else Existing(files[..|files| - 1]) + if files[|files| - 1].exists_ then [files[|files| - 1]] else []
  }

  /** A mount contributed by any file but the master is one the user may make. */
  lemma {:induction false} ContributedMountIsAllowed(
    p: Permissions, files: seq<ConfigFile>, ts: seq<Tree>, i: nat, name: string, x: Scalar)
    requires Contributions(p, files, ts) && i < |ts|
    requires LeafAt(ts[i], ["local-files", name]) == Some(x)
    ensures |ts| == |Existing(files)|
    ensures !Existing(files)[i].isMaster ==> x.Text? && p.allowed(x.s) == Some(true)
    decreases |files|
  {
    hide LeafAt, IsScrubbed;
    OnePerExistingFile(p, files, ts);
    if !files[|files| - 1].exists_ {
      ContributedMountIsAllowed(p, files[..|files| - 1], ts, i, name, x);
    } else if i < |ts| - 1 {
      ContributedMountIsAllowed(p, files[..|files| - 1], ts[..|ts| - 1], i, name, x);
    } else if !Existing(files)[i].isMaster {
      var rendered := files[|files| - 1].render(OverlayAll(ts[..i]));
      ScrubbedMeaning(p, rendered);
      ScrubbedMount(p, rendered, ts[i], name, x);
    }
  }

  lemma ScrubbedMount(p: Permissions, from: Tree, t: Tree, name: string, x: Scalar)
    requires IsScrubbed(p, from, t) && LeafAt(t, [LOCAL_FILES, name]) == Some(x)
    ensures x.Text? && p.allowed(x.s) == Some(true)
  {
  }

  lemma {:induction false} OnePerExistingFile(p: Permissions, files: seq<ConfigFile>, ts: seq<Tree>)
    requires Contributions(p, files, ts)
    ensures |ts| == |Existing(files)|
    decreases |files|
  {
    if files == [] {
    } else if files[|files| - 1].exists_ {
      OnePerExistingFile(p, files[..|files| - 1], ts[..|ts| - 1]);
    } else {
      OnePerExistingFile(p, files[..|files| - 1], ts);
    }
  }

  /** In the merged configuration, every mount comes from the overrides, from the master file, or is allowed. */
  lemma MergedMountsAreAllowed(
    p: Permissions, files: seq<ConfigFile>, ts: seq<Tree>, overrides: Tree, name: string, x: Scalar)
    requires Contributions(p, files, ts)
    requires LeafAt(OverlayAll(ts + [overrides]), ["local-files", name]) == Some(x)
    ensures
      || LeafAt(overrides, ["local-files", name]) == Some(x)
      || (x.Text? && p.allowed(x.s) == Some(true))
      || (exists i: nat :: i < |Existing(files)| && Existing(files)[i].isMaster
            && Settles(ts + [overrides], ["local-files", name], i, x))
  {
    hide LeafAt, OverlayAll, Agrees, LastSay;
    var path, all := [LOCAL_FILES, name], ts + [overrides];
    LastDefinerWins(all, path, x);
    var i: nat :| Settles(all, path, i, x);
    if i < |ts| {
      ContributedMountIsAllowed(p, files, ts, i, name, x);
    }
  }
}
