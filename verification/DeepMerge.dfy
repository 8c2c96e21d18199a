/** Merging configuration dictionaries: what the recursive merge computes, and what that means for a whole stack of
    configuration files. */
module ConfigTrees {
  import opened Common

  /** A YAML value that is not a dictionary. */
  datatype Scalar =
    | Null
    | Bool(flag: bool)
    | Int(i: int)
    | Float(r: real)
    | Text(s: string)
    | List(items: seq<Scalar>)

  datatype Tree = Leaf(value: Scalar) | Node(entries: map<string, Tree>)

  /** The representative of a value under the language's `==`, for which `True`, `1` and `1.0` are equal. */
  function Canonical(s: Scalar): Scalar {
    match s
    case Bool(flag) => Float(if flag then 1.0 else 0.0)
    case Int(i) => Float(i as real)
    case List(items) => List(seq(|items|, i requires 0 <= i < |items| => Canonical(items[i])))
    case _ => s
  }

  predicate Equal(x: Scalar, y: Scalar) {
    Canonical(x) == Canonical(y)
  }

  /** What equality means: numbers and booleans by their numeric value, lists item by item, anything else only if it is
      the same, and nothing across these kinds. */
  lemma EqualMeaning(x: Scalar, y: Scalar)
    ensures x.Text? ==> (Equal(x, y) <==> y == x)
    ensures x.Null? ==> (Equal(x, y) <==> y == Null)
    ensures x.Bool? ==>
      (Equal(x, y) <==> y == x || y == Int(if x.flag then 1 else 0) || y == Float(if x.flag then 1.0 else 0.0))
    ensures x.Int? ==>
      (Equal(x, y) <==> y == x || y == Float(x.i as real)
                        || (y == Bool(true) && x.i == 1) || (y == Bool(false) && x.i == 0))
    ensures x.Float? ==>
      (Equal(x, y) <==> y == x || (y.Int? && y.i as real == x.r)
                        || (y == Bool(true) && x.r == 1.0) || (y == Bool(false) && x.r == 0.0))
    ensures x.List? ==>
      (Equal(x, y) <==>
         y.List? && |x.items| == |y.items| && forall i :: 0 <= i < |x.items| ==> Equal(x.items[i], y.items[i]))
  {
    if x.List? && y.List? && Equal(x, y) {
      assert |Canonical(x).items| == |Canonical(y).items|;
      forall i | 0 <= i < |x.items| ensures Equal(x.items[i], y.items[i]) {
        assert Canonical(x).items[i] == Canonical(y).items[i];
      }
    }
  }

  /** What merging `b` into `a` leaves: dictionaries merge key by key, anything else is replaced unless equal. */
  function Overlay(a: Tree, b: Tree): Tree {
    match (a, b)
    case (Node(m), Node(n)) =>
      Node(map k | k in m.Keys + n.Keys ::
        if k in m && k in n then Overlay(m[k], n[k]) else if k in n then n[k] else m[k])
    case (Leaf(x), Leaf(y)) => if Equal(x, y) then a else b
    case _ => b
  }

  /** The merge one would expect: whatever is not merged key by key is taken from the second tree. */
  function LastWins(a: Tree, b: Tree): Tree {
    match (a, b)
    case (Node(m), Node(n)) =>
      Node(map k | k in m.Keys + n.Keys ::
        if k in m && k in n then LastWins(m[k], n[k]) else if k in n then n[k] else m[k])
    case _ => b
  }

  function CanonicalTree(t: Tree): Tree {
    match t
    case Leaf(value) => Leaf(Canonical(value))
    case Node(entries) => Node(map k | k in entries :: CanonicalTree(entries[k]))
  }

  /** Up to equal values, the code's merge is the expected one. */
  lemma {:induction false} OverlayIsLastWins(a: Tree, b: Tree)
    ensures CanonicalTree(Overlay(a, b)) == LastWins(CanonicalTree(a), CanonicalTree(b))
  {
    hide Canonical;
    if a.Node? && b.Node? {
      forall k | k in a.entries && k in b.entries
        ensures CanonicalTree(Overlay(a.entries[k], b.entries[k]))
             == LastWins(CanonicalTree(a.entries[k]), CanonicalTree(b.entries[k]))
      {
        OverlayIsLastWins(a.entries[k], b.entries[k]);
      }
    }
  }

  /** The subtree at a path of keys. */
  function At(t: Tree, path: seq<string>): Option<Tree> {
    if path == [] then Some(t)
    else if t.Node? && path[0] in t.entries then At(t.entries[path[0]], path[1..])
    else None
  }

  function LeafAt(t: Tree, path: seq<string>): Option<Scalar> {
    var sub := At(t, path);
    if sub.Some? && sub.value.Leaf? then Some(sub.value.value) else None
  }

  /** The paths at which the code keeps a value although the second tree has a different, merely equal one. */
  ghost predicate KeptThoughDifferent(a: Tree, b: Tree, path: seq<string>) {
    var x, y := LeafAt(a, path), LeafAt(b, path);
    x.Some? && y.Some? && Equal(x.value, y.value) && x != y
  }

  /** The second tree always wins exactly when no two values at one path are equal without being the same. */
  lemma {:induction false} SecondWinsExactlyWhen(a: Tree, b: Tree)
    ensures Overlay(a, b) == LastWins(a, b) <==> forall path :: !KeptThoughDifferent(a, b, path)
  {
    if a.Leaf? && b.Leaf? {
      assert KeptThoughDifferent(a, b, []) <==> Equal(a.value, b.value) && a != b;
      forall path | path != [] ensures !KeptThoughDifferent(a, b, path) {
      }
    } else if a.Node? && b.Node? {
      forall k | k in a.entries && k in b.entries
        ensures Overlay(a.entries[k], b.entries[k]) == LastWins(a.entries[k], b.entries[k]) <==>
                forall path :: !KeptThoughDifferent(a.entries[k], b.entries[k], path)
      {
        SecondWinsExactlyWhen(a.entries[k], b.entries[k]);
      }
      forall path ensures KeptThoughDifferent(a, b, path) <==>
        path != [] && path[0] in a.entries && path[0] in b.entries
        && KeptThoughDifferent(a.entries[path[0]], b.entries[path[0]], path[1..])
      {
      }
      if Overlay(a, b) == LastWins(a, b) {
        forall path ensures !KeptThoughDifferent(a, b, path) {
          if KeptThoughDifferent(a, b, path) {
            var k := path[0];
            assert Overlay(a, b).entries[k] == LastWins(a, b).entries[k];
          }
        }
      } else {
        var k :| k in a.entries && k in b.entries
          && Overlay(a.entries[k], b.entries[k]) != LastWins(a.entries[k], b.entries[k]);
        var path :| KeptThoughDifferent(a.entries[k], b.entries[k], path);
        assert ([k] + path)[1..] == path;
        assert KeptThoughDifferent(a, b, [k] + path);
      }
    } else {
      forall path ensures !KeptThoughDifferent(a, b, path) {
      }
    }
  }

  /** `debug: 1` overridden by `debug: true`, or by `debug: 1.0`, stays `1`. */
  lemma EqualOverrideIsIgnored(override: Scalar)
    requires override == Bool(true) || override == Float(1.0)
    ensures var a, b := Node(map["debug" := Leaf(Int(1))]), Node(map["debug" := Leaf(override)]);
            Overlay(a, b) == a && LastWins(a, b) == b && a != b
  {
    var a, b := Node(map["debug" := Leaf(Int(1))]), Node(map["debug" := Leaf(override)]);
    assert Overlay(a, b).entries["debug"] == Leaf(Int(1));
    assert a.entries["debug"] != b.entries["debug"];
  }

  lemma {:induction false} CanonicalTwice(s: Scalar)
    ensures Canonical(Canonical(s)) == Canonical(s)
  {
    if s.List? {
      forall i | 0 <= i < |s.items| ensures Canonical(Canonical(s.items[i])) == Canonical(s.items[i]) {
        CanonicalTwice(s.items[i]);
      }
    }
  }

  /** Merging representatives gives the representative of the merge. */
  lemma {:induction false} OverlayCanonical(a: Tree, b: Tree)
    ensures CanonicalTree(Overlay(a, b)) == Overlay(CanonicalTree(a), CanonicalTree(b))
  {
    if a.Node? && b.Node? {
      forall k | k in a.entries && k in b.entries
        ensures CanonicalTree(Overlay(a.entries[k], b.entries[k]))
             == Overlay(CanonicalTree(a.entries[k]), CanonicalTree(b.entries[k]))
      {
        OverlayCanonical(a.entries[k], b.entries[k]);
      }
    } else if a.Leaf? && b.Leaf? {
      CanonicalTwice(a.value);
      CanonicalTwice(b.value);
    }
  }

  /** A tree has a say about a path when it defines something there or a value above it. */
  ghost predicate Covers(t: Tree, path: seq<string>) {
    exists n :: 0 <= n <= |path| && CoversAt(t, path, n)
  }

  ghost predicate CoversAt(t: Tree, path: seq<string>, n: nat)
    requires n <= |path|
  {
    if n == |path| then At(t, path).Some? else LeafAt(t, path[..n]).Some?
  }

  lemma CoversBelow(t: Tree, path: seq<string>)
    requires path != []
    ensures Covers(t, path) <==>
      t.Leaf? || (path[0] in t.entries && Covers(t.entries[path[0]], path[1..]))
  {
    if t.Leaf? {
      assert CoversAt(t, path, 0);
    } else {
      if path[0] in t.entries {
        var u := t.entries[path[0]];
        forall n | 0 <= n < |path| ensures CoversAt(t, path, n + 1) <==> CoversAt(u, path[1..], n) {
          assert n + 1 < |path| ==> path[..n + 1][1..] == path[1..][..n];
        }
        if Covers(t, path) {
          var n :| 0 <= n <= |path| && CoversAt(t, path, n);
          assert n > 0;
          assert CoversAt(u, path[1..], n - 1);
        }
        if Covers(u, path[1..]) {
          var n :| 0 <= n <= |path[1..]| && CoversAt(u, path[1..], n);
          assert CoversAt(t, path, n + 1);
        }
      } else {
        forall n | 0 <= n <= |path| ensures !CoversAt(t, path, n) {
          assert 0 < n < |path| ==> path[..n][0] == path[0];
        }
      }
    }
  }

  lemma CoversHere(t: Tree)
    ensures Covers(t, [])
  {
    assert CoversAt(t, [], 0);
  }

  /** Where each value of a merged tree comes from: the second tree, unless the first has an equal one there already;
      and the first tree, where the second says nothing. */
  lemma {:induction false} LeafOrigin(a: Tree, b: Tree, path: seq<string>)
    ensures LeafAt(Overlay(a, b), path) == MergedLeaf(LeafAt(a, path), LeafAt(b, path), Covers(b, path))
    decreases |path|
  {
    if path == [] {
      CoversHere(b);
    } else {
      CoversBelow(b, path);
      if a.Node? && b.Node? && path[0] in a.entries && path[0] in b.entries {
        LeafOrigin(a.entries[path[0]], b.entries[path[0]], path[1..]);
      } else if b.Node? && path[0] in b.entries && LeafAt(b, path).None? && !Covers(b, path) {
        NotCovered(b.entries[path[0]], path[1..]);
      }
    }
  }

  ghost function MergedLeaf(x: Option<Scalar>, y: Option<Scalar>, covered: bool): Option<Scalar> {
    if y.Some? then if x.Some? && Equal(x.value, y.value) then x else y
    else if covered then None
    else x
  }

  lemma {:induction false} NotCovered(t: Tree, path: seq<string>)
    requires !Covers(t, path)
    ensures At(t, path).None? && path != [] && t.Node?
  {
    if path == [] {
      CoversHere(t);
    } else {
      CoversBelow(t, path);
      assert !CoversAt(t, path, |path|);
    }
  }

  /** A stack of configuration trees, merged from the first to the last as one would expect. */
  function Stacked(ts: seq<Tree>): Tree {
    if ts == [] then Node(map[]) else LastWins(Stacked(ts[..|ts| - 1]), ts[|ts| - 1])
  }

  /** The stack as the code merges it. */
  function OverlayAll(ts: seq<Tree>): Tree {
    if ts == [] then Node(map[]) else Overlay(OverlayAll(ts[..|ts| - 1]), ts[|ts| - 1])
  }

  /** The last tree with a say about the path is the `i`-th. */
  ghost predicate LastSay(ts: seq<Tree>, path: seq<string>, i: nat) {
    i < |ts| && Covers(ts[i], path) && forall j :: i < j < |ts| ==> !Covers(ts[j], path)
  }

  ghost predicate SameUpToEqual(x: Option<Scalar>, y: Option<Scalar>) {
    (x.Some? <==> y.Some?) && (x.Some? ==> Equal(x.value, y.value))
  }

  /** A path of a merged stack has a value exactly when the last tree with a say about it puts one, and an equal one. */
  lemma {:induction false} LastSayDecides(ts: seq<Tree>, path: seq<string>, i: nat)
    requires LastSay(ts, path, i)
    ensures SameUpToEqual(LeafAt(OverlayAll(ts), path), LeafAt(ts[i], path))
    decreases |ts|
  {
    hide Overlay, Covers, Canonical;
    var n := |ts| - 1;
    LeafOrigin(OverlayAll(ts[..n]), ts[n], path);
    if i < n {
      assert forall j :: i < j < n ==> ts[..n][j] == ts[j];
      LastSayDecides(ts[..n], path, i);
      if LeafAt(ts[n], path).Some? {
        LeafCovers(ts[n], path);
      }
    }
  }

  /** The tree has no say about the path, or puts a value there that equals `x`. */
  ghost predicate Agrees(t: Tree, path: seq<string>, x: Scalar) {
    Covers(t, path) ==> LeafAt(t, path).Some? && Equal(LeafAt(t, path).value, x)
  }

  /** The `i`-th tree puts `x` at the path, where the stack before it had nothing equal; all later trees agree. */
  ghost predicate Settles(ts: seq<Tree>, path: seq<string>, i: nat, x: Scalar) {
    && i < |ts| && LeafAt(ts[i], path) == Some(x)
    && (forall j :: i < j < |ts| ==> Agrees(ts[j], path, x))
    && (forall j: nat :: LastSay(ts[..i], path, j) ==> !Agrees(ts[j], path, x))
  }

  /** A merged stack has a value at a path exactly when one of the trees settles it: the last definer's value, or the
      earliest of the values that all equal it. */
  lemma {:induction false} LastDefinerWins(ts: seq<Tree>, path: seq<string>, x: Scalar)
    ensures LeafAt(OverlayAll(ts), path) == Some(x) <==> exists i: nat :: Settles(ts, path, i, x)
    decreases |ts|
  {
    hide Overlay, Covers, Canonical, Settles, SettlesLast;
    if ts == [] {
      NothingSettles(path, x);
    } else {
      var n := |ts| - 1;
      var rest, t := ts[..n], ts[n];
      LastDefinerWins(rest, path, x);
      LeafOrigin(OverlayAll(rest), t, path);
      if LeafAt(t, path).Some? {
        LeafCovers(t, path);
      }
      forall i: nat ensures Settles(ts, path, i, x) <==>
        if i < n then Settles(rest, path, i, x) && Agrees(t, path, x) else i == n && SettlesLast(ts, path, x)
      {
        SettlesFront(ts, path, i, x);
      }
      SettledByLast(ts, path, x);
      if LeafAt(OverlayAll(ts), path) == Some(x) {
        if LeafAt(OverlayAll(rest), path) == Some(x) {
          var i: nat :| Settles(rest, path, i, x);
          SettlesWithin(rest, path, i, x);
          assert Agrees(t, path, x);
          assert Settles(ts, path, i, x);
        } else {
          assert Settles(ts, path, n, x);
        }
      }
    }
  }

  lemma NothingSettles(path: seq<string>, x: Scalar)
    ensures LeafAt(OverlayAll([]), path).None? && forall i: nat :: !Settles([], path, i, x)
  {
    assert path != [] ==> At(Node(map[]), path).None?;
  }

  lemma SettlesWithin(ts: seq<Tree>, path: seq<string>, i: nat, x: Scalar)
    requires Settles(ts, path, i, x)
    ensures i < |ts|
  {
  }

  /** The last tree settles the value. */
  ghost predicate SettlesLast(ts: seq<Tree>, path: seq<string>, x: Scalar)
    requires ts != []
  {
    var n := |ts| - 1;
    && LeafAt(ts[n], path) == Some(x)
    && forall j: nat :: LastSay(ts[..n], path, j) ==> !Agrees(ts[j], path, x)
  }

  lemma SettlesFront(ts: seq<Tree>, path: seq<string>, i: nat, x: Scalar)
    requires ts != []
    ensures var n := |ts| - 1;
      Settles(ts, path, i, x) <==>
        if i < n then Settles(ts[..n], path, i, x) && Agrees(ts[n], path, x) else i == n && SettlesLast(ts, path, x)
  {
    hide Agrees, LastSay;
    var n := |ts| - 1;
    if i < n {
      assert ts[..n][..i] == ts[..i];
      assert forall j :: 0 <= j < n ==> ts[..n][j] == ts[j];
      forall j: nat | LastSay(ts[..i], path, j) ensures j < i {
        SaysWithin(ts[..i], path, j);
      }
    }
  }

  lemma SaysWithin(ts: seq<Tree>, path: seq<string>, j: nat)
    requires LastSay(ts, path, j)
    ensures j < |ts|
  {
  }

  /** The last tree settles its value exactly when the stack before it had no equal one. */
  lemma SettledByLast(ts: seq<Tree>, path: seq<string>, x: Scalar)
    requires ts != []
    ensures var n := |ts| - 1; var before := LeafAt(OverlayAll(ts[..n]), path);
      SettlesLast(ts, path, x) <==> LeafAt(ts[n], path) == Some(x) && !(before.Some? && Equal(before.value, x))
  {
    hide Overlay, Covers, OverlayAll;
    var n := |ts| - 1;
    var rest := ts[..n];
    if j: nat :| LastSay(rest, path, j) {
      LastSayDecides(rest, path, j);
      assert rest[j] == ts[j];
      forall k: nat | LastSay(rest, path, k) ensures k == j {
      }
    } else {
      NobodySays(rest, path);
    }
  }

  lemma {:induction false} NobodySays(ts: seq<Tree>, path: seq<string>)
    requires forall j: nat :: !LastSay(ts, path, j)
    ensures LeafAt(OverlayAll(ts), path).None? && forall j :: 0 <= j < |ts| ==> !Covers(ts[j], path)
    decreases |ts|
  {
    hide Overlay, Covers;
    if ts == [] {
      assert path != [] ==> At(Node(map[]), path).None?;
    } else {
      var n := |ts| - 1;
      assert !LastSay(ts, path, n);
      forall j: nat ensures !LastSay(ts[..n], path, j) {
        assert LastSay(ts[..n], path, j) ==> LastSay(ts, path, j);
      }
      NobodySays(ts[..n], path);
      LeafOrigin(OverlayAll(ts[..n]), ts[n], path);
      if LeafAt(ts[n], path).Some? {
        LeafCovers(ts[n], path);
      }
    }
  }

  lemma LeafCovers(t: Tree, path: seq<string>)
    requires LeafAt(t, path).Some?
    ensures Covers(t, path)
  {
    assert CoversAt(t, path, |path|);
  }

  /** The last tree with a say about a path settles a text literally. */
  lemma LastTextWins(ts: seq<Tree>, path: seq<string>, i: nat, s: string)
    requires LastSay(ts, path, i) && LeafAt(ts[i], path) == Some(Text(s))
    ensures LeafAt(OverlayAll(ts), path) == Some(Text(s))
  {
    hide LastSay, OverlayAll, LeafAt, Canonical;
    LastSayDecides(ts, path, i);
    EqualMeaning(Text(s), LeafAt(OverlayAll(ts), path).value);
    EqualMeaning(LeafAt(OverlayAll(ts), path).value, Text(s));
  }

  ghost predicate NodeAt(t: Tree, path: seq<string>) {
    At(t, path).Some? && At(t, path).value.Node?
  }

  /** Where the dictionaries of a merged tree come from. */
  lemma {:induction false} NodeOrigin(a: Tree, b: Tree, path: seq<string>)
    ensures NodeAt(Overlay(a, b), path) <==> NodeAt(b, path) || (NodeAt(a, path) && !Covers(b, path))
    decreases |path|
  {
    if path == [] {
      CoversHere(b);
    } else {
      CoversBelow(b, path);
      if a.Node? && b.Node? && path[0] in a.entries && path[0] in b.entries {
        NodeOrigin(a.entries[path[0]], b.entries[path[0]], path[1..]);
      } else if b.Node? && path[0] in b.entries && !Covers(b, path) {
        NotCovered(b.entries[path[0]], path[1..]);
      }
    }
  }

  /** Merging the same tree again changes nothing. */
  lemma {:induction false} MergeTwice(a: Tree, b: Tree)
    ensures Overlay(Overlay(a, b), b) == Overlay(a, b)
  {
    if a.Node? && b.Node? {
      forall k | k in a.entries && k in b.entries
        ensures Overlay(Overlay(a.entries[k], b.entries[k]), b.entries[k]) == Overlay(a.entries[k], b.entries[k])
      {
        MergeTwice(a.entries[k], b.entries[k]);
      }
      forall k | k in b.entries ensures Overlay(b.entries[k], b.entries[k]) == b.entries[k] {
        MergeSelf(b.entries[k]);
      }
    } else {
      MergeSelf(b);
    }
  }

  lemma {:induction false} MergeSelf(t: Tree)
    ensures Overlay(t, t) == t
  {
    if t.Node? {
      forall k | k in t.entries ensures Overlay(t.entries[k], t.entries[k]) == t.entries[k] {
        MergeSelf(t.entries[k]);
      }
    }
  }

  /** At this path the grouping shows: a value stands between two dictionaries, the first of which adds to the second;
      or a value comes back, equal but not the same, after something that does not equal it. */
  ghost predicate Detours(a: Tree, b: Tree, c: Tree, path: seq<string>) {
    var x, y, z := At(a, path), At(b, path), At(c, path);
    && x.Some? && y.Some? && z.Some?
    && (Sandwiched(x.value, y.value, z.value) || ComesBack(x.value, y.value, z.value))
  }

  ghost predicate Sandwiched(x: Tree, y: Tree, z: Tree) {
    x.Node? && y.Leaf? && z.Node? && Overlay(x, z) != z
  }

  ghost predicate ComesBack(x: Tree, y: Tree, z: Tree) {
    x.Leaf? && z.Leaf? && x != z && Equal(x.value, z.value) && !(y.Leaf? && Equal(x.value, y.value))
  }

  lemma DetourBelow(a: Tree, b: Tree, c: Tree, path: seq<string>)
    requires a.Node? && b.Node? && c.Node?
    ensures Detours(a, b, c, path) <==>
      path != [] && path[0] in a.entries && path[0] in b.entries && path[0] in c.entries
      && Detours(a.entries[path[0]], b.entries[path[0]], c.entries[path[0]], path[1..])
  {
  }

  ghost predicate Regroups(a: Tree, b: Tree, c: Tree) {
    Overlay(Overlay(a, b), c) == Overlay(a, Overlay(b, c))
  }

  /** Merging may be regrouped exactly when no path takes a detour. */
  lemma {:induction false} AssociativeExactlyWhen(a: Tree, b: Tree, c: Tree)
    ensures Regroups(a, b, c) <==> forall path :: !Detours(a, b, c, path)
    decreases a, 1
  {
    if a.Node? && b.Node? && c.Node? {
      AssociativeNodes(a, b, c);
    } else {
      forall path | path != [] ensures !Detours(a, b, c, path) {
      }
      DetourHere(a, b, c);
    }
  }

  /** Three trees that are not all dictionaries. */
  lemma DetourHere(a: Tree, b: Tree, c: Tree)
    requires !(a.Node? && b.Node? && c.Node?)
    ensures Regroups(a, b, c) <==> !Detours(a, b, c, [])
  {
    hide Canonical;
  }

  /** Regrouping can only matter at keys that all three dictionaries have. */
  lemma RegroupedKeys(a: Tree, b: Tree, c: Tree)
    requires a.Node? && b.Node? && c.Node?
    ensures Regroups(a, b, c) <==>
      forall k :: k in a.entries && k in b.entries && k in c.entries ==>
        Regroups(a.entries[k], b.entries[k], c.entries[k])
  {
    var l, r := Overlay(Overlay(a, b), c), Overlay(a, Overlay(b, c));
    assert l.entries.Keys == r.entries.Keys;
    forall k | k in l.entries
      ensures l.entries[k] == r.entries[k] <==>
        (k in a.entries && k in b.entries && k in c.entries ==> Regroups(a.entries[k], b.entries[k], c.entries[k]))
    {
    }
  }

  lemma {:induction false} AssociativeNodes(a: Tree, b: Tree, c: Tree)
    requires a.Node? && b.Node? && c.Node?
    ensures Regroups(a, b, c) <==> forall path :: !Detours(a, b, c, path)
    decreases a, 0
  {
    hide Overlay, Regroups, Detours;
    RegroupedKeys(a, b, c);
    if Regroups(a, b, c) {
      forall path ensures !Detours(a, b, c, path) {
        DetourBelow(a, b, c, path);
        if path != [] && path[0] in a.entries && path[0] in b.entries && path[0] in c.entries {
          AssociativeExactlyWhen(a.entries[path[0]], b.entries[path[0]], c.entries[path[0]]);
        }
      }
    } else {
      var k :| k in a.entries && k in b.entries && k in c.entries
        && !Regroups(a.entries[k], b.entries[k], c.entries[k]);
      AssociativeExactlyWhen(a.entries[k], b.entries[k], c.entries[k]);
      var path :| Detours(a.entries[k], b.entries[k], c.entries[k], path);
      assert ([k] + path)[1..] == path;
      DetourBelow(a, b, c, [k] + path);
    }
  }

  ghost predicate SandwichAt(a: Tree, b: Tree, c: Tree, path: seq<string>) {
    var x, y, z := At(a, path), At(b, path), At(c, path);
    x.Some? && y.Some? && z.Some? && Sandwiched(x.value, y.value, z.value)
  }

  /** Up to equal values, only a value between two dictionaries matters. */
  lemma AssociativeUpToEqual(a: Tree, b: Tree, c: Tree)
    ensures CanonicalTree(Overlay(Overlay(a, b), c)) == CanonicalTree(Overlay(a, Overlay(b, c))) <==>
      forall path :: !SandwichAt(CanonicalTree(a), CanonicalTree(b), CanonicalTree(c), path)
  {
    hide Overlay, CanonicalTree, Sandwiched, ComesBack;
    OverlayCanonical(Overlay(a, b), c);
    OverlayCanonical(a, b);
    OverlayCanonical(a, Overlay(b, c));
    OverlayCanonical(b, c);
    AssociativeExactlyWhen(CanonicalTree(a), CanonicalTree(b), CanonicalTree(c));
    forall path ensures
      Detours(CanonicalTree(a), CanonicalTree(b), CanonicalTree(c), path)
        == SandwichAt(CanonicalTree(a), CanonicalTree(b), CanonicalTree(c), path)
    {
      NothingComesBack(a, b, c, path);
    }
  }

  lemma NothingComesBack(a: Tree, b: Tree, c: Tree, path: seq<string>)
    ensures Detours(CanonicalTree(a), CanonicalTree(b), CanonicalTree(c), path)
      == SandwichAt(CanonicalTree(a), CanonicalTree(b), CanonicalTree(c), path)
  {
    hide Overlay, CanonicalTree, Canonical;
    CanonicalAt(a, path);
    CanonicalAt(c, path);
  }

  lemma {:induction false} CanonicalAt(t: Tree, path: seq<string>)
    ensures At(CanonicalTree(t), path).Some? && At(CanonicalTree(t), path).value.Leaf? ==>
      var x := At(CanonicalTree(t), path).value.value; Canonical(x) == x
    decreases |path|
  {
    if path != [] && t.Node? && path[0] in t.entries {
      CanonicalAt(t.entries[path[0]], path[1..]);
    } else if t.Leaf? {
      CanonicalTwice(t.value);
    }
  }

  /** Grouping shows although no value stands between two dictionaries. */
  lemma GroupingShows()
    ensures !Regroups(Leaf(Int(1)), Leaf(Int(2)), Leaf(Bool(true)))
  {
  }
}

/** The dictionaries as objects: merging writes into the first one and takes over parts of the second. */
module ConfigDicts {
  import opened ConfigTrees

  datatype Value = Plain(value: Scalar) | Sub(dict: Dict)

  /** The objects a value is made of. */
  ghost function Footprint(v: Value): set<Dict>
    reads if v.Sub? then {v.dict} else {}
  {
    if v.Sub? then v.dict.Repr else {}
  }

  ghost predicate ValidValue(v: Value)
    reads if v.Sub? then {v.dict} + v.dict.Repr else {}
  {
    v.Sub? ==> v.dict.Valid()
  }

  ghost function TreeOf(v: Value): Tree
    requires ValidValue(v)
    reads if v.Sub? then {v.dict} + v.dict.Repr else {}
  {
    if v.Sub? then v.dict.Contents() else Leaf(v.value)
  }

  /** Merging a single entry into a dictionary. */
  ghost function WithEntry(t: Tree, key: string, u: Tree): Tree
    requires t.Node?
  {
    Node(t.entries[key := if key in t.entries then Overlay(t.entries[key], u) else u])
  }

  ghost function Restricted(t: Tree, keys: set<string>): Tree
    requires t.Node?
  {
    Node(map k | k in t.entries && k in keys :: t.entries[k])
  }

  lemma OneMoreEntry(a: Tree, b: Tree, keys: set<string>, key: string)
    requires a.Node? && b.Node? && key in b.entries && key !in keys
    ensures WithEntry(Overlay(a, Restricted(b, keys)), key, b.entries[key]) == Overlay(a, Restricted(b, keys + {key}))
  {
    var l := WithEntry(Overlay(a, Restricted(b, keys)), key, b.entries[key]);
    var r := Overlay(a, Restricted(b, keys + {key}));
    assert l.entries.Keys == r.entries.Keys;
    forall k | k in l.entries ensures l.entries[k] == r.entries[k] {
      assert k in Restricted(b, keys + {key}).entries <==> k in Restricted(b, keys).entries || k == key;
    }
  }

  lemma NoEntries(a: Tree, b: Tree)
    requires a.Node? && b.Node?
    ensures Overlay(a, Restricted(b, {})) == a
    ensures Restricted(b, b.entries.Keys) == b
  {
  }

  lemma OverlayValues(t: Tree, u: Tree)
    ensures !(t.Node? && u.Node?) ==>
      Overlay(t, u) == if t.Leaf? && u.Leaf? && Equal(t.value, u.value) then t else u
  {
  }

  class Dict {
    var entries: map<string, Value>
    ghost var Repr: set<Dict>

    /** A finite tree: no dictionary is reachable twice. */
    ghost predicate Valid()
      reads this, Repr
      decreases Repr
    {
      && this in Repr
      && (forall k :: k in entries && entries[k].Sub? ==>
            && entries[k].dict in Repr
            && entries[k].dict.Repr < Repr
            && this !in entries[k].dict.Repr
            && entries[k].dict.Valid())
      && forall j, k :: j in entries && k in entries && j != k && entries[j].Sub? && entries[k].Sub? ==>
           entries[j].dict.Repr !! entries[k].dict.Repr
    }

    ghost function Contents(): Tree
      requires Valid()
      reads this, Repr
      decreases Repr
    {
      Node(map k | k in entries :: if entries[k].Sub? then entries[k].dict.Contents() else Leaf(entries[k].value))
    }

    constructor ()
      ensures Valid() && fresh(Repr) && Contents() == Node(map[])
    {
      entries := map[];
      Repr := {this};
    }

    /** Merges every entry of `b` into this dictionary, in any order of the keys. */
    method DeepMerge(b: Dict)
      requires Valid() && b.Valid() && Repr !! b.Repr
      modifies Repr
      ensures Valid() && Repr <= old(Repr) + b.Repr
      ensures Contents() == Overlay(old(Contents()), old(b.Contents()))
      decreases b.Repr, 0
    {
      hide Overlay, WithEntry, Restricted;
      ghost var was, with := Contents(), b.Contents();
      ghost var repr := Repr;
      NoEntries(was, with);
      var keys := b.entries.Keys;
      ghost var merged: set<string> := {};
      while keys != {}
        invariant merged !! keys && merged + keys == b.entries.Keys
        invariant Valid() && Contents() == Overlay(was, Restricted(with, merged))
        invariant Repr <= repr + b.Repr
        invariant forall k :: k in keys && b.entries[k].Sub? ==> b.entries[k].dict.Repr !! Repr
        invariant forall k :: k in keys && k in entries && entries[k].Sub? ==> entries[k].dict.Repr <= repr
        decreases keys
      {
        var key :| key in keys;
        OneMoreEntry(was, with, merged, key);
        MergeEntry(key, b.entries[key]);
        keys, merged := keys - {key}, merged + {key};
      }
      assert merged == with.entries.Keys;
    }

    method MergeEntry(key: string, v: Value)
      requires Valid() && ValidValue(v) && Footprint(v) !! Repr
      modifies this, if key in entries then Footprint(entries[key]) else {}
      ensures Valid() && Repr <= old(Repr) + Footprint(v)
      ensures Contents() == WithEntry(old(Contents()), key, old(TreeOf(v)))
      ensures forall k :: k != key && k in entries ==>
        && k in old(entries) && entries[k] == old(entries)[k]
        && (entries[k].Sub? ==> entries[k].dict.Repr == old(entries[k].dict.Repr))
      decreases Footprint(v), 2
    {
      hide Overlay, Equal;
      if key in entries {
        OverlayValues(TreeOf(entries[key]), TreeOf(v));
        if entries[key].Sub? && v.Sub? {
          MergeSub(key, v.dict);
        } else if entries[key].Sub? || v.Sub? || !Equal(entries[key].value, v.value) {
          Assign(key, v);
        }
      } else {
        Assign(key, v);
      }
    }

    method MergeSub(key: string, d: Dict)
      requires Valid() && key in entries && entries[key].Sub? && d.Valid() && d.Repr !! Repr
      modifies this`Repr, Footprint(entries[key])
      ensures Valid() && Repr <= old(Repr) + d.Repr && entries == old(entries)
      ensures Contents() == WithEntry(old(Contents()), key, old(d.Contents()))
      ensures forall k :: k != key && k in entries && entries[k].Sub? ==>
        entries[k].dict.Repr == old(entries[k].dict.Repr)
      decreases d.Repr, 1
    {
      hide Overlay;
      entries[key].dict.DeepMerge(d);
      Repr := Repr + entries[key].dict.Repr;
    }

    method Assign(key: string, v: Value)
      requires Valid() && ValidValue(v) && Footprint(v) !! Repr
      modifies this
      ensures Valid() && Repr == old(Repr) + Footprint(v)
      ensures entries == old(entries)[key := v]
      ensures Contents() == Node(old(Contents()).entries[key := old(TreeOf(v))])
    {
      entries := entries[key := v];
      Repr := Repr + Footprint(v);
    }
  }
}
