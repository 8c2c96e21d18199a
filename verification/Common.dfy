/** Small vocabulary shared by the models: optional values, duplicate-free sequences, and counting facts. */
module Common {

  datatype Option<+T> = None | Some(value: T)

  ghost function Elems<T>(s: seq<T>): set<T> {
    set x | x in s
  }

  ghost predicate NoDup<T>(s: seq<T>) {
    forall i, j :: 0 <= i < j < |s| ==> s[i] != s[j]
  }

  /** Appending a new element keeps a sequence free of duplicates. */
  lemma NoDupAppend<T>(s: seq<T>, x: T)
    requires NoDup(s) && x !in s
    ensures NoDup(s + [x])
  {
  }

  /** A duplicate-free sequence drawn from a finite set is no longer than the set, and fills it when equally long. */
  lemma {:induction false} NoDupFits<T>(s: seq<T>, bound: set<T>)
    requires NoDup(s)
    requires forall x :: x in s ==> x in bound
    ensures |s| <= |bound|
    ensures |s| == |bound| ==> forall x :: x in bound ==> x in s
    decreases |s|
  {
    if s == [] {
    } else {
      var last := s[|s| - 1];
      var rest := s[..|s| - 1];
      assert last !in rest;
      NoDupFits(rest, bound - {last});
      assert forall x :: x in s <==> x in rest || x == last;
    }
  }

  /** Pigeonhole: a sequence longer than the set it is drawn from repeats an element. */
  lemma Pigeonhole<T>(s: seq<T>, bound: set<T>)
    requires forall x :: x in s ==> x in bound
    requires |s| > |bound|
    ensures exists i, j :: 0 <= i < j < |s| && s[i] == s[j]
  {
    if NoDup(s) {
      NoDupFits(s, bound);
    }
  }

  /** The elements of a duplicate-free sequence are as many as its positions. */
  lemma {:induction false} NoDupCount<T>(s: seq<T>)
    requires NoDup(s)
    ensures |Elems(s)| == |s|
    decreases |s|
  {
    if s == [] {
    } else {
      var last := s[|s| - 1];
      var rest := s[..|s| - 1];
      NoDupCount(rest);
      assert Elems(s) == Elems(rest) + {last};
    }
  }

  lemma {:induction false} NoDupMultiset<T>(s: seq<T>)
    requires NoDup(s)
    ensures forall x :: multiset(s)[x] == if x in s then 1 else 0
    decreases |s|
  {
    if s == [] {
    } else {
      var rest := s[..|s| - 1];
      assert s == rest + [s[|s| - 1]];
      NoDupMultiset(rest);
    }
  }

  /** Two sequences side by side repeat nothing exactly when neither does and they share nothing. */
  lemma NoDupConcat<T>(a: seq<T>, b: seq<T>)
    ensures NoDup(a + b) <==> NoDup(a) && NoDup(b) && forall x :: x in a ==> x !in b
  {
    var both := a + b;
    assert forall i :: 0 <= i < |a| ==> both[i] == a[i];
    assert forall i :: 0 <= i < |b| ==> both[|a| + i] == b[i];
    if NoDup(both) {
      forall i, j | 0 <= i < j < |b| ensures b[i] != b[j] {
        assert both[|a| + i] != both[|a| + j];
      }
      forall x | x in a ensures x !in b {
        var i :| 0 <= i < |a| && a[i] == x;
        forall j | 0 <= j < |b| ensures b[j] != x {
          assert both[i] != both[|a| + j];
        }
      }
    } else {
      var i, j :| 0 <= i < j < |both| && both[i] == both[j];
      if i < |a| <= j {
        assert b[j - |a|] in b && a[i] in a;
      } else if |a| <= i {
        assert b[i - |a|] == b[j - |a|];
      }
    }
  }
}
