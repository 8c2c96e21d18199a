/** Fetching a configuration file that may redirect to another one. */
module Redirect {
  import opened Common

  /** A fetched file: nothing in it, or a configuration that may name another file. */
  datatype Config = Empty | Config(body: string, redirect: Option<string>)

  datatype Outcome = Found(config: Config) | RedirectLoop(file: string) | Unreadable(file: string)

  function Next(files: map<string, Config>, file: string): Option<string> {
    if file in files && files[file].Config? then files[file].redirect else None
  }

  /** The file that so many redirects lead to. */
  function At(files: map<string, Config>, start: string, k: nat): Option<string> {
    if k == 0 then Some(start)
    else
      var before := At(files, start, k - 1);
      if before.None? then None else Next(files, before.value)
  }

  ghost predicate ChainVisits(files: map<string, Config>, start: string, k: nat, file: string) {
    At(files, start, k) == Some(file)
  }

  ghost predicate ChainEndsIn(files: map<string, Config>, start: string, config: Config) {
    exists k: nat, file ::
      && ChainVisits(files, start, k, file)
      && file in files && files[file] == config && Next(files, file).None?
  }

  ghost predicate ChainLeadsOut(files: map<string, Config>, start: string, file: string) {
    file !in files && exists k: nat :: ChainVisits(files, start, k, file)
  }

  ghost predicate Revisits(files: map<string, Config>, start: string, i: nat, j: nat) {
    i < j && At(files, start, i).Some? && At(files, start, i) == At(files, start, j)
  }

  ghost predicate ChainLoops(files: map<string, Config>, start: string) {
    exists i: nat, j: nat :: Revisits(files, start, i, j)
  }

  lemma {:induction false} SomeBefore(files: map<string, Config>, start: string, i: nat, k: nat)
    requires i <= k && At(files, start, k).Some?
    ensures At(files, start, i).Some?
    decreases k - i
  {
    if i < k {
      SomeBefore(files, start, i, k - 1);
    }
  }

  lemma {:induction false} Periodic(files: map<string, Config>, start: string, i: nat, j: nat, n: nat)
    requires At(files, start, i) == At(files, start, j)
    ensures At(files, start, i + n) == At(files, start, j + n)
    decreases n
  {
    if n > 0 {
      Periodic(files, start, i, j, n - 1);
    }
  }

  /** A chain that stops never revisits a file, and it stops at one place only. */
  lemma StopsOnce(files: map<string, Config>, start: string, k: nat, file: string)
    requires ChainVisits(files, start, k, file) && Next(files, file).None?
    ensures !ChainLoops(files, start)
    ensures forall m: nat, other :: ChainVisits(files, start, m, other) && Next(files, other).None? ==>
      m == k && other == file
  {
    forall m: nat | m > k ensures At(files, start, m).None? {
      if At(files, start, m).Some? {
        SomeBefore(files, start, k + 1, m);
      }
    }
    forall i: nat, j: nat ensures !Revisits(files, start, i, j) {
      if Revisits(files, start, i, j) {
        var n := k - j;
        Periodic(files, start, i, j, n + 1);
        SomeBefore(files, start, i + n + 1, k);
      }
    }
    forall m: nat, other | ChainVisits(files, start, m, other) && Next(files, other).None?
      ensures m == k && other == file
    {
      if m < k {
        SomeBefore(files, start, m + 1, k);
      }
    }
  }

  /** The files fetched so far are the chain's first ones, without repetition. */
  ghost predicate FetchedSoFar(files: map<string, Config>, start: string, fetched: seq<string>, visited: set<string>) {
    && NoDup(fetched) && visited == Elems(fetched)
    && forall k: nat :: k < |fetched| ==> ChainVisits(files, start, k, fetched[k])
  }

  /** Follows the redirects, remembering the files fetched. */
  method FetchTemplate(files: map<string, Config>, start: string) returns (outcome: Outcome, fetched: seq<string>)
    ensures forall config :: outcome == Found(config) <==> ChainEndsIn(files, start, config)
    ensures outcome.RedirectLoop? <==> ChainLoops(files, start)
    ensures forall file :: outcome == Unreadable(file) <==> ChainLeadsOut(files, start, file)
    ensures FetchedSoFar(files, start, fetched, Elems(fetched))
    ensures |fetched| <= |files| + 1
  {
    hide ChainEndsIn, ChainLeadsOut, ChainLoops, ChainVisits, FetchedSoFar, NoDup, Elems;
    var file, visited: set<string> := start, {};
    fetched := [];
    AtStart(files, start);
    while true
      invariant FetchedSoFar(files, start, fetched, visited)
      invariant file !in visited && visited <= files.Keys
      invariant ChainVisits(files, start, |fetched|, file)
      decreases files.Keys - visited
    {
      ghost var n := |fetched|;
      FetchedNext(files, start, fetched, visited, file);
      visited := visited + {file};
      fetched := fetched + [file];
      if file !in files {
        LeadsOut(files, start, n, file);
        return Unreadable(file), fetched;
      }
      if files[file].Empty? || files[file].redirect.None? {
        EndsHere(files, start, n, file);
        return Found(files[file]), fetched;
      }
      Follow(files, start, n, file);
      file := files[file].redirect.value;
      if file in visited {
        Loops(files, start, fetched, visited, file);
        return RedirectLoop(file), fetched;
      }
    }
  }

  lemma FetchedNext(files: map<string, Config>, start: string, fetched: seq<string>, visited: set<string>, file: string)
    requires FetchedSoFar(files, start, fetched, visited) && file !in visited && visited <= files.Keys
    requires ChainVisits(files, start, |fetched|, file)
    ensures FetchedSoFar(files, start, fetched + [file], visited + {file})
    ensures visited + {file} == Elems(fetched + [file])
    ensures |fetched| + 1 <= |files| + 1
  {
    hide ChainVisits;
    NoDupAppend(fetched, file);
    NoDupFits(fetched, files.Keys);
    assert |files.Keys| == |files|;
  }

  lemma AtStart(files: map<string, Config>, start: string)
    ensures ChainVisits(files, start, 0, start) && FetchedSoFar(files, start, [], {})
  {
  }

  lemma Follow(files: map<string, Config>, start: string, n: nat, file: string)
    requires ChainVisits(files, start, n, file)
    requires file in files && files[file].Config? && files[file].redirect.Some?
    ensures var m := n + 1; ChainVisits(files, start, m, files[file].redirect.value)
  {
  }

  lemma LeadsOut(files: map<string, Config>, start: string, n: nat, file: string)
    requires ChainVisits(files, start, n, file) && file !in files
    ensures !ChainLoops(files, start) && forall config :: !ChainEndsIn(files, start, config)
    ensures forall other :: ChainLeadsOut(files, start, other) <==> other == file
  {
    StopsOnce(files, start, n, file);
  }

  lemma EndsHere(files: map<string, Config>, start: string, n: nat, file: string)
    requires ChainVisits(files, start, n, file) && file in files
    requires files[file].Empty? || files[file].redirect.None?
    ensures !ChainLoops(files, start) && forall other :: !ChainLeadsOut(files, start, other)
    ensures forall config :: ChainEndsIn(files, start, config) <==> config == files[file]
  {
    StopsOnce(files, start, n, file);
  }

  lemma Loops(files: map<string, Config>, start: string, fetched: seq<string>, visited: set<string>, file: string)
    requires FetchedSoFar(files, start, fetched, visited) && file in visited
    requires ChainVisits(files, start, |fetched|, file)
    ensures ChainLoops(files, start)
    ensures forall config :: !ChainEndsIn(files, start, config)
    ensures forall other :: !ChainLeadsOut(files, start, other)
  {
    var i: nat :| i < |fetched| && fetched[i] == file;
    assert ChainVisits(files, start, i, fetched[i]);
    assert Revisits(files, start, i, |fetched|);
    forall k: nat, other | ChainVisits(files, start, k, other) ensures Next(files, other).Some? {
      if Next(files, other).None? {
        StopsOnce(files, start, k, other);
      }
    }
  }
}
