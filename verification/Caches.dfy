/** Build caches: archives on the host that are restored into a container and saved from it. */
module Caches {
  import opened Common

  const HISTORY := "cache_history.log"

  /** A file of the host, by its directory and its name there. */
  datatype CacheFile = CacheFile(dir: string, name: string)
  datatype File = File(data: string, time: real)
  datatype Disk = Disk(dirs: set<string>, files: map<CacheFile, File>)

  /** One entry of the cache map: an archive and the container path it belongs to. */
  datatype Cache = Cache(file: CacheFile, path: string)

  ghost predicate ValidDisk(d: Disk) {
    forall f :: f in d.files ==> f.dir in d.dirs
  }

  function HistoryLog(dir: string): CacheFile {
    CacheFile(dir, HISTORY)
  }

  /** The last position of a character, or -1. */
  function LastIndex(s: string, c: char): (k: int)
    ensures -1 <= k < |s|
    ensures k >= 0 ==> s[k] == c
    ensures forall i :: k < i < |s| ==> s[i] != c
  {
    if s == "" then -1 else if s[|s| - 1] == c then |s| - 1 else LastIndex(s[..|s| - 1], c)
  }

  /** A file name without its last suffix. */
  function Stem(name: string): (stem: string)
    ensures stem <= name
  {
    var k := LastIndex(name, '.');
    if 0 < k < |name| - 1 then name[..k] else name
  }

  /** The suffix begins at the last dot, unless that is the first or the last character. */
  lemma StemMeaning(name: string)
    ensures forall k :: 0 < k < |name| - 1 && name[k] == '.' && '.' !in name[k + 1..] ==> Stem(name) == name[..k]
    ensures (forall k :: 0 < k < |name| - 1 && name[k] == '.' ==> '.' in name[k + 1..]) ==> Stem(name) == name
  {
    hide LastIndex;
    var last := LastIndex(name, '.');
    forall k | 0 < k < |name| - 1 && name[k] == '.' && '.' !in name[k + 1..] ensures last == k {
      LastDot(name, k);
    }
    if 0 < last < |name| - 1 {
      assert '.' !in name[last + 1..];
    }
  }

  lemma LastDot(name: string, k: nat)
    requires k < |name| && name[k] == '.' && '.' !in name[k + 1..]
    ensures LastIndex(name, '.') == k
  {
    hide LastIndex;
    assert forall q :: k < q < |name| ==> name[q] in name[k + 1..];
  }

  lemma StemIsCacheName(name: string)
    requires name != ""
    ensures Stem(name + ".tar") == name
  {
    var whole := name + ".tar";
    assert whole[|name|] == '.' && whole[..|name|] == name;
    assert LastIndex(whole, '.') == |name|;
  }

  // ---- which archive a cache name stands for

  ghost predicate Matches(d: Disk, key: CacheFile, f: CacheFile) {
    f in d.files && f.dir == key.dir && Stem(key.name) <= f.name && d.files[f].time > 0.0
  }

  /** The archive named exactly, else a most recently modified one whose name starts with the key. */
  ghost predicate IsPick(d: Disk, key: CacheFile, pick: Option<CacheFile>) {
    match pick
    case None => key !in d.files && forall f :: f in d.files ==> !Matches(d, key, f)
    case Some(f) =>
      if key in d.files then f == key
      else Matches(d, key, f) && forall g :: g in d.files && Matches(d, key, g) ==> d.files[g].time <= d.files[f].time
  }

  ghost predicate HasArchive(d: Disk, key: CacheFile) {
    !IsPick(d, key, None)
  }

  /** On every disk, the history log is restored in place of an archive exactly when the archive is missing, its name
      begins the log's own name, and no file that matches it is newer than the log. */
  lemma HistoryLogPicked(d: Disk, key: CacheFile)
    requires key != HistoryLog(key.dir)
    ensures var log := HistoryLog(key.dir);
      IsPick(d, key, Some(log)) <==>
        && key !in d.files && Stem(key.name) <= "cache_history.log"
        && log in d.files && d.files[log].time > 0.0
        && forall f :: f in d.files && Matches(d, key, f) ==> d.files[f].time <= d.files[log].time
  {
  }

  /** There is a disk on which the history log is restored in place of a missing archive. */
  ghost predicate LogCanBePicked(key: CacheFile) {
    exists d: Disk :: ValidDisk(d) && key !in d.files && IsPick(d, key, Some(HistoryLog(key.dir)))
  }

  /** This can happen to an archive exactly when its name begins the name of the log. */
  lemma LogCanBePickedExactlyWhen(key: CacheFile)
    requires key != HistoryLog(key.dir)
    ensures LogCanBePicked(key) <==> Stem(key.name) <= "cache_history.log"
  {
    if Stem(key.name) <= HISTORY {
      var d := Disk({key.dir}, map[HistoryLog(key.dir) := File("line", 1.0)]);
      HistoryLogPicked(d, key);
      assert ValidDisk(d) && key !in d.files && IsPick(d, key, Some(HistoryLog(key.dir)));
    } else if d: Disk :| ValidDisk(d) && key !in d.files && IsPick(d, key, Some(HistoryLog(key.dir))) {
      HistoryLogPicked(d, key);
    }
  }

  // ---- restoring

  datatype Put = Put(path: string, file: CacheFile, data: string, accepted: bool)

  /** What became of one entry: its path was served before, nothing to restore, failed before the archive was sent, or
      sent. */
  datatype Try = Already | NoArchive | Early(file: CacheFile) | Sent(file: CacheFile, accepted: bool)

  ghost predicate SentBefore(caches: seq<Cache>, tries: seq<Try>, i: nat, path: string) {
    exists j :: 0 <= j < i && j < |caches| && j < |tries| && tries[j].Sent? && caches[j].path == path
  }

  ghost predicate TryAllowed(d: Disk, caches: seq<Cache>, tries: seq<Try>, i: nat)
    requires i < |tries| <= |caches|
  {
    if SentBefore(caches, tries, i, caches[i].path) then tries[i] == Already
    else
      match tries[i]
      case Already => false
      case NoArchive => IsPick(d, caches[i].file, None)
      case Early(f) => IsPick(d, caches[i].file, Some(f))
      case Sent(f, _) => IsPick(d, caches[i].file, Some(f))
  }

  ghost predicate Restoring(d: Disk, caches: seq<Cache>, tries: seq<Try>) {
    |tries| <= |caches| && forall i :: 0 <= i < |tries| ==> TryAllowed(d, caches, tries, i)
  }

  /** The archives sent to the container, with what they held. */
  ghost function PutsOf(d: Disk, caches: seq<Cache>, tries: seq<Try>): seq<Put>
    requires |tries| <= |caches|
  {
    if tries == [] then []
    else
      var n := |tries| - 1;
      PutsOf(d, caches, tries[..n]) +
      match tries[n]
      case Sent(f, accepted) => if f in d.files then [Put(caches[n].path, f, d.files[f].data, accepted)] else []
      case _ => []
  }

  lemma RestoringNext(d: Disk, caches: seq<Cache>, tries: seq<Try>, t: Try)
    requires Restoring(d, caches, tries) && |tries| < |caches|
    requires TryAllowed(d, caches, tries + [t], |tries|)
    ensures Restoring(d, caches, tries + [t])
  {
    var more := tries + [t];
    forall i | 0 <= i < |tries| ensures TryAllowed(d, caches, more, i) {
      assert TryAllowed(d, caches, tries, i);
      assert SentBefore(caches, more, i, caches[i].path) == SentBefore(caches, tries, i, caches[i].path);
    }
  }

  ghost predicate SentAfter(caches: seq<Cache>, tries: seq<Try>, t: Try, path: string)
    requires |tries| < |caches|
  {
    SentBefore(caches, tries, |tries|, path) || (t.Sent? && caches[|tries|].path == path)
  }

  lemma SentNext(caches: seq<Cache>, tries: seq<Try>, t: Try, path: string)
    requires |tries| < |caches|
    ensures SentBefore(caches, tries + [t], |tries|, path) == SentBefore(caches, tries, |tries|, path)
    ensures SentBefore(caches, tries + [t], |tries| + 1, path) <==> SentAfter(caches, tries, t, path)
  {
    var n := |tries|;
    var more := tries + [t];
    forall j | 0 <= j < n ensures more[j] == tries[j] {}
    if t.Sent? && caches[n].path == path {
      assert more[n].Sent?;
    }
  }

  /** A path gets an archive from the first of its entries that has one and is not stopped before sending it; every
      other entry of the path sends nothing. */
  lemma FirstArchiveIsSent(d: Disk, caches: seq<Cache>, tries: seq<Try>, i: nat)
    requires Restoring(d, caches, tries) && i < |tries|
    ensures tries[i].Sent? <==>
      && HasArchive(d, caches[i].file) && !tries[i].Early?
      && forall j :: 0 <= j < i && caches[j].path == caches[i].path ==>
           !HasArchive(d, caches[j].file) || tries[j].Early?
    ensures tries[i].Sent? ==> IsPick(d, caches[i].file, Some(tries[i].file))
  {
    assert TryAllowed(d, caches, tries, i);
    if tries[i].Sent? {
      forall j | 0 <= j < i && caches[j].path == caches[i].path
        ensures !HasArchive(d, caches[j].file) || tries[j].Early?
      {
        assert TryAllowed(d, caches, tries, j);
        if tries[j].Already? {
          assert SentBefore(caches, tries, i, caches[i].path);
        }
      }
    } else if tries[i].Already? {
      var j :| 0 <= j < i && tries[j].Sent? && caches[j].path == caches[i].path;
      assert TryAllowed(d, caches, tries, j);
    }
  }

  ghost predicate PathsDiffer(puts: seq<Put>) {
    forall a, b :: 0 <= a < b < |puts| ==> puts[a].path != puts[b].path
  }

  /** A container path is sent at most one archive. */
  lemma {:induction false} OneArchivePerPath(d: Disk, caches: seq<Cache>, tries: seq<Try>)
    requires Restoring(d, caches, tries)
    ensures PathsDiffer(PutsOf(d, caches, tries))
    ensures forall put :: put in PutsOf(d, caches, tries) ==> SentBefore(caches, tries, |tries|, put.path)
    decreases |tries|
  {
    if tries != [] {
      var n := |tries| - 1;
      var front := tries[..n];
      assert front + [tries[n]] == tries;
      RestoringFront(d, caches, tries);
      OneArchivePerPath(d, caches, front);
      forall path: string
        ensures SentBefore(caches, tries, n, path) == SentBefore(caches, front, n, path)
        ensures SentBefore(caches, front, n, path) ==> SentBefore(caches, tries, n + 1, path)
        ensures tries[n].Sent? && caches[n].path == path ==> SentBefore(caches, tries, n + 1, path)
      {
        SentNext(caches, front, tries[n], path);
      }
      assert TryAllowed(d, caches, tries, n);
      var sent := PutsOf(d, caches, front);
      forall a | 0 <= a < |sent| ensures SentBefore(caches, tries, n, sent[a].path) {
        assert sent[a] in sent;
      }
      var puts := PutsOf(d, caches, tries);
      forall a, b | 0 <= a < b < |puts| ensures puts[a].path != puts[b].path {
        assert puts[a] == sent[a] && SentBefore(caches, tries, n, puts[a].path);
        if b < |sent| {
          assert puts[b] == sent[b];
        } else {
          assert puts[b].path == caches[n].path && !SentBefore(caches, tries, n, caches[n].path);
          assert puts[a].path != puts[b].path;
        }
      }
    }
  }

  lemma RestoringFront(d: Disk, caches: seq<Cache>, tries: seq<Try>)
    requires Restoring(d, caches, tries) && tries != []
    ensures Restoring(d, caches, tries[..|tries| - 1])
  {
    var front := tries[..|tries| - 1];
    forall i | 0 <= i < |front| ensures TryAllowed(d, caches, front, i) {
      assert TryAllowed(d, caches, tries, i);
      assert SentBefore(caches, front, i, caches[i].path) == SentBefore(caches, tries, i, caches[i].path);
    }
  }

  // ---- saving

  /** What became of one entry: its path was saved before, it was written, or it failed and left the disk like this. */
  datatype Save = Again | Wrote(line: string, lineTime: real, data: string, time: real) | Failed(left: Disk)

  ghost predicate MentionedBefore(caches: seq<Cache>, i: nat, path: string) {
    exists j :: 0 <= j < i && j < |caches| && caches[j].path == path
  }

  function WithLine(d: Disk, dir: string, line: string, time: real): Disk {
    var log := HistoryLog(dir);
    d.(files := d.files[log := File((if log in d.files then d.files[log].data else "") + line, time)])
  }

  function AfterSave(d: Disk, c: Cache, s: Save): Disk {
    match s
    case Again => d
    case Failed(left) => left
    case Wrote(line, lineTime, data, time) =>
      var logged := WithLine(d, c.file.dir, line, lineTime);
      logged.(files := logged.files[c.file := File(data, time)])
  }

  ghost function AfterSaves(d: Disk, caches: seq<Cache>, saves: seq<Save>): Disk
    requires |saves| <= |caches|
  {
    if saves == [] then d
    else AfterSave(AfterSaves(d, caches, saves[..|saves| - 1]), caches[|saves| - 1], saves[|saves| - 1])
  }

  /** Two disks agree but for the archive of an entry and the history log beside it. */
  ghost predicate OnlyTouches(d: Disk, left: Disk, c: Cache) {
    && left.dirs == d.dirs
    && forall f :: f != c.file && f != HistoryLog(c.file.dir) ==>
         (f in left.files <==> f in d.files) && (f in d.files ==> left.files[f] == d.files[f])
  }

  ghost predicate SaveAllowed(d: Disk, caches: seq<Cache>, saves: seq<Save>, i: nat)
    requires i < |saves| <= |caches|
  {
    if MentionedBefore(caches, i, caches[i].path) then saves[i] == Again
    else
      match saves[i]
      case Again => false
      case Wrote(_, _, _, _) => caches[i].file.dir in d.dirs
      case Failed(left) => i == |saves| - 1 && OnlyTouches(AfterSaves(d, caches, saves[..i]), left, caches[i])
  }

  ghost predicate Saving(d: Disk, caches: seq<Cache>, saves: seq<Save>) {
    |saves| <= |caches| && forall i :: 0 <= i < |saves| ==> SaveAllowed(d, caches, saves, i)
  }

  ghost predicate ErrorFree(saves: seq<Save>) {
    forall s :: s in saves ==> !s.Failed?
  }

  lemma SavingFront(d: Disk, caches: seq<Cache>, saves: seq<Save>)
    requires Saving(d, caches, saves) && saves != []
    ensures Saving(d, caches, saves[..|saves| - 1]) && ErrorFree(saves[..|saves| - 1])
  {
    hide AfterSaves, OnlyTouches;
    var front := saves[..|saves| - 1];
    forall i | 0 <= i < |front| ensures SaveAllowed(d, caches, front, i) && !front[i].Failed? {
      assert SaveAllowed(d, caches, saves, i);
      assert front[..i] == saves[..i];
    }
  }

  lemma SavingNext(d: Disk, caches: seq<Cache>, saves: seq<Save>, s: Save)
    requires Saving(d, caches, saves) && ErrorFree(saves) && |saves| < |caches|
    requires SaveAllowed(d, caches, saves + [s], |saves|)
    ensures Saving(d, caches, saves + [s])
  {
    hide AfterSaves, OnlyTouches;
    var more := saves + [s];
    forall i | 0 <= i < |saves| ensures SaveAllowed(d, caches, more, i) {
      assert SaveAllowed(d, caches, saves, i);
      assert !saves[i].Failed?;
    }
  }

  /** The keys of a cache map are distinct and none of them is a history log. */
  ghost predicate CacheMap(caches: seq<Cache>) {
    && (forall i, j :: 0 <= i < j < |caches| ==> caches[i].file != caches[j].file)
    && (forall i :: 0 <= i < |caches| ==> caches[i].file.name != "cache_history.log")
  }

  /** Saving writes history logs and the first archive of each path, and nothing else, even when it fails. */
  lemma {:induction false} SaveTouchesOnly(d: Disk, caches: seq<Cache>, saves: seq<Save>, f: CacheFile)
    requires Saving(d, caches, saves)
    requires f.name != HISTORY
    requires forall i :: 0 <= i < |caches| && caches[i].file == f ==> MentionedBefore(caches, i, caches[i].path)
    ensures var after := AfterSaves(d, caches, saves);
      (f in after.files <==> f in d.files) && (f in d.files ==> after.files[f] == d.files[f])
    decreases |saves|
  {
    if saves != [] {
      var n := |saves| - 1;
      SavingFront(d, caches, saves);
      SaveTouchesOnly(d, caches, saves[..n], f);
      assert SaveAllowed(d, caches, saves, n);
    }
  }

  /** Everything an error-free save wrote is on the disk afterwards. */
  lemma {:induction false} SavedIsThere(d: Disk, caches: seq<Cache>, saves: seq<Save>, i: nat)
    requires Saving(d, caches, saves) && ErrorFree(saves) && CacheMap(caches)
    requires i < |saves| && saves[i].Wrote?
    ensures var after := AfterSaves(d, caches, saves);
      caches[i].file in after.files && after.files[caches[i].file] == File(saves[i].data, saves[i].time)
    decreases |saves|
  {
    var n := |saves| - 1;
    if i < n {
      SavingFront(d, caches, saves);
      SavedIsThere(d, caches, saves[..n], i);
      assert saves[n] in saves;
    }
  }

  // ---- saving, then restoring

  /** What a save wrote, as a restore would send it. */
  ghost function SavedPuts(caches: seq<Cache>, saves: seq<Save>): seq<Put>
    requires |saves| <= |caches|
  {
    if saves == [] then []
    else
      var n := |saves| - 1;
      SavedPuts(caches, saves[..n]) +
      if saves[n].Wrote? then [Put(caches[n].path, caches[n].file, saves[n].data, true)] else []
  }

  ghost predicate Smooth(tries: seq<Try>) {
    forall t :: t in tries ==> !t.Early? && (t.Sent? ==> t.accepted)
  }

  /** On a disk that an error-free save just wrote, an entry is sent exactly when the save wrote it. */
  lemma SentIsWritten(d: Disk, caches: seq<Cache>, saves: seq<Save>, tries: seq<Try>, i: nat)
    requires CacheMap(caches) && Saving(d, caches, saves) && ErrorFree(saves) && |saves| == |caches|
    requires Restoring(AfterSaves(d, caches, saves), caches, tries) && Smooth(tries)
    requires i < |tries|
    ensures saves[i].Wrote? ==> tries[i] == Sent(caches[i].file, true)
    ensures !saves[i].Wrote? ==> tries[i] == Already
  {
    hide AfterSaves, Matches, OnlyTouches, CacheMap;
    var after := AfterSaves(d, caches, saves);
    assert SaveAllowed(d, caches, saves, i) && saves[i] in saves;
    assert TryAllowed(after, caches, tries, i) && tries[i] in tries;
    if saves[i].Wrote? {
      SavedIsThere(d, caches, saves, i);
      assert !SentBefore(caches, tries, i, caches[i].path);
    } else {
      var j := FirstMention(caches, i);
      assert SaveAllowed(d, caches, saves, j) && saves[j] in saves;
      SavedIsThere(d, caches, saves, j);
      assert TryAllowed(after, caches, tries, j) && tries[j] in tries;
      assert !SentBefore(caches, tries, j, caches[j].path);
      assert tries[j].Sent?;
      assert SentBefore(caches, tries, i, caches[i].path);
    }
  }

  lemma {:induction false} FirstMention(caches: seq<Cache>, i: nat) returns (j: nat)
    requires i < |caches|
    ensures j <= i && caches[j].path == caches[i].path && !MentionedBefore(caches, j, caches[j].path)
    decreases i
  {
    if MentionedBefore(caches, i, caches[i].path) {
      var k :| 0 <= k < i && caches[k].path == caches[i].path;
      j := FirstMention(caches, k);
    } else {
      j := i;
    }
  }

  /** Restoring right after an error-free save with the same cache map sends back exactly the archives just saved, each
      to the path it was taken from. */
  lemma SaveThenRestore(d: Disk, caches: seq<Cache>, saves: seq<Save>, tries: seq<Try>)
    requires CacheMap(caches) && Saving(d, caches, saves) && ErrorFree(saves) && |saves| == |caches|
    requires Restoring(AfterSaves(d, caches, saves), caches, tries) && Smooth(tries) && |tries| == |caches|
    ensures PutsOf(AfterSaves(d, caches, saves), caches, tries) == SavedPuts(caches, saves)
  {
    PutsMatch(d, caches, saves, tries, |caches|);
    assert tries[..|caches|] == tries && saves[..|caches|] == saves;
  }

  lemma {:induction false} PutsMatch(d: Disk, caches: seq<Cache>, saves: seq<Save>, tries: seq<Try>, n: nat)
    requires CacheMap(caches) && Saving(d, caches, saves) && ErrorFree(saves) && |saves| == |caches|
    requires Restoring(AfterSaves(d, caches, saves), caches, tries) && Smooth(tries) && |tries| == |caches|
    requires n <= |caches|
    ensures PutsOf(AfterSaves(d, caches, saves), caches, tries[..n]) == SavedPuts(caches, saves[..n])
    decreases n
  {
    hide AfterSaves, Restoring, Saving, CacheMap, Smooth, ErrorFree;
    if n > 0 {
      var m := n - 1;
      PutsMatch(d, caches, saves, tries, m);
      assert tries[..n][..m] == tries[..m] && saves[..n][..m] == saves[..m];
      SentIsWritten(d, caches, saves, tries, m);
      if saves[m].Wrote? {
        SavedIsThere(d, caches, saves, m);
      }
    }
  }

  /** The disk after a first save of `venv` in `/c`: the history line is older than the archive. */
  function VenvSaved(): Disk {
    Disk({"/c"}, map[HistoryLog("/c") := File("log line", 1.0), CacheFile("/c", "venv.tar") := File("archive", 2.0)])
  }

  lemma VenvIsSaved()
    ensures
      var d, saved := Disk({"/c"}, map[]), [Cache(CacheFile("/c", "venv.tar"), "/venv")];
      var saves := [Wrote("log line", 1.0, "archive", 2.0)];
      Saving(d, saved, saves) && ErrorFree(saves) && AfterSaves(d, saved, saves) == VenvSaved()
  {
    var d, saved := Disk({"/c"}, map[]), [Cache(CacheFile("/c", "venv.tar"), "/venv")];
    var saves := [Wrote("log line", 1.0, "archive", 2.0)];
    assert saves[..0] == [] && AfterSaves(d, saved, []) == d;
    assert "" + "log line" == "log line";
    assert SaveAllowed(d, saved, saves, 0);
  }

  lemma LogIsPickedForCache()
    ensures IsPick(VenvSaved(), CacheFile("/c", "cache.tar"), Some(HistoryLog("/c")))
  {
    hide Stem;
    var d, key := VenvSaved(), CacheFile("/c", "cache.tar");
    StemIsCacheName("cache");
    assert "cache" + ".tar" == "cache.tar" && HISTORY[..5] == "cache";
    assert !("cache" <= "venv.tar") by {
      assert "cache"[0] != "venv.tar"[0];
    }
    HistoryLogPicked(d, key);
  }

  /** An archive that was never saved can be "restored" from the history log of its directory. */
  lemma LogRestoredAsArchive()
    ensures
      var d := Disk({"/c"}, map[]);
      var saved := [Cache(CacheFile("/c", "venv.tar"), "/venv")];
      var asked := [Cache(CacheFile("/c", "cache.tar"), "/data")];
      var saves := [Wrote("log line", 1.0, "archive", 2.0)];
      var tries := [Sent(HistoryLog("/c"), true)];
      && Saving(d, saved, saves) && ErrorFree(saves)
      && Restoring(AfterSaves(d, saved, saves), asked, tries)
      && PutsOf(AfterSaves(d, saved, saves), asked, tries) == [Put("/data", HistoryLog("/c"), "log line", true)]
  {
    hide IsPick, Saving, ErrorFree, AfterSaves;
    var asked, tries := [Cache(CacheFile("/c", "cache.tar"), "/data")], [Sent(HistoryLog("/c"), true)];
    VenvIsSaved();
    LogIsPickedForCache();
    assert tries[..0] == [];
    assert TryAllowed(VenvSaved(), asked, tries, 0);
  }

  // ---- the code

  /** What becomes of an archive that was picked: its directory cannot be made in the container, its lock cannot be had,
      sending it raises, or the container answers. Errors of the Docker API are only logged. */
  datatype RestoreOutcome =
    | MakesNoDirectory(apiError: bool)
    | GetsNoLock
    | Raises(apiError: bool)
    | Answers(accepted: bool)

  predicate Fits(t: Try, outcome: RestoreOutcome) {
    match t
    case Early(_) => outcome.MakesNoDirectory? || outcome.GetsNoLock?
    case Sent(_, accepted) => (outcome.Raises? && !accepted) || outcome == Answers(accepted)
    case _ => true
  }

  predicate EndsRestore(t: Try, outcome: RestoreOutcome) {
    && (t.Early? || t.Sent?)
    && (outcome.GetsNoLock? || ((outcome.MakesNoDirectory? || outcome.Raises?) && !outcome.apiError))
  }

  /** What becomes of an archive to be saved: its history line cannot be written, or it can and the archive is written
      completely or in part. */
  datatype SaveOutcome =
    | LogFails(created: bool, time: real)
    | Logs(line: string, lineTime: real, written: bool, data: string, archiveTime: real)

  function SaveOf(d: Disk, c: Cache, outcome: SaveOutcome): Save {
    if c.file.dir !in d.dirs then Failed(d)
    else
      match outcome
      case LogFails(created, time) => Failed(if created then WithLine(d, c.file.dir, "", time) else d)
      case Logs(line, lineTime, written, data, time) =>
        var s := Wrote(line, lineTime, data, time);
        if written then s else Failed(AfterSave(d, c, s))
  }

  lemma SaveOfTouches(d: Disk, c: Cache, outcome: SaveOutcome)
    ensures var s := SaveOf(d, c, outcome);
      && !s.Again? && AfterSave(d, c, s).dirs == d.dirs
      && (s.Failed? ==> OnlyTouches(d, s.left, c)) && (s.Wrote? ==> c.file.dir in d.dirs)
  {
  }

  class DockerRunner {
    var disk: Disk
    var puts: seq<Put>

    ghost predicate Valid()
      reads this
    {
      ValidDisk(disk)
    }

    /** The names in a directory, in whatever order the host lists them. */
    method ListDir(dir: string) returns (names: seq<string>)
      ensures forall name :: name in names <==> CacheFile(dir, name) in disk.files
    {
      names := [];
      var left := set f | f in disk.files && f.dir == dir;
      while left != {}
        invariant forall f :: f in left ==> f in disk.files && f.dir == dir
        invariant forall name :: name in names ==> CacheFile(dir, name) in disk.files
        invariant forall f :: f in disk.files && f.dir == dir && f !in left ==> f.name in names
        decreases left
      {
        var f :| f in left;
        left := left - {f};
        names := names + [f.name];
      }
      forall name | CacheFile(dir, name) in disk.files ensures name in names {
        assert CacheFile(dir, name).dir == dir;
      }
    }

    method CacheFileFromPrefix(key: CacheFile) returns (pick: Option<CacheFile>)
      requires Valid()
      ensures IsPick(disk, key, pick)
    {
      if key in disk.files {
        return Some(key);
      }
      if key.dir !in disk.dirs {
        return None;
      }
      var names := ListDir(key.dir);
      var stem := Stem(key.name);
      var mostRecent := 0.0;
      pick := None;
      for i := 0 to |names|
        invariant pick.None? ==> mostRecent == 0.0
        invariant pick.Some? ==> Matches(disk, key, pick.value) && disk.files[pick.value].time == mostRecent
        invariant forall j :: 0 <= j < i ==>
          Matches(disk, key, CacheFile(key.dir, names[j])) ==>
            disk.files[CacheFile(key.dir, names[j])].time <= mostRecent
      {
        if stem <= names[i] {
          var f := CacheFile(key.dir, names[i]);
          if disk.files[f].time > mostRecent {
            mostRecent, pick := disk.files[f].time, Some(f);
          }
        }
      }
      forall f | f in disk.files && Matches(disk, key, f) ensures disk.files[f].time <= mostRecent {
        assert f == CacheFile(key.dir, f.name);
      }
    }

    /** Restores the caches of a cache map. An error other than one from the Docker API ends it. */
    method RestoreCaches(caches: seq<Cache>, world: nat -> RestoreOutcome) returns (tries: seq<Try>, error: bool)
      requires Valid()
      modifies `puts
      ensures Restoring(disk, caches, tries)
      ensures forall i: nat :: i < |tries| ==> Fits(tries[i], world(i))
      ensures forall i: nat :: i < |tries| - 1 ==> !EndsRestore(tries[i], world(i))
      ensures error <==> tries != [] && EndsRestore(tries[|tries| - 1], world(|tries| - 1))
      ensures !error ==> |tries| == |caches|
      ensures puts == old(puts) + PutsOf(disk, caches, tries)
    {
      hide IsPick, TryAllowed, PutsOf;
      tries, error := [], false;
      var restored: set<string> := {};
      NothingPut(disk, caches);
      for i := 0 to |caches|
        invariant |tries| == i && !error
        invariant Restoring(disk, caches, tries)
        invariant forall k: nat :: k < i ==> Fits(tries[k], world(k)) && !EndsRestore(tries[k], world(k))
        invariant forall path :: path in restored <==> SentBefore(caches, tries, i, path)
        invariant puts == old(puts) + PutsOf(disk, caches, tries)
      {
        var t: Try;
        if caches[i].path in restored {
          t := Already;
        } else {
          t, error := RestoreCache(caches[i], world(i));
        }
        AfterTry(disk, caches, tries, t);
        if t.Sent? {
          restored := restored + {caches[i].path};
        }
        tries := tries + [t];
        if error {
          return;
        }
      }
    }

    method RestoreCache(c: Cache, outcome: RestoreOutcome) returns (t: Try, error: bool)
      requires Valid()
      modifies `puts
      ensures !t.Already? && Fits(t, outcome) && (error <==> EndsRestore(t, outcome))
      ensures IsPick(disk, c.file, if t.NoArchive? then None else Some(t.file))
      ensures t.Sent? ==> t.file in disk.files
      ensures puts == old(puts) + if t.Sent? then [Put(c.path, t.file, disk.files[t.file].data, t.accepted)] else []
    {
      var pick := CacheFileFromPrefix(c.file);
      if pick.None? {
        return NoArchive, false;
      }
      var file := pick.value;
      match outcome
      case MakesNoDirectory(apiError) =>
        return Early(file), !apiError;
      case GetsNoLock =>
        return Early(file), true;
      case Raises(apiError) =>
        puts := puts + [Put(c.path, file, disk.files[file].data, false)];
        return Sent(file, false), !apiError;
      case Answers(accepted) =>
        puts := puts + [Put(c.path, file, disk.files[file].data, accepted)];
        return Sent(file, accepted), false;
    }

    /** Saves the caches of a cache map; the first failure ends it. */
    method SaveCaches(caches: seq<Cache>, world: nat -> SaveOutcome) returns (saves: seq<Save>)
      requires Valid()
      modifies `disk
      ensures Saving(old(disk), caches, saves)
      ensures forall i: nat :: i < |saves| && !saves[i].Again? ==>
        saves[i] == SaveOf(AfterSaves(old(disk), caches, saves[..i]), caches[i], world(i))
      ensures ErrorFree(saves) ==> |saves| == |caches|
      ensures disk == AfterSaves(old(disk), caches, saves)
    {
      hide OnlyTouches, AfterSaves, SaveAllowed, AfterSave, SaveOf;
      saves := [];
      var saved: set<string> := {};
      NothingSaved(disk, caches);
      for i := 0 to |caches|
        invariant |saves| == i && ErrorFree(saves)
        invariant disk.dirs == old(disk).dirs
        invariant Saving(old(disk), caches, saves)
        invariant forall k: nat :: k < i && !saves[k].Again? ==>
          saves[k] == SaveOf(AfterSaves(old(disk), caches, saves[..k]), caches[k], world(k))
        invariant forall path :: path in saved <==> MentionedBefore(caches, i, path)
        invariant disk == AfterSaves(old(disk), caches, saves)
      {
        var s := Again;
        if caches[i].path !in saved {
          saved := saved + {caches[i].path};
          SaveOfTouches(disk, caches[i], world(i));
          s := SaveCache(caches[i], world(i));
        } else {
          SaveAgain(disk, caches[i]);
        }
        NextSave(old(disk), caches, saves, s);
        assert forall k: nat :: k <= i ==> (saves + [s])[..k] == saves[..k];
        assert saves[..i] == saves;
        saves := saves + [s];
        if s.Failed? {
          assert s in saves;
          return;
        }
      }
    }

    method SaveCache(c: Cache, outcome: SaveOutcome) returns (s: Save)
      modifies `disk
      ensures s == SaveOf(old(disk), c, outcome)
      ensures disk == AfterSave(old(disk), c, s) && OnlyTouches(old(disk), disk, c)
      ensures s.Wrote? <==> c.file.dir in old(disk).dirs && outcome.Logs? && outcome.written
      ensures c.file.dir !in old(disk).dirs ==> disk == old(disk)
      ensures var log := CacheFile(c.file.dir, "cache_history.log");
        var was := if log in old(disk).files then old(disk).files[log].data else "";
        c.file.dir in old(disk).dirs ==>
          match outcome
          case LogFails(created, time) =>
            disk == if created then old(disk).(files := old(disk).files[log := File(was, time)]) else old(disk)
          case Logs(line, lineTime, _, data, time) =>
            disk == old(disk).(files := old(disk).files[log := File(was + line, lineTime)][c.file := File(data, time)])
    {
      if c.file.dir !in disk.dirs {
        return Failed(disk);
      }
      match outcome
      case LogFails(created, time) =>
        if created {
          ghost var log := HistoryLog(c.file.dir);
          ghost var was := if log in disk.files then disk.files[log].data else "";
          assert was + "" == was;
          disk := WithLine(disk, c.file.dir, "", time);
        }
        return Failed(disk);
      case Logs(line, lineTime, written, data, time) =>
        disk := WithLine(disk, c.file.dir, line, lineTime);
        // The archive is emptied when it is opened, before its lock is held.
        disk := disk.(files := disk.files[c.file := File(data, time)]);
        return if written then Wrote(line, lineTime, data, time) else Failed(disk);
    }
  }

  lemma NothingPut(d: Disk, caches: seq<Cache>)
    ensures PutsOf(d, caches, []) == []
  {
  }

  lemma AfterTry(d: Disk, caches: seq<Cache>, tries: seq<Try>, t: Try)
    requires Restoring(d, caches, tries) && |tries| < |caches|
    requires var c := caches[|tries|];
      if SentBefore(caches, tries, |tries|, c.path) then t == Already
      else
        && !t.Already? && IsPick(d, c.file, if t.NoArchive? then None else Some(t.file))
        && (t.Sent? ==> t.file in d.files)
    ensures Restoring(d, caches, tries + [t])
    ensures forall path :: SentBefore(caches, tries + [t], |tries| + 1, path) <==> SentAfter(caches, tries, t, path)
    ensures PutsOf(d, caches, tries + [t]) == PutsOf(d, caches, tries)
      + if t.Sent? then [Put(caches[|tries|].path, t.file, d.files[t.file].data, t.accepted)] else []
  {
    hide IsPick, SentBefore;
    var more := tries + [t];
    assert more[..|tries|] == tries;
    forall path
      ensures SentBefore(caches, more, |tries|, path) == SentBefore(caches, tries, |tries|, path)
      ensures SentBefore(caches, more, |tries| + 1, path) <==> SentAfter(caches, tries, t, path)
    {
      SentNext(caches, tries, t, path);
    }
    RestoringNext(d, caches, tries, t);
  }

  lemma NothingSaved(d: Disk, caches: seq<Cache>)
    ensures AfterSaves(d, caches, []) == d
  {
  }

  lemma SaveAgain(d: Disk, c: Cache)
    ensures AfterSave(d, c, Again) == d
  {
  }

  lemma NextSave(d: Disk, caches: seq<Cache>, saves: seq<Save>, s: Save)
    requires Saving(d, caches, saves) && ErrorFree(saves) && |saves| < |caches|
    requires var c := caches[|saves|];
      var before := AfterSaves(d, caches, saves);
      if MentionedBefore(caches, |saves|, c.path) then s == Again
      else
        && !s.Again?
        && (s.Failed? ==> OnlyTouches(before, s.left, c))
        && (s.Wrote? ==> c.file.dir in d.dirs)
    ensures Saving(d, caches, saves + [s])
    ensures AfterSaves(d, caches, saves + [s]) == AfterSave(AfterSaves(d, caches, saves), caches[|saves|], s)
  {
    hide OnlyTouches, AfterSave, MentionedBefore, Saving, ErrorFree;
    var n, more := |saves|, saves + [s];
    assert more[..n] == saves && more[n] == s;
    assert SaveAllowed(d, caches, more, n);
    SavingNext(d, caches, saves, s);
  }
}

/** How a step's cache settings become an ordered map from archives to container paths. */
module CacheMaps {
  import opened Common
  import opened Caches

  /** Under a key: a container path, a list of cache names, or something else, which is skipped. */
  datatype Setting = Text(path: string) | Names(names: seq<string>) | Unsupported

  function JoinPath(root: string, name: string): string {
    if name != "" && name[0] == '/' then name
    else if root == "" || root[|root| - 1] == '/' then root + name
    else root + "/" + name
  }

  function Located(path: string): CacheFile {
    var k := LastIndex(path, '/');
    CacheFile(if k <= 0 then path[..k + 1] else path[..k], path[k + 1..])
  }

  /** Where archives are kept: the configured root, the default one, and the directories that exist or can be made. */
  datatype Roots = Roots(configured: string, fallback: string, usable: string -> bool)

  /** An archive goes to the configured root, or to the default one if its directory there cannot be made. */
  function ArchiveFile(roots: Roots, name: string, project: string): CacheFile {
    var file := (if project != "" then project + "-" else "") + name + ".tar";
    var wanted := Located(JoinPath(roots.configured, file));
    if roots.usable(wanted.dir) then wanted else Located(JoinPath(roots.fallback, file))
  }

  /** Joining paths: one slash between them, and an absolute second one stands alone. */
  lemma JoinPathMeaning(root: string, name: string)
    ensures JoinPath(root, "/" + name) == "/" + name
    ensures !("/" <= name) ==> JoinPath("", name) == name && JoinPath(root + "/", name) == root + "/" + name
    ensures !("/" <= name) && root != "" && root[|root| - 1] != '/' ==> JoinPath(root, name) == root + "/" + name
  {
  }

  /** The directory of a path is what precedes its last slash, and the file what follows. */
  lemma LocatedMeaning(dir: string, name: string)
    requires '/' !in name
    ensures dir != "" ==> Located(dir + "/" + name) == CacheFile(dir, name)
    ensures Located("/" + name) == CacheFile("/", name) && Located(name) == CacheFile("", name)
  {
    LastSlash(dir, name);
    LastSlash("", name);
    assert "" + "/" + name == "/" + name && name[..0] == "" && name[0..] == name;
    assert ("/" + name)[..1] == "/";
  }

  lemma LastSlash(dir: string, name: string)
    requires '/' !in name
    ensures var path := dir + "/" + name;
      LastIndex(path, '/') == |dir| && path[..|dir|] == dir && path[|dir| + 1..] == name
    ensures LastIndex(name, '/') == -1
  {
    var path := dir + "/" + name;
    assert path[|dir|] == '/' && path[|dir| + 1..] == name && path[..|dir|] == dir;
    assert forall q :: |dir| < q < |path| ==> path[q] == name[q - |dir| - 1] && path[q] in name;
    assert forall q :: 0 <= q < |name| ==> name[q] in name;
  }

  /** A plainly named archive lies in the configured root, or in the default one where the first cannot be used, and
      bears the project's name, if there is one. */
  lemma ArchiveFileMeaning(roots: Roots, name: string, project: string)
    requires '/' !in name && '/' !in project
    requires roots.configured != "" && roots.configured[|roots.configured| - 1] != '/'
    requires roots.fallback != "" && roots.fallback[|roots.fallback| - 1] != '/'
    ensures var root := if roots.usable(roots.configured) then roots.configured else roots.fallback;
      ArchiveFile(roots, name, project)
        == CacheFile(root, if project == "" then name + ".tar" else project + "-" + name + ".tar")
  {
    hide LastIndex;
    var file := (if project != "" then project + "-" else "") + name + ".tar";
    assert "" + name + ".tar" == name + ".tar" && '/' !in "-" && '/' !in ".tar";
    assert file[0] != '/';
    LocatedMeaning(roots.configured, file);
    LocatedMeaning(roots.fallback, file);
  }

  /** Entries of the settings in the order in which they are considered. */
  function Considered(roots: Roots, project: string, settings: seq<(string, Setting)>): seq<Cache> {
    if settings == [] then []
    else
      var n := |settings| - 1;
      Considered(roots, project, settings[..n]) + OfSetting(roots, project, settings[n])
  }

  function OfSetting(roots: Roots, project: string, setting: (string, Setting)): seq<Cache> {
    match setting.1
    case Text(path) => [Cache(ArchiveFile(roots, setting.0, project), path)]
    case Names(names) => NamedBy(roots, setting.0, names)
    case Unsupported => []
  }

  function NamedBy(roots: Roots, path: string, names: seq<string>): (caches: seq<Cache>)
    ensures |caches| == |names|
  {
    if names == [] then []
    else NamedBy(roots, path, names[..|names| - 1]) + [Cache(ArchiveFile(roots, names[|names| - 1], ""), path)]
  }

  /** The `k`-th setting gives this archive for this path: a text under its own name in the project's archive, a list of
      names under each of them in an archive shared by all projects. */
  ghost predicate GivenBy(roots: Roots, project: string, setting: (string, Setting), c: Cache) {
    match setting.1
    case Text(path) => c == Cache(ArchiveFile(roots, setting.0, project), path)
    case Names(names) => exists i :: 0 <= i < |names| && c == Cache(ArchiveFile(roots, names[i], ""), setting.0)
    case Unsupported => false
  }

  lemma {:induction false} NamedByAt(roots: Roots, path: string, names: seq<string>, i: nat)
    requires i < |names|
    ensures NamedBy(roots, path, names)[i] == Cache(ArchiveFile(roots, names[i], ""), path)
    decreases |names|
  {
    hide ArchiveFile;
    if i < |names| - 1 {
      NamedByAt(roots, path, names[..|names| - 1], i);
    }
  }

  /** What is considered is what some setting gives. */
  lemma {:induction false} ConsideredMeaning(roots: Roots, project: string, settings: seq<(string, Setting)>, c: Cache)
    ensures c in Considered(roots, project, settings) <==>
      exists k :: 0 <= k < |settings| && GivenBy(roots, project, settings[k], c)
    decreases |settings|
  {
    hide ArchiveFile, GivenBy, OfSetting;
    if settings != [] {
      var n := |settings| - 1;
      var front := settings[..n];
      ConsideredMeaning(roots, project, front, c);
      assert forall k :: 0 <= k < n ==> front[k] == settings[k];
      ConsideredOne(roots, project, settings[n], c);
    }
  }

  /** One setting alone. */
  lemma ConsideredOne(roots: Roots, project: string, setting: (string, Setting), c: Cache)
    ensures c in OfSetting(roots, project, setting) <==> GivenBy(roots, project, setting, c)
  {
    hide ArchiveFile, NamedBy;
    if setting.1.Names? {
      var names := setting.1.names;
      forall i: nat | i < |names|
        ensures NamedBy(roots, setting.0, names)[i] == Cache(ArchiveFile(roots, names[i], ""), setting.0)
      {
        NamedByAt(roots, setting.0, names, i);
      }
    }
  }

  /** Assignment in an ordered map: a key keeps its place and changes its value, or goes to the end. */
  function Assign(caches: seq<Cache>, c: Cache): seq<Cache> {
    if caches == [] then [c]
    else if caches[0].file == c.file then [c] + caches[1..]
    else [caches[0]] + Assign(caches[1..], c)
  }

  function AssignAll(entries: seq<Cache>): seq<Cache> {
    if entries == [] then [] else Assign(AssignAll(entries[..|entries| - 1]), entries[|entries| - 1])
  }

  function Files(caches: seq<Cache>): (files: seq<CacheFile>)
    ensures |files| == |caches|
    ensures forall i :: 0 <= i < |caches| ==> files[i] == caches[i].file
  {
    seq(|caches|, i requires 0 <= i < |caches| => caches[i].file)
  }

  /** The distinct files in order of their first mention. */
  function FirstMentions(files: seq<CacheFile>): seq<CacheFile> {
    if files == [] then []
    else
      var front := FirstMentions(files[..|files| - 1]);
      if files[|files| - 1] in front then front else front + [files[|files| - 1]]
  }

  ghost predicate LastPath(entries: seq<Cache>, file: CacheFile, path: string) {
    exists i ::
      && 0 <= i < |entries| && entries[i] == Cache(file, path)
      && forall j :: i < j < |entries| ==> entries[j].file != file
  }

  /** The `k`-th setting gives the archive this path, and no later one gives it any. */
  ghost predicate GivenLast(roots: Roots, project: string, settings: seq<(string, Setting)>, c: Cache, k: nat) {
    && k < |settings| && GivenBy(roots, project, settings[k], c)
    && forall j, path :: k < j < |settings| ==> !GivenBy(roots, project, settings[j], Cache(c.file, path))
  }

  lemma LastInConcat(a: seq<Cache>, b: seq<Cache>, c: Cache)
    requires forall x, y :: x in b && y in b ==> x.path == y.path
    ensures LastPath(a + b, c.file, c.path) <==>
      c in b || (LastPath(a, c.file, c.path) && forall x :: x in b ==> x.file != c.file)
    decreases |b|
  {
    if b == [] {
      assert a + b == a;
    } else {
      var n := |b| - 1;
      var last, front := b[n], b[..n];
      assert a + b == a + front + [last] && b == front + [last];
      LastInConcat(a, front, c);
      LastAppend(a + front, last, c);
    }
  }

  lemma LastAppend(entries: seq<Cache>, last: Cache, c: Cache)
    ensures LastPath(entries + [last], c.file, c.path) <==>
      last == c || (last.file != c.file && LastPath(entries, c.file, c.path))
  {
    var n, all := |entries|, entries + [last];
    if last == c {
      assert all[n] == Cache(c.file, c.path);
    } else if last.file != c.file && LastPath(entries, c.file, c.path) {
      var i :| 0 <= i < n && entries[i] == c && forall j :: i < j < n ==> entries[j].file != c.file;
      assert all[i] == c && forall j :: i < j < |all| ==> all[j].file != c.file;
    }
    if LastPath(all, c.file, c.path) {
      var i :| 0 <= i < |all| && all[i] == c && forall j :: i < j < |all| ==> all[j].file != c.file;
      if i < n {
        assert all[n] == last && entries[i] == c;
        assert forall j :: i < j < n ==> entries[j] == all[j];
      }
    }
  }

  /** The map takes its path for an archive from the last setting that gives it one. */
  lemma {:induction false} LastSettingWins(roots: Roots, project: string, settings: seq<(string, Setting)>, c: Cache)
    ensures c in AssignAll(Considered(roots, project, settings)) <==>
      exists k: nat :: GivenLast(roots, project, settings, c, k)
  {
    hide GivenLast, LastPath, AssignAll, Considered;
    AssignedExactly(Considered(roots, project, settings), c);
    ConsideredLast(roots, project, settings, c);
  }

  lemma {:induction false} ConsideredLast(roots: Roots, project: string, settings: seq<(string, Setting)>, c: Cache)
    ensures LastPath(Considered(roots, project, settings), c.file, c.path) <==>
      exists k: nat :: GivenLast(roots, project, settings, c, k)
    decreases |settings|
  {
    hide GivenLast, LastPath, OfSetting, GivenBy;
    if settings == [] {
      NothingGiven(roots, project, c);
    } else {
      var n := |settings| - 1;
      var more := OfSetting(roots, project, settings[n]);
      ConsideredLast(roots, project, settings[..n], c);
      SettingHasOnePath(roots, project, settings[n]);
      LastInConcat(Considered(roots, project, settings[..n]), more, c);
      GivenLastNext(roots, project, settings, c);
    }
  }

  lemma NothingGiven(roots: Roots, project: string, c: Cache)
    ensures !LastPath([], c.file, c.path) && forall k: nat :: !GivenLast(roots, project, [], c, k)
  {
  }

  lemma SettingHasOnePath(roots: Roots, project: string, setting: (string, Setting))
    ensures forall x, y :: x in OfSetting(roots, project, setting) && y in OfSetting(roots, project, setting) ==>
      x.path == y.path
  {
    hide ArchiveFile, OfSetting;
    forall c ensures c in OfSetting(roots, project, setting) <==> GivenBy(roots, project, setting, c) {
      ConsideredOne(roots, project, setting, c);
    }
  }

  lemma GivenLastNext(roots: Roots, project: string, settings: seq<(string, Setting)>, c: Cache)
    requires settings != []
    ensures var n := |settings| - 1; var more := OfSetting(roots, project, settings[n]);
      (exists k: nat :: GivenLast(roots, project, settings, c, k)) <==>
        c in more || ((exists k: nat :: GivenLast(roots, project, settings[..n], c, k))
                      && forall x :: x in more ==> x.file != c.file)
  {
    hide ArchiveFile, OfSetting, GivenBy;
    var n := |settings| - 1;
    var more := OfSetting(roots, project, settings[n]);
    forall x ensures x in more <==> GivenBy(roots, project, settings[n], x) {
      ConsideredOne(roots, project, settings[n], x);
    }
    assert forall k :: 0 <= k < n ==> settings[..n][k] == settings[k];
    if c in more {
      assert GivenLast(roots, project, settings, c, n);
    }
    if k: nat :| GivenLast(roots, project, settings[..n], c, k) {
      if forall x :: x in more ==> x.file != c.file {
        assert GivenLast(roots, project, settings, c, k);
      }
    }
    if k: nat :| GivenLast(roots, project, settings, c, k) {
      if k < n {
        assert GivenLast(roots, project, settings[..n], c, k);
        forall x | x in more ensures x.file != c.file {
          assert x == Cache(x.file, x.path);
        }
      }
    }
  }

  lemma {:induction false} AssignKeys(caches: seq<Cache>, c: Cache)
    ensures Files(Assign(caches, c)) == if c.file in Files(caches) then Files(caches) else Files(caches) + [c.file]
    decreases |caches|
  {
    hide Files;
    if caches == [] {
      FilesOfMore(c, []);
      NoFiles();
    } else {
      var first, rest := caches[0], caches[1..];
      assert caches == [first] + rest;
      FilesOfMore(first, rest);
      if first.file == c.file {
        FilesOfMore(c, rest);
      } else {
        AssignKeys(rest, c);
        FilesOfMore(first, Assign(rest, c));
        assert c.file in Files(caches) <==> c.file in Files(rest);
        assert [first.file] + (Files(rest) + [c.file]) == Files(caches) + [c.file];
      }
    }
  }

  lemma {:induction false} AssignElements(caches: seq<Cache>, c: Cache, a: Cache)
    requires NoDup(Files(caches)) && a in Assign(caches, c)
    ensures a == c || (a.file != c.file && a in caches)
    decreases |caches|
  {
    hide Files, NoDup;
    if caches != [] {
      RestDiffers(caches);
      if caches[0].file != c.file && a != caches[0] {
        AssignElements(caches[1..], c, a);
      }
    }
  }

  lemma FilesOfMore(c: Cache, rest: seq<Cache>)
    ensures Files([c] + rest) == [c.file] + Files(rest)
  {
  }

  lemma RestDiffers(caches: seq<Cache>)
    requires caches != [] && NoDup(Files(caches))
    ensures NoDup(Files(caches[1..]))
    ensures forall a :: a in caches[1..] ==> a.file != caches[0].file
  {
    var files, rest := Files(caches), caches[1..];
    assert forall i :: 0 <= i < |rest| ==> rest[i].file == files[i + 1];
  }

  /** The map holds every file considered, in order of first mention. */
  lemma {:induction false} AssignedFiles(entries: seq<Cache>)
    ensures Files(AssignAll(entries)) == FirstMentions(Files(entries))
    ensures NoDup(Files(AssignAll(entries)))
    decreases |entries|
  {
    hide Assign, Files, NoDup;
    if entries == [] {
      NoFiles();
    } else {
      var front, last := entries[..|entries| - 1], entries[|entries| - 1];
      AssignedFiles(front);
      AssignKeys(AssignAll(front), last);
      if last.file !in Files(AssignAll(front)) {
        NoDupAppend(Files(AssignAll(front)), last.file);
      }
      assert Files(entries)[..|entries| - 1] == Files(front);
    }
  }

  lemma NoFiles()
    ensures Files([]) == [] && NoDup(Files([]))
  {
  }

  /** Every file has the path it was given last. */
  lemma {:induction false} AssignedPaths(entries: seq<Cache>, a: Cache)
    requires a in AssignAll(entries)
    ensures LastPath(entries, a.file, a.path)
    decreases |entries|
  {
    hide Assign, Files, NoDup, FirstMentions;
    if entries != [] {
      var n := |entries| - 1;
      AssignedFiles(entries[..n]);
      AssignElements(AssignAll(entries[..n]), entries[n], a);
      if a == entries[n] {
        assert entries[n] == Cache(a.file, a.path);
      } else {
        AssignedPaths(entries[..n], a);
        LastPathFront(entries, a.file, a.path);
      }
    }
  }

  /** The distinct files are all of them, each in front of those first mentioned later. */
  lemma {:induction false} FirstMentionsMeaning(files: seq<CacheFile>)
    ensures var firsts := FirstMentions(files);
      && NoDup(firsts) && (forall f :: f in firsts <==> f in files)
      && forall i, j :: 0 <= i < j < |firsts| ==> MentionedFirst(files, firsts[i], firsts[j])
    decreases |files|
  {
    if files != [] {
      var n := |files| - 1;
      var front, last := FirstMentions(files[..n]), files[n];
      FirstMentionsMeaning(files[..n]);
      assert files == files[..n] + [last];
      forall i, j | 0 <= i < j < |front| ensures MentionedFirst(files, front[i], front[j]) {
        assert MentionedFirst(files[..n], front[i], front[j]);
        var p :| 0 <= p < n && files[..n][p] == front[i] && front[j] !in files[..n][..p + 1];
        assert files[..p + 1] == files[..n][..p + 1];
      }
      if last !in front {
        forall i | 0 <= i < |front| ensures MentionedFirst(files, front[i], last) {
          assert front[i] in files[..n];
          var p :| 0 <= p < n && files[..n][p] == front[i];
          assert files[..p + 1] == files[..n][..p + 1];
        }
      }
    }
  }

  ghost predicate MentionedFirst(files: seq<CacheFile>, a: CacheFile, b: CacheFile) {
    exists p :: 0 <= p < |files| && files[p] == a && b !in files[..p + 1]
  }

  lemma AssignedExactly(entries: seq<Cache>, c: Cache)
    ensures c in AssignAll(entries) <==> LastPath(entries, c.file, c.path)
  {
    hide AssignAll, FirstMentions;
    if c in AssignAll(entries) {
      AssignedPaths(entries, c);
    } else if LastPath(entries, c.file, c.path) {
      AssignedFiles(entries);
      FirstMentionsMeaning(Files(entries));
      var i :| 0 <= i < |entries| && entries[i] == c && forall j :: i < j < |entries| ==> entries[j].file != c.file;
      assert Files(entries)[i] == c.file && c.file in Files(AssignAll(entries));
      var k :| 0 <= k < |AssignAll(entries)| && Files(AssignAll(entries))[k] == c.file;
      var a := AssignAll(entries)[k];
      AssignedPaths(entries, a);
      OneLastPath(entries, c.file, c.path, a.path);
    }
  }

  lemma OneLastPath(entries: seq<Cache>, file: CacheFile, path: string, other: string)
    requires LastPath(entries, file, path) && LastPath(entries, file, other)
    ensures path == other
  {
  }

  lemma LastPathFront(entries: seq<Cache>, file: CacheFile, path: string)
    requires entries != [] && entries[|entries| - 1].file != file
    requires LastPath(entries[..|entries| - 1], file, path)
    ensures LastPath(entries, file, path)
  {
    var front := entries[..|entries| - 1];
    var i :| 0 <= i < |front| && front[i] == Cache(file, path) && forall j :: i < j < |front| ==> front[j].file != file;
    assert entries[i] == Cache(file, path);
    forall j | i < j < |entries| ensures entries[j].file != file {
      assert j < |front| ==> entries[j] == front[j];
    }
  }

  ghost predicate IsArchiveName(name: string) {
    |name| >= 4 && name[|name| - 4..] == ".tar"
  }

  lemma TarSuffix(front: string)
    ensures IsArchiveName(front + ".tar") && '/' !in (front + ".tar")[|front|..]
  {
    assert (front + ".tar")[|front|..] == ".tar";
  }

  /** The name of a path that ends like an archive ends like one too. */
  lemma LocatedArchive(front: string)
    ensures IsArchiveName(Located(front + ".tar").name)
  {
    var path := front + ".tar";
    TarSuffix(front);
    var k := LastIndex(path, '/');
    assert forall i :: |front| <= i < |path| ==> path[i] == path[|front|..][i - |front|] && path[i] != '/';
    assert path[k + 1..] == front[k + 1..] + ".tar";
    TarSuffix(front[k + 1..]);
  }

  lemma JoinedArchive(root: string, file: string)
    ensures IsArchiveName(Located(JoinPath(root, file + ".tar")).name)
  {
    hide Located, IsArchiveName;
    var path := JoinPath(root, file + ".tar");
    var front := path[..|path| - 4];
    assert path == front + ".tar";
    LocatedArchive(front);
  }

  lemma ArchiveNames(roots: Roots, name: string, project: string)
    ensures IsArchiveName(ArchiveFile(roots, name, project).name)
  {
    hide Located, IsArchiveName, JoinPath;
    var named := (if project != "" then project + "-" else "") + name;
    JoinedArchive(roots.configured, named);
    JoinedArchive(roots.fallback, named);
  }

  lemma {:induction false} NamedByArchives(roots: Roots, path: string, names: seq<string>)
    ensures forall c :: c in NamedBy(roots, path, names) ==> IsArchiveName(c.file.name)
    decreases |names|
  {
    if names != [] {
      NamedByArchives(roots, path, names[..|names| - 1]);
      ArchiveNames(roots, names[|names| - 1], "");
    }
  }

  lemma {:induction false} ConsideredArchives(roots: Roots, project: string, settings: seq<(string, Setting)>)
    ensures forall c :: c in Considered(roots, project, settings) ==> IsArchiveName(c.file.name)
    decreases |settings|
  {
    hide IsArchiveName, ArchiveFile;
    if settings != [] {
      var n := |settings| - 1;
      ConsideredArchives(roots, project, settings[..n]);
      ArchiveNames(roots, settings[n].0, project);
      if settings[n].1.Names? {
        NamedByArchives(roots, settings[n].0, settings[n].1.names);
      }
    }
  }

  /** Every step's cache map is one that saving and restoring agree on. */
  lemma ConsideredIsCacheMap(roots: Roots, project: string, settings: seq<(string, Setting)>)
    ensures CacheMap(AssignAll(Considered(roots, project, settings)))
  {
    hide Considered, AssignAll, FirstMentions;
    var entries := Considered(roots, project, settings);
    var caches := AssignAll(entries);
    AssignedFiles(entries);
    ConsideredArchives(roots, project, settings);
    forall i, j | 0 <= i < j < |caches| ensures caches[i].file != caches[j].file {
      assert Files(caches)[i] != Files(caches)[j];
    }
    forall i | 0 <= i < |caches| ensures caches[i].file.name != HISTORY {
      AssignedPaths(entries, caches[i]);
      assert LastPath(entries, caches[i].file, caches[i].path);
      assert IsArchiveName(caches[i].file.name);
      assert HISTORY[|HISTORY| - 4..] == ".log" && ".log"[1] != ".tar"[1];
    }
  }

  /** The loop over a step's settings. */
  method ConsiderCaches(roots: Roots, project: string, settings: seq<(string, Setting)>) returns (caches: seq<Cache>)
    ensures caches == AssignAll(Considered(roots, project, settings))
    ensures CacheMap(caches)
  {
    hide ArchiveFile, Assign, AssignAll, CacheMap, NamedBy;
    caches := [];
    NothingConsidered();
    for i := 0 to |settings|
      invariant caches == AssignAll(Considered(roots, project, settings[..i]))
    {
      assert settings[..i + 1][..i] == settings[..i];
      ghost var entries := Considered(roots, project, settings[..i]);
      match settings[i].1
      case Text(path) =>
        var c := Cache(ArchiveFile(roots, settings[i].0, project), path);
        AssignNext(entries, c);
        caches := Assign(caches, c);
      case Names(names) =>
        caches := ConsiderNames(roots, settings[i].0, names, caches, entries);
      case Unsupported =>
        assert entries + [] == entries;
    }
    assert settings[..|settings|] == settings;
    ConsideredIsCacheMap(roots, project, settings);
  }

  /** The loop over the cache names listed for one container path. */
  method ConsiderNames(roots: Roots, path: string, names: seq<string>, before: seq<Cache>, ghost entries: seq<Cache>)
    returns (caches: seq<Cache>)
    requires before == AssignAll(entries)
    ensures caches == AssignAll(entries + NamedBy(roots, path, names))
  {
    hide ArchiveFile, Assign, AssignAll;
    caches := before;
    assert entries + NamedBy(roots, path, names[..0]) == entries;
    for j := 0 to |names|
      invariant caches == AssignAll(entries + NamedBy(roots, path, names[..j]))
    {
      assert names[..j + 1][..j] == names[..j];
      var c := Cache(ArchiveFile(roots, names[j], ""), path);
      ghost var named := NamedBy(roots, path, names[..j]);
      AssignNext(entries + named, c);
      assert entries + named + [c] == entries + (named + [c]);
      caches := Assign(caches, c);
    }
    assert names[..|names|] == names;
  }

  lemma NothingConsidered()
    ensures AssignAll([]) == []
  {
  }

  lemma AssignNext(entries: seq<Cache>, c: Cache)
    ensures AssignAll(entries + [c]) == Assign(AssignAll(entries), c)
  {
    assert (entries + [c])[..|entries|] == entries;
  }
}
