/** The periodic scanner (backend/code_tracker/scheduler.py): per project, a
    table of file hashes from the last scan, and the bookkeeping that decides
    when a project is due for another scan. The directory walk and the
    hashing are inputs: a scan receives the files the walk would list, each
    with its directory chain, hash and modification time. */
module Scheduler {
  import opened Text

  // ---------------------------------------------------------------------------
  // _is_code_file

  const CodeExtensions: seq<string> := [
    ".py", ".js", ".jsx", ".ts", ".tsx", ".java", ".c", ".cpp", ".h",
    ".hpp", ".cs", ".go", ".rb", ".php", ".html", ".css", ".scss",
    ".sass", ".less", ".vue", ".svelte", ".rs", ".swift", ".kt",
    ".kts", ".dart", ".elm", ".ex", ".exs", ".erl", ".hrl", ".hs",
    ".scala", ".sc", ".clj", ".cljs", ".cljc", ".sol"
  ]

  /** `s.rfind(c)`: the last position of `c`, or -1. */
  function LastIndex(s: string, c: char): (r: int)
    ensures -1 <= r < |s|
    ensures r >= 0 ==> s[r] == c
    ensures forall j :: r < j < |s| ==> s[j] != c
    decreases |s|
  {
    if s == [] then -1
    else if s[|s| - 1] == c then |s| - 1
    else LastIndex(s[..|s| - 1], c)
  }

  /** Some character in s[lo..hi] is not a dot. */
  predicate NonDotBetween(s: string, lo: int, hi: int)
    requires 0 <= lo && hi <= |s|
  {
    exists i :: lo <= i < hi && s[i] != '.'
  }

  /** `os.path.splitext(p)[1]` on POSIX: from the last dot of the last path
      component, unless that component is only dots up to it (".bashrc" has
      no extension). */
  function Ext(p: string): (r: string)
    ensures r == [] || (r[0] == '.' && '.' !in r[1..] && '/' !in r)
    ensures |r| <= |p| && r == p[|p| - |r|..]
  {
    var sep := LastIndex(p, '/');
    var dot := LastIndex(p, '.');
    if dot > sep && NonDotBetween(p, sep + 1, dot) then
      assert forall j :: 1 <= j < |p[dot..]| ==> p[dot..][j] == p[dot + j];
      p[dot..]
    else ""
  }

  /** Membership in a list, one element at a time. */
  predicate InList(x: string, xs: seq<string>)
    decreases |xs|
  {
    xs != [] && (xs[0] == x || InList(x, xs[1..]))
  }

  lemma {:induction false} InListIff(x: string, xs: seq<string>)
    ensures InList(x, xs) <==> x in xs
    decreases |xs|
  {
    if xs != [] {
      InListIff(x, xs[1..]);
    }
  }

  /** _is_code_file */
  predicate IsCodeFile(filename: string) {
    InList(Ext(Lower(filename)), CodeExtensions)
  }

  /** LastIndex depends only on where `c` occurs. */
  lemma {:induction false} LastIndexSamePlaces(s: string, t: string, c: char)
    requires |s| == |t|
    requires forall i :: 0 <= i < |s| ==> (s[i] == c <==> t[i] == c)
    ensures LastIndex(s, c) == LastIndex(t, c)
    decreases |s|
  {
    if s != [] {
      LastIndexSamePlaces(s[..|s| - 1], t[..|t| - 1], c);
    }
  }

  /** Lower-casing commutes with taking the extension: dots and slashes
      are where they were. */
  lemma ExtLower(p: string)
    ensures Ext(Lower(p)) == Lower(Ext(p))
  {
    var q := Lower(p);
    LastIndexSamePlaces(p, q, '/');
    LastIndexSamePlaces(p, q, '.');
    var sep := LastIndex(p, '/');
    var dot := LastIndex(p, '.');
    if dot > sep {
      if NonDotBetween(p, sep + 1, dot) {
        var i :| sep + 1 <= i < dot && p[i] != '.';
        assert q[i] != '.';
        assert q[dot..] == Lower(p[dot..]);
      }
    }
  }

  /** A file is a code file exactly when its extension, lower-cased, is in
      the list: upper-case extensions count too. */
  lemma IsCodeFileByExtension(filename: string)
    ensures IsCodeFile(filename) <==> Lower(Ext(filename)) in CodeExtensions
  {
    ExtLower(filename);
    InListIff(Ext(Lower(filename)), CodeExtensions);
  }

  // ---------------------------------------------------------------------------
  // ChangeTracker.scan_for_changes

  const PrunedDirs: seq<string> := [".git", "node_modules", "venv", "env"]

  /** A file as the walk lists it: the directories from the repository root,
      its name, the hash of its contents ("" when unreadable) and its
      modification time. */
  datatype FileEntry = FileEntry(dirs: seq<string>, name: string, hash: string, lastModified: int)

  datatype FileMeta = FileMeta(hash: string, lastModified: int)

  datatype Change = Change(filePath: string, lastModified: int, previousHash: string, currentHash: string)

  /** The walk reaches a file only through directories it did not prune. */
  predicate Walked(e: FileEntry) {
    forall k :: 0 <= k < |e.dirs| ==> e.dirs[k] !in PrunedDirs
  }

  predicate Tracked(e: FileEntry) { Walked(e) && IsCodeFile(e.name) }

  /** `os.path.relpath(os.path.join(root, file), repo_path)` */
  function RelPath(e: FileEntry): string { Join(e.dirs + [e.name], '/') }

  /** A code file the walk reaches, under its relative path. */
  datatype Visit = Visit(path: string, hash: string, lastModified: int)

  function VisitOf(e: FileEntry): Visit { Visit(RelPath(e), e.hash, e.lastModified) }

  /** The visits of the entries `keep` accepts, in order. */
  function VisitsWith(entries: seq<FileEntry>, keep: FileEntry -> bool): seq<Visit>
    decreases |entries|
  {
    if entries == [] then []
    else
      var e := entries[|entries| - 1];
      VisitsWith(entries[..|entries| - 1], keep) + (if keep(e) then [VisitOf(e)] else [])
  }

  /** The files a scan looks at, in walk order. */
  function Visits(entries: seq<FileEntry>): seq<Visit> {
    VisitsWith(entries, Tracked)
  }

  lemma VisitsSnoc(entries: seq<FileEntry>, i: int)
    requires 0 <= i < |entries|
    ensures Visits(entries[..i + 1]) == Visits(entries[..i]) + (if Tracked(entries[i]) then [VisitOf(entries[i])] else [])
  {
    assert entries[..i + 1][..i] == entries[..i];
  }

  datatype ScanState = ScanState(meta: map<string, FileMeta>, changed: seq<Change>)

  /** One visited file: a known path whose hash differs is reported, and the
      path's metadata is overwritten either way. */
  function ScanStep(st: ScanState, v: Visit): ScanState {
    var report := if v.path in st.meta && st.meta[v.path].hash != v.hash then [Change(v.path, v.lastModified, st.meta[v.path].hash, v.hash)] else [];
    ScanState(st.meta[v.path := FileMeta(v.hash, v.lastModified)], st.changed + report)
  }

  function ScanRun(meta: map<string, FileMeta>, vs: seq<Visit>): ScanState
    decreases |vs|
  {
    if vs == [] then ScanState(meta, [])
    else ScanStep(ScanRun(meta, vs[..|vs| - 1]), vs[|vs| - 1])
  }

  lemma ScanRunSnoc(meta: map<string, FileMeta>, vs: seq<Visit>, v: Visit)
    ensures ScanRun(meta, vs + [v]) == ScanStep(ScanRun(meta, vs), v)
  {
    assert (vs + [v])[..|vs|] == vs;
  }

  /** What scan_for_changes leaves and returns. */
  function Scan(meta: map<string, FileMeta>, entries: seq<FileEntry>): ScanState {
    ScanRun(meta, Visits(entries))
  }

  class ChangeTracker {
    const projectId: string
    const repoPath: string
    var fileMetadata: map<string, FileMeta>

    constructor (projectId: string, repoPath: string)
      ensures this.projectId == projectId && this.repoPath == repoPath
      ensures fileMetadata == map[]
    {
      this.projectId := projectId;
      this.repoPath := repoPath;
      fileMetadata := map[];
    }

    /** scan_for_changes over the files the walk lists, in walk order. */
    method ScanForChanges(entries: seq<FileEntry>) returns (changed: seq<Change>)
      modifies this
      ensures fileMetadata == Scan(old(fileMetadata), entries).meta
      ensures changed == Scan(old(fileMetadata), entries).changed
    {
      changed := [];
      ghost var meta0 := fileMetadata;
      for i := 0 to |entries|
        invariant ScanRun(meta0, Visits(entries[..i])) == ScanState(fileMetadata, changed)
      {
        VisitsSnoc(entries, i);
        var e := entries[i];
        if !Walked(e) || !IsCodeFile(e.name) {
          assert Visits(entries[..i + 1]) == Visits(entries[..i]);
          continue;
        }
        assert Visits(entries[..i + 1]) == Visits(entries[..i]) + [VisitOf(e)];
        var relativePath := RelPath(e);
        ScanRunSnoc(meta0, Visits(entries[..i]), VisitOf(e));
        ghost var next := ScanStep(ScanState(fileMetadata, changed), VisitOf(e));
        if relativePath in fileMetadata {
          var oldMetadata := fileMetadata[relativePath];
          if oldMetadata.hash != e.hash {
            changed := changed + [Change(relativePath, e.lastModified, oldMetadata.hash, e.hash)];
          }
        }
        fileMetadata := fileMetadata[relativePath := FileMeta(e.hash, e.lastModified)];
        assert ScanState(fileMetadata, changed) == next;
      }
      assert entries[..|entries|] == entries;
    }
  }

  // Properties of a scan

  /** Every visit is that of an accepted entry. */
  lemma {:induction false} VisitsWithFrom(entries: seq<FileEntry>, keep: FileEntry -> bool, v: Visit)
    requires v in VisitsWith(entries, keep)
    ensures exists i :: 0 <= i < |entries| && keep(entries[i]) && v == VisitOf(entries[i])
    decreases |entries|
  {
    var init := entries[..|entries| - 1];
    var last := |entries| - 1;
    if v in VisitsWith(init, keep) {
      VisitsWithFrom(init, keep, v);
      var i :| 0 <= i < |init| && keep(init[i]) && v == VisitOf(init[i]);
      assert init[i] == entries[i];
    } else {
      assert keep(entries[last]) && v == VisitOf(entries[last]);
    }
  }

  /** Every accepted entry is visited. */
  lemma {:induction false} VisitsWithHas(entries: seq<FileEntry>, keep: FileEntry -> bool, i: int)
    requires 0 <= i < |entries| && keep(entries[i])
    ensures VisitOf(entries[i]) in VisitsWith(entries, keep)
    decreases |entries|
  {
    var init := entries[..|entries| - 1];
    if i < |init| {
      assert init[i] == entries[i];
      VisitsWithHas(init, keep, i);
    }
  }

  /** Exactly the code files outside pruned directories are visited, under
      their relative paths. */
  lemma VisitsAre(entries: seq<FileEntry>)
    ensures forall v :: v in Visits(entries) <==> exists i :: 0 <= i < |entries| && Tracked(entries[i]) && v == VisitOf(entries[i])
  {
    forall v | v in Visits(entries)
      ensures exists i :: 0 <= i < |entries| && Tracked(entries[i]) && v == VisitOf(entries[i])
    {
      VisitsWithFrom(entries, Tracked, v);
    }
    forall i | 0 <= i < |entries| && Tracked(entries[i])
      ensures VisitOf(entries[i]) in Visits(entries)
    {
      VisitsWithHas(entries, Tracked, i);
    }
  }

  /** A file under a pruned directory is not visited. */
  lemma PrunedIgnored(entries: seq<FileEntry>, e: FileEntry)
    requires exists k :: 0 <= k < |e.dirs| && e.dirs[k] in PrunedDirs
    ensures Visits(entries + [e]) == Visits(entries)
  {
    assert (entries + [e])[..|entries|] == entries;
  }

  function Paths(vs: seq<Visit>): set<string>
    decreases |vs|
  {
    if vs == [] then {} else Paths(vs[..|vs| - 1]) + {vs[|vs| - 1].path}
  }

  /** A walk lists every file once: each visited path is new. */
  predicate DistinctPaths(vs: seq<Visit>)
    decreases |vs|
  {
    vs == [] || (DistinctPaths(vs[..|vs| - 1]) && vs[|vs| - 1].path !in Paths(vs[..|vs| - 1]))
  }

  lemma {:induction false} InPaths(vs: seq<Visit>, i: int)
    requires 0 <= i < |vs|
    ensures vs[i].path in Paths(vs)
    decreases |vs|
  {
    if i < |vs| - 1 {
      assert vs[..|vs| - 1][i] == vs[i];
      InPaths(vs[..|vs| - 1], i);
    }
  }

  /** Whether a visited file differs from what the table held before the scan. */
  predicate Reported(meta: map<string, FileMeta>, v: Visit) {
    v.path in meta && meta[v.path].hash != v.hash
  }

  /** The changes a scan should report, read off the table as it was. */
  function Expected(meta: map<string, FileMeta>, vs: seq<Visit>): seq<Change>
    decreases |vs|
  {
    if vs == [] then []
    else
      var v := vs[|vs| - 1];
      Expected(meta, vs[..|vs| - 1])
      + (if Reported(meta, v) then [Change(v.path, v.lastModified, meta[v.path].hash, v.hash)] else [])
  }

  /** The table gains exactly the visited paths; any other path keeps its entry. */
  lemma {:induction false} ScanMetaKeys(meta: map<string, FileMeta>, vs: seq<Visit>)
    ensures var m := ScanRun(meta, vs).meta;
            && m.Keys == meta.Keys + Paths(vs)
            && (forall p :: p in meta && p !in Paths(vs) ==> m[p] == meta[p])
    decreases |vs|
  {
    if vs != [] {
      ScanMetaKeys(meta, vs[..|vs| - 1]);
    }
  }

  /** A visited file's metadata is its current hash and time. */
  lemma {:induction false} ScanMetaAt(meta: map<string, FileMeta>, vs: seq<Visit>, i: int)
    requires DistinctPaths(vs)
    requires 0 <= i < |vs|
    ensures var m := ScanRun(meta, vs).meta;
            vs[i].path in m && m[vs[i].path] == FileMeta(vs[i].hash, vs[i].lastModified)
    decreases |vs|
  {
    var init := vs[..|vs| - 1];
    if i < |init| {
      assert init[i] == vs[i];
      ScanMetaAt(meta, init, i);
      InPaths(init, i);
    }
  }

  /** After a scan every visited file's metadata is its current hash and
      time, the table gains exactly the visited paths, and any other path
      keeps its entry. */
  lemma ScanMeta(meta: map<string, FileMeta>, vs: seq<Visit>)
    requires DistinctPaths(vs)
    ensures var m := ScanRun(meta, vs).meta;
            && m.Keys == meta.Keys + Paths(vs)
            && (forall i :: 0 <= i < |vs| ==> vs[i].path in m && m[vs[i].path] == FileMeta(vs[i].hash, vs[i].lastModified))
            && (forall p :: p in meta && p !in Paths(vs) ==> m[p] == meta[p])
  {
    ScanMetaKeys(meta, vs);
    forall i | 0 <= i < |vs|
      ensures var m := ScanRun(meta, vs).meta;
              vs[i].path in m && m[vs[i].path] == FileMeta(vs[i].hash, vs[i].lastModified)
    {
      ScanMetaAt(meta, vs, i);
    }
  }

  /** A scan reports, in walk order, exactly the visited files that the
      table already held under a different hash; a first sighting is never
      reported. */
  lemma {:induction false} ScanChanges(meta: map<string, FileMeta>, vs: seq<Visit>)
    requires DistinctPaths(vs)
    ensures ScanRun(meta, vs).changed == Expected(meta, vs)
    decreases |vs|
  {
    if vs != [] {
      var init := vs[..|vs| - 1];
      ScanChanges(meta, init);
      ScanMetaKeys(meta, init);
    }
  }

  lemma {:induction false} ExpectedNone(meta: map<string, FileMeta>, vs: seq<Visit>)
    requires forall i :: 0 <= i < |vs| ==> !Reported(meta, vs[i])
    ensures Expected(meta, vs) == []
    decreases |vs|
  {
    if vs != [] {
      ExpectedNone(meta, vs[..|vs| - 1]);
    }
  }

  /** Scanning the same files again reports nothing: the first scan is the
      baseline for the next. */
  lemma RescanQuiet(meta: map<string, FileMeta>, entries: seq<FileEntry>)
    requires DistinctPaths(Visits(entries))
    ensures Scan(Scan(meta, entries).meta, entries).changed == []
  {
    var vs := Visits(entries);
    var m := ScanRun(meta, vs).meta;
    ScanMeta(meta, vs);
    ScanChanges(m, vs);
    ExpectedNone(m, vs);
  }

  // ---------------------------------------------------------------------------
  // ScheduledScanner

  /** What scan_project reports; the per-file analysis is not modelled. */
  datatype ScanResult = NotRegistered | NoChanges | Changed(files: seq<string>)

  function ChangedPaths(cs: seq<Change>): (r: seq<string>)
    ensures |r| == |cs| && forall i :: 0 <= i < |cs| ==> r[i] == cs[i].filePath
  {
    if cs == [] then [] else [cs[0].filePath] + ChangedPaths(cs[1..])
  }

  /** The results loop of scan_project: one entry per changed file, in order. */
  method CollectResults(changedFiles: seq<Change>) returns (results: seq<string>)
    ensures results == ChangedPaths(changedFiles)
  {
    results := [];
    for i := 0 to |changedFiles|
      invariant |results| == i
      invariant forall j :: 0 <= j < i ==> results[j] == changedFiles[j].filePath
    {
      results := results + [changedFiles[i].filePath];
    }
  }

  function ResultOf(cs: seq<Change>): ScanResult {
    if cs == [] then NoChanges else Changed(ChangedPaths(cs))
  }

  /** `time_since_last_scan > timedelta(hours=interval_hours)`, in seconds. */
  predicate IsDue(last: int, now: int, intervalHours: int) {
    now - last > intervalHours * 3600
  }

  /** The due projects in the table's order. */
  function DueProjects(order: seq<string>, times: map<string, int>, now: int, intervalHours: int): seq<string>
    requires forall k :: 0 <= k < |order| ==> order[k] in times
    decreases |order|
  {
    if order == [] then []
    else
      var p := order[|order| - 1];
      DueProjects(order[..|order| - 1], times, now, intervalHours) + (if IsDue(times[p], now, intervalHours) then [p] else [])
  }

  /** Exactly the projects whose elapsed time strictly exceeds the interval
      are due, each once. */
  lemma {:induction false} DueExactly(order: seq<string>, times: map<string, int>, now: int, intervalHours: int)
    requires forall k :: 0 <= k < |order| ==> order[k] in times
    requires NoDup(order)
    ensures NoDup(DueProjects(order, times, now, intervalHours))
    ensures forall p :: p in DueProjects(order, times, now, intervalHours) <==> p in order && IsDue(times[p], now, intervalHours)
    decreases |order|
  {
    if order != [] {
      var init := order[..|order| - 1];
      var p := order[|order| - 1];
      assert forall k :: 0 <= k < |init| ==> init[k] == order[k];
      assert NoDup(init);
      DueExactly(init, times, now, intervalHours);
      assert p !in init;
      if IsDue(times[p], now, intervalHours) {
        NoDupAppend(DueProjects(init, times, now, intervalHours), p);
      }
      assert order == init + [p];
    }
  }

  class ScheduledScanner {
    var trackers: map<string, ChangeTracker>
    var lastScanTimes: map<string, int>
    /** The insertion order of lastScanTimes. */
    var scanOrder: seq<string>

    /** Both tables have the same projects, listed once each in scanOrder, and
        each project has its own tracker. */
    ghost predicate Valid()
      reads this
    {
      && trackers.Keys == lastScanTimes.Keys
      && NoDup(scanOrder)
      && (forall k :: 0 <= k < |scanOrder| ==> scanOrder[k] in lastScanTimes)
      && (forall p :: p in lastScanTimes ==> p in scanOrder)
      && (forall p, q :: p in trackers && q in trackers && p != q ==> trackers[p] != trackers[q])
    }

    constructor ()
      ensures Valid()
      ensures trackers == map[] && lastScanTimes == map[] && scanOrder == []
    {
      trackers := map[];
      lastScanTimes := map[];
      scanOrder := [];
    }

    /** register_project: `isDir` is whether repo_path is a directory, `now`
        the clock, `entries` the files a walk of the repository lists. A new
        tracker takes a baseline scan. */
    method RegisterProject(projectId: string, repoPath: string, isDir: bool, now: int, entries: seq<FileEntry>) returns (ok: bool)
      requires Valid()
      modifies this
      ensures Valid()
      ensures ok == isDir
      ensures !isDir ==> trackers == old(trackers) && lastScanTimes == old(lastScanTimes) && scanOrder == old(scanOrder)
      ensures isDir ==> && projectId in trackers && fresh(trackers[projectId])
                        && trackers[projectId].projectId == projectId && trackers[projectId].repoPath == repoPath
                        && trackers[projectId].fileMetadata == Scan(map[], entries).meta
                        && lastScanTimes == old(lastScanTimes)[projectId := now]
                        && scanOrder == (if projectId in old(lastScanTimes) then old(scanOrder) else old(scanOrder) + [projectId])
                        && trackers == old(trackers)[projectId := trackers[projectId]]
    {
      if !isDir {
        return false;
      }
      var tracker := new ChangeTracker(projectId, repoPath);
      trackers := trackers[projectId := tracker];
      if projectId !in lastScanTimes {
        NoDupAppend(scanOrder, projectId);
        scanOrder := scanOrder + [projectId];
      }
      lastScanTimes := lastScanTimes[projectId := now];
      var _ := tracker.ScanForChanges(entries);
      ok := true;
    }

    /** scan_project: an unregistered project is an error and changes
        nothing; otherwise the scan time is set and the project's tracker
        scans the listed files. */
    method ScanProject(projectId: string, now: int, entries: seq<FileEntry>) returns (result: ScanResult)
      requires Valid()
      modifies this, trackers.Values
      ensures Valid()
      ensures trackers == old(trackers) && scanOrder == old(scanOrder)
      ensures projectId !in trackers ==> result == NotRegistered && lastScanTimes == old(lastScanTimes)
      ensures projectId in trackers ==> && lastScanTimes == old(lastScanTimes)[projectId := now]
                                        && trackers[projectId].fileMetadata == Scan(old(trackers[projectId].fileMetadata), entries).meta
                                        && result == ResultOf(Scan(old(trackers[projectId].fileMetadata), entries).changed)
      ensures forall p :: p in trackers && p != projectId ==> trackers[p].fileMetadata == old(trackers[p].fileMetadata)
    {
      if projectId !in trackers {
        return NotRegistered;
      }
      lastScanTimes := lastScanTimes[projectId := now];
      var changedFiles := trackers[projectId].ScanForChanges(entries);
      if changedFiles == [] {
        return NoChanges;
      }
      var results := CollectResults(changedFiles);
      result := Changed(results);
    }

    /** The selection loop of scan_due_projects. */
    method DueNow(intervalHours: int, now: int) returns (due: seq<string>)
      requires Valid()
      ensures due == DueProjects(scanOrder, lastScanTimes, now, intervalHours)
    {
      due := [];
      for k := 0 to |scanOrder|
        invariant due == DueProjects(scanOrder[..k], lastScanTimes, now, intervalHours)
      {
        assert scanOrder[..k + 1][..k] == scanOrder[..k];
        var projectId := scanOrder[k];
        if IsDue(lastScanTimes[projectId], now, intervalHours) {
          due := due + [projectId];
        }
      }
      assert scanOrder[..|scanOrder|] == scanOrder;
    }

    /** The scanning loop of scan_due_projects: each listed project, in
        turn, is scanned with the files `listing` gives for it, at the time
        `clock` gives for its scan (scan_project reads the clock itself). */
    method ScanEach(projects: seq<string>, clock: string -> int, listing: string -> seq<FileEntry>)
      returns (results: map<string, ScanResult>)
      requires Valid()
      requires NoDup(projects)
      requires forall k :: 0 <= k < |projects| ==> projects[k] in trackers
      modifies this, trackers.Values
      ensures Valid()
      ensures trackers == old(trackers) && scanOrder == old(scanOrder)
      ensures lastScanTimes.Keys == old(lastScanTimes).Keys
      ensures forall p :: p in results <==> p in projects
      ensures forall p :: p in lastScanTimes ==> lastScanTimes[p] == if p in projects then clock(p) else old(lastScanTimes)[p]
      ensures forall p :: p in results ==> p in old(trackers) && results[p] == ResultOf(Scan(old(trackers[p].fileMetadata), listing(p)).changed)
      ensures forall p :: p in trackers && p !in projects ==> trackers[p].fileMetadata == old(trackers[p].fileMetadata)
      ensures forall p :: p in trackers && p in projects ==> trackers[p].fileMetadata == Scan(old(trackers[p].fileMetadata), listing(p)).meta
    {
      results := map[];
      for i := 0 to |projects|
        invariant Valid()
        invariant trackers == old(trackers) && scanOrder == old(scanOrder)
        invariant lastScanTimes.Keys == old(lastScanTimes).Keys
        invariant forall p :: p in results <==> p in projects[..i]
        invariant forall p :: p in lastScanTimes ==> lastScanTimes[p] == if p in results then clock(p) else old(lastScanTimes)[p]
        invariant forall p :: p in results ==> p in old(trackers) && results[p] == ResultOf(Scan(old(trackers[p].fileMetadata), listing(p)).changed)
        invariant forall p :: p in trackers && p !in results ==> trackers[p].fileMetadata == old(trackers[p].fileMetadata)
        invariant forall p :: p in trackers && p in results ==> trackers[p].fileMetadata == Scan(old(trackers[p].fileMetadata), listing(p)).meta
      {
        var projectId := projects[i];
        assert projectId !in results by {
          assert forall a, b :: 0 <= a < b < |projects| ==> projects[a] != projects[b];
        }
        assert projects[..i + 1] == projects[..i] + [projectId];
        ghost var before := trackers[projectId].fileMetadata;
        assert before == old(trackers[projectId].fileMetadata);
        var result := ScanProject(projectId, clock(projectId), listing(projectId));
        assert result == ResultOf(Scan(before, listing(projectId)).changed);
        results := results[projectId := result];
      }
      assert projects[..|projects|] == projects;
    }

    /** scan_due_projects: the due projects are chosen from the scan times as
        they were at the time `now`, in table order, and each is then scanned
        with the files `listing` gives for it, at its own time `clock` gives. */
    method ScanDueProjects(intervalHours: int, now: int, clock: string -> int, listing: string -> seq<FileEntry>)
      returns (due: seq<string>, results: map<string, ScanResult>)
      requires Valid()
      modifies this, trackers.Values
      ensures Valid()
      ensures due == DueProjects(old(scanOrder), old(lastScanTimes), now, intervalHours)
      ensures trackers == old(trackers) && scanOrder == old(scanOrder)
      ensures lastScanTimes.Keys == old(lastScanTimes).Keys
      ensures forall p :: p in lastScanTimes ==> lastScanTimes[p] == if p in due then clock(p) else old(lastScanTimes)[p]
      ensures forall p :: p in results <==> p in due
      ensures forall p :: p in results ==> p in old(trackers) && results[p] == ResultOf(Scan(old(trackers[p].fileMetadata), listing(p)).changed)
      ensures forall p :: p in trackers ==>
                trackers[p].fileMetadata == if p in due then Scan(old(trackers[p].fileMetadata), listing(p)).meta else old(trackers[p].fileMetadata)
    {
      due := DueNow(intervalHours, now);
      DueExactly(scanOrder, lastScanTimes, now, intervalHours);
      forall k | 0 <= k < |due|
        ensures due[k] in trackers
      {
        assert due[k] in due;
        var j :| 0 <= j < |scanOrder| && scanOrder[j] == due[k];
      }
      results := ScanEach(due, clock, listing);
    }
  }
}
