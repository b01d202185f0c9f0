/**
 * The session files under `~/.claude/projects` and the listings the bridge
 * builds from them (bridge.py:356-461, 795-803).
 *
 * The directory is abstracted as its entries (name and whether each is a
 * directory) and its `.jsonl` files. A file whose `project` is empty sits
 * directly in the projects directory; every other file sits in the project
 * directory of that name. The clock is the parameter `now` (seconds).
 */
module SessionStore {
  import opened Wrappers
  import opened Text
  import opened Listing
  import ProjectPath

  const SecondsPerDay: real := 86400.0
  /** Default `max_age_days` of `is_valid_session`. */
  const MaxAgeDays: int := 30

  /** The token counts of an assistant message; a missing count is 0. */
  datatype TokenUsage = TokenUsage(input: nat, output: nat, cacheRead: nat, cacheCreation: nat)

  /**
   * One line of a session log as the usage scan reads it. `Unparsed` is a
   * line without the text `"usage"` or one that is not JSON. In `Entry`, the
   * usage is None when absent or empty, and a missing model or timestamp is
   * the empty string.
   */
  datatype LogLine =
    | Unparsed
    | Entry(entryType: string, usage: Option<TokenUsage>, model: string, timestamp: string)

  /**
   * One `.jsonl` file: the project directory it sits in, its stem (the session
   * id), its size and modification time, its first line as `readline` returns
   * it, whether that line, stripped, parses as JSON, and the lines that can
   * be read from it.
   */
  datatype SessionFile = SessionFile(
    project: string, stem: string, size: nat, mtime: real,
    firstLine: string, firstLineParses: bool, lines: seq<LogLine>)

  datatype Entry = Entry(name: string, isDir: bool)

  /** `~/.claude/projects` when it exists; `None` stands for a missing directory. */
  datatype ProjectsDir = ProjectsDir(entries: seq<Entry>, files: seq<SessionFile>)

  /** How many days ago the file was last modified. */
  function AgeDays(f: SessionFile, now: real): real {
    (now - f.mtime) / SecondsPerDay
  }

  /** `is_valid_session`: non-empty, not older than `maxAgeDays`, first line non-blank JSON. */
  predicate IsValidSession(f: SessionFile, now: real, maxAgeDays: int) {
    && f.size > 0
    && AgeDays(f, now) <= maxAgeDays as real
    && Strip(f.firstLine) != []
    && f.firstLineParses
  }

  /**
   * A record is valid exactly when it is non-empty, was modified at most
   * `maxAgeDays` whole days of seconds ago, and its first line is not all
   * whitespace and parses.
   */
  lemma IsValidSessionCases(f: SessionFile, now: real, maxAgeDays: int)
    ensures IsValidSession(f, now, maxAgeDays) <==>
              f.size > 0 && now - f.mtime <= maxAgeDays as real * SecondsPerDay && !IsBlank(f.firstLine) && f.firstLineParses
  {
    StripEmptyIffBlank(f.firstLine);
  }

  // Matched by the glob `*/*.jsonl`: the file sits in a project directory.
  predicate InProjectDir(f: SessionFile) {
    f.project != ""
  }

  /** A file the recent listing may show. */
  predicate Listed(f: SessionFile, now: real) {
    InProjectDir(f) && IsValidSession(f, now, MaxAgeDays)
  }

  // ---------------------------------------------------------------------
  // get_recent_sessions_from_files

  datatype RecentSession = RecentSession(sessionId: string, projectDir: string, mtime: real, display: string)

  function RecentOf(f: SessionFile): RecentSession {
    RecentSession(f.stem, f.project, f.mtime, f.project + ":" + f.stem)
  }

  function RecentMtime(s: RecentSession): real {
    s.mtime
  }

  /** The records appended by the loop, in file order. */
  function ValidRecent(files: seq<SessionFile>, now: real): seq<RecentSession> {
    if files == [] then []
    else
      var init := ValidRecent(files[..|files| - 1], now);
      var f := files[|files| - 1];
      if Listed(f, now) then init + [RecentOf(f)] else init
  }

  /** The appended records are exactly those of the listable files. */
  lemma {:induction false} ValidRecentMembers(files: seq<SessionFile>, now: real)
    ensures forall x :: x in ValidRecent(files, now) ==> exists f :: f in files && Listed(f, now) && x == RecentOf(f)
    ensures forall f :: f in files && Listed(f, now) ==> RecentOf(f) in ValidRecent(files, now)
    decreases |files|
  {
    if files != [] {
      var init := files[..|files| - 1];
      ValidRecentMembers(init, now);
      assert files == init + [files[|files| - 1]];
    }
  }

  /** One record per listable file. */
  lemma {:induction false} ValidRecentCount(files: seq<SessionFile>, now: real)
    ensures |ValidRecent(files, now)| == CountWhere(files, f => Listed(f, now))
    decreases |files|
  {
    if files != [] {
      ValidRecentCount(files[..|files| - 1], now);
    }
  }

  /** One more file: its record is appended when it is listable. */
  lemma ValidRecentStep(files: seq<SessionFile>, i: nat, now: real)
    requires i < |files|
    ensures ValidRecent(files[..i + 1], now) ==
              ValidRecent(files[..i], now) + (if Listed(files[i], now) then [RecentOf(files[i])] else [])
  {
    assert files[..i + 1][..i] == files[..i];
  }

  /** What `get_recent_sessions_from_files(limit)` returns. */
  function RecentSessions(store: Option<ProjectsDir>, now: real, limit: int): (r: seq<RecentSession>)
    ensures store.None? ==> r == []
    ensures store.Some? ==> |r| <= CountWhere(store.value.files, f => Listed(f, now))
  {
    match store
    case None => []
    case Some(d) =>
      ValidRecentCount(d.files, now);
      Prefix(SortDesc(ValidRecent(d.files, now), RecentMtime), limit)
  }

  method GetRecentSessionsFromFiles(store: Option<ProjectsDir>, now: real, limit: int) returns (r: seq<RecentSession>)
    ensures r == RecentSessions(store, now, limit)
  {
    if store.None? {
      return [];
    }
    var files := store.value.files;
    var all: seq<RecentSession> := [];
    var i := 0;
    while i < |files|
      invariant i <= |files|
      invariant all == ValidRecent(files[..i], now)
    {
      ValidRecentStep(files, i, now);
      var f := files[i];
      if Listed(f, now) {
        all := all + [RecentOf(f)];
      }
      i := i + 1;
    }
    assert files[..|files|] == files;
    r := Prefix(SortDesc(all, RecentMtime), limit);
  }

  /**
   * The recent listing is a sub-multiset of the valid files in project
   * directories (no record shows up more often than a file backs it), newest
   * first, `limit` of them or all when there are fewer, and every valid file
   * it leaves out is no newer than any it keeps.
   */
  lemma RecentSessionsSpec(d: ProjectsDir, now: real, limit: int)
    ensures var r := RecentSessions(Some(d), now, limit); var n := CountWhere(d.files, f => Listed(f, now));
      && SortedDesc(r, RecentMtime)
      && multiset(r) <= multiset(ValidRecent(d.files, now))
      && (limit >= 0 ==> |r| == if limit <= n then limit else n)
      && (forall x :: x in r ==> exists f :: f in d.files && Listed(f, now) && x == RecentOf(f))
      && (forall f :: f in d.files && Listed(f, now) && RecentOf(f) !in r ==>
            forall i :: 0 <= i < |r| ==> f.mtime <= r[i].mtime)
  {
    var all := ValidRecent(d.files, now);
    var r := RecentSessions(Some(d), now, limit);
    TopN(all, RecentMtime, limit);
    ValidRecentMembers(d.files, now);
    ValidRecentCount(d.files, now);
    forall x | x in r
      ensures x in all
    {
      assert x in multiset(r);
    }
    forall f | f in d.files && Listed(f, now) && RecentOf(f) !in r
      ensures forall i :: 0 <= i < |r| ==> f.mtime <= r[i].mtime
    {
      OutsidePrefixNoNewer(all, RecentMtime, limit, RecentOf(f));
    }
  }

  // ---------------------------------------------------------------------
  // get_projects

  datatype ProjectSummary = ProjectSummary(encodedName: string, sessionCount: nat, mtime: real)

  function SummaryMtime(p: ProjectSummary): real {
    p.mtime
  }

  /** `[j for j in project_dir.glob("*.jsonl") if is_valid_session(j)]`. */
  function ValidIn(files: seq<SessionFile>, dir: string, now: real): seq<SessionFile> {
    if files == [] then []
    else
      var init := ValidIn(files[..|files| - 1], dir, now);
      var f := files[|files| - 1];
      if f.project == dir && IsValidSession(f, now, MaxAgeDays) then init + [f] else init
  }

  /** A file is among a directory's valid files exactly when it is a valid file of that directory. */
  lemma {:induction false} ValidInMembers(files: seq<SessionFile>, dir: string, now: real)
    ensures forall f :: f in ValidIn(files, dir, now) <==> f in files && f.project == dir && IsValidSession(f, now, MaxAgeDays)
    decreases |files|
  {
    if files != [] {
      var init := files[..|files| - 1];
      ValidInMembers(init, dir, now);
      assert files == init + [files[|files| - 1]];
    }
  }

  /** The modification time of the newest file, as `max(..., key=mtime)` finds it. */
  function MaxMtime(fs: seq<SessionFile>): (m: real)
    requires fs != []
    ensures forall f :: f in fs ==> f.mtime <= m
    ensures exists f :: f in fs && f.mtime == m
  {
    if |fs| == 1 then fs[0].mtime
    else
      var rest := MaxMtime(fs[1..]);
      assert forall f :: f in fs ==> f == fs[0] || f in fs[1..];
      if fs[0].mtime >= rest then fs[0].mtime else rest
  }

  /** The records appended by the loop over the entries, in directory order. */
  function Summaries(entries: seq<Entry>, files: seq<SessionFile>, now: real): seq<ProjectSummary> {
    if entries == [] then []
    else
      var init := Summaries(entries[..|entries| - 1], files, now);
      var e := entries[|entries| - 1];
      var valid := ValidIn(files, e.name, now);
      if e.isDir && valid != [] then init + [ProjectSummary(e.name, |valid|, MaxMtime(valid))] else init
  }

  /** A directory entry with at least one valid file. */
  predicate Listable(e: Entry, files: seq<SessionFile>, now: real) {
    e.isDir && ValidIn(files, e.name, now) != []
  }

  /** One summary per listable entry. */
  lemma {:induction false} SummariesCount(entries: seq<Entry>, files: seq<SessionFile>, now: real)
    ensures |Summaries(entries, files, now)| == CountWhere(entries, e => Listable(e, files, now))
    decreases |entries|
  {
    if entries != [] {
      SummariesCount(entries[..|entries| - 1], files, now);
    }
  }

  /** One more entry: its summary is appended when it is a directory with valid files. */
  lemma SummariesStep(entries: seq<Entry>, i: nat, files: seq<SessionFile>, now: real)
    requires i < |entries|
    ensures var e, valid := entries[i], ValidIn(files, entries[i].name, now);
      Summaries(entries[..i + 1], files, now) ==
        Summaries(entries[..i], files, now) + (if e.isDir && valid != [] then [ProjectSummary(e.name, |valid|, MaxMtime(valid))] else [])
  {
    assert entries[..i + 1][..i] == entries[..i];
  }

  /** The summary `get_projects` builds for a directory with valid files. */
  predicate Summarizes(p: ProjectSummary, files: seq<SessionFile>, now: real) {
    var valid := ValidIn(files, p.encodedName, now);
    valid != [] && p.sessionCount == |valid| && p.mtime == MaxMtime(valid)
  }

  predicate IsDirNamed(entries: seq<Entry>, name: string) {
    exists k :: 0 <= k < |entries| && entries[k].isDir && entries[k].name == name
  }

  /**
   * Every record summarizes a directory entry with valid files, and every
   * directory entry with valid files has a record.
   */
  lemma SummariesMembers(entries: seq<Entry>, files: seq<SessionFile>, now: real)
    ensures forall p :: p in Summaries(entries, files, now) ==> Summarizes(p, files, now) && IsDirNamed(entries, p.encodedName)
    ensures forall e :: e in entries && e.isDir && ValidIn(files, e.name, now) != [] ==>
              exists p :: p in Summaries(entries, files, now) && p.encodedName == e.name
  {
    SummariesSound(entries, files, now);
    SummariesComplete(entries, files, now);
  }

  lemma {:induction false} SummariesSound(entries: seq<Entry>, files: seq<SessionFile>, now: real)
    ensures forall p :: p in Summaries(entries, files, now) ==> Summarizes(p, files, now) && IsDirNamed(entries, p.encodedName)
    decreases |entries|
  {
    if entries != [] {
      var init := entries[..|entries| - 1];
      var e := entries[|entries| - 1];
      SummariesSound(init, files, now);
      forall p | p in Summaries(init, files, now) ensures IsDirNamed(entries, p.encodedName) {
        var k :| 0 <= k < |init| && init[k].isDir && init[k].name == p.encodedName;
        assert entries[k] == init[k];
      }
      if e.isDir && ValidIn(files, e.name, now) != [] {
        assert IsDirNamed(entries, e.name) by {
          assert entries[|entries| - 1] == e;
        }
      }
    }
  }

  lemma {:induction false} SummariesComplete(entries: seq<Entry>, files: seq<SessionFile>, now: real)
    ensures forall e :: e in entries && e.isDir && ValidIn(files, e.name, now) != [] ==>
              exists p :: p in Summaries(entries, files, now) && p.encodedName == e.name
    decreases |entries|
  {
    if entries != [] {
      var init := entries[..|entries| - 1];
      var e := entries[|entries| - 1];
      SummariesComplete(init, files, now);
      assert entries == init + [e];
      var s, si := Summaries(entries, files, now), Summaries(init, files, now);
      assert forall p :: p in si ==> p in s;
      forall x | x in entries && x.isDir && ValidIn(files, x.name, now) != []
        ensures exists p :: p in s && p.encodedName == x.name
      {
        if x == e {
          var valid := ValidIn(files, e.name, now);
          assert ProjectSummary(e.name, |valid|, MaxMtime(valid)) in s;
        } else {
          assert x in init;
        }
      }
    }
  }


  /** What `get_projects(limit)` returns. */
  function Projects(store: Option<ProjectsDir>, now: real, limit: int): (r: seq<ProjectSummary>)
    ensures store.None? ==> r == []
    ensures store.Some? ==> |r| <= CountWhere(store.value.entries, e => Listable(e, store.value.files, now))
  {
    match store
    case None => []
    case Some(d) =>
      SummariesCount(d.entries, d.files, now);
      Prefix(SortDesc(Summaries(d.entries, d.files, now), SummaryMtime), limit)
  }

  method GetProjects(store: Option<ProjectsDir>, now: real, limit: int) returns (r: seq<ProjectSummary>)
    ensures r == Projects(store, now, limit)
  {
    if store.None? {
      return [];
    }
    var entries, files := store.value.entries, store.value.files;
    var projects: seq<ProjectSummary> := [];
    var i := 0;
    while i < |entries|
      invariant i <= |entries|
      invariant projects == Summaries(entries[..i], files, now)
    {
      var e := entries[i];
      SummariesStep(entries, i, files, now);
      if e.isDir {
        var jsonls := ValidIn(files, e.name, now);
        if jsonls != [] {
          var latest := MaxMtime(jsonls);
          projects := projects + [ProjectSummary(e.name, |jsonls|, latest)];
        }
      }
      i := i + 1;
    }
    assert entries[..|entries|] == entries;
    r := Prefix(SortDesc(projects, SummaryMtime), limit);
  }

  /**
   * The project listing is a sub-multiset of the summaries of directories
   * with valid files, each with the number of its valid files and the newest
   * of their modification times; it is ordered newest first and holds
   * `limit` projects, or all when there are fewer.
   */
  lemma ProjectsSpec(d: ProjectsDir, now: real, limit: int)
    ensures var r := Projects(Some(d), now, limit); var n := CountWhere(d.entries, e => Listable(e, d.files, now));
      && SortedDesc(r, SummaryMtime)
      && multiset(r) <= multiset(Summaries(d.entries, d.files, now))
      && (limit >= 0 ==> |r| == if limit <= n then limit else n)
      && (forall p :: p in r ==>
            && IsDirNamed(d.entries, p.encodedName)
            && p.sessionCount == |ValidIn(d.files, p.encodedName, now)| >= 1
            && (forall f :: f in d.files && ValidFileOf(f, p.encodedName, now) ==> f.mtime <= p.mtime)
            && (exists f :: f in d.files && ValidFileOf(f, p.encodedName, now) && f.mtime == p.mtime))
  {
    var all := Summaries(d.entries, d.files, now);
    var r := Projects(Some(d), now, limit);
    TopN(all, SummaryMtime, limit);
    SummariesMembers(d.entries, d.files, now);
    SummariesCount(d.entries, d.files, now);
    forall p | p in r
      ensures IsDirNamed(d.entries, p.encodedName)
      ensures p.sessionCount == |ValidIn(d.files, p.encodedName, now)| >= 1
      ensures forall f :: f in d.files && ValidFileOf(f, p.encodedName, now) ==> f.mtime <= p.mtime
      ensures exists f :: f in d.files && ValidFileOf(f, p.encodedName, now) && f.mtime == p.mtime
    {
      assert p in multiset(r);
      assert p in all;
      ValidInMembers(d.files, p.encodedName, now);
    }
  }

  /**
   * Every listable project the listing leaves out is no newer than any it
   * keeps: none of its valid files is newer than a listed project.
   */
  lemma ProjectsOmittedNoNewer(d: ProjectsDir, now: real, limit: int)
    ensures var r := Projects(Some(d), now, limit);
      forall e :: e in d.entries && Listable(e, d.files, now) && (forall p :: p in r ==> p.encodedName != e.name) ==>
        forall f, i :: f in d.files && ValidFileOf(f, e.name, now) && 0 <= i < |r| ==> f.mtime <= r[i].mtime
  {
    var all := Summaries(d.entries, d.files, now);
    var r := Projects(Some(d), now, limit);
    SummariesMembers(d.entries, d.files, now);
    forall e | e in d.entries && Listable(e, d.files, now) && (forall p :: p in r ==> p.encodedName != e.name)
      ensures forall f, i :: f in d.files && ValidFileOf(f, e.name, now) && 0 <= i < |r| ==> f.mtime <= r[i].mtime
    {
      var p :| p in all && p.encodedName == e.name;
      assert p !in r;
      OutsidePrefixNoNewer(all, SummaryMtime, limit, p);
      ValidInMembers(d.files, e.name, now);
    }
  }

  // ---------------------------------------------------------------------
  // resolve_project_dir and get_sessions_for_project

  predicate IsPrefixDir(e: Entry, name: string) {
    e.isDir && name <= e.name
  }

  /** The prefix scan: the first directory whose name starts with `name`. */
  function FirstPrefixDir(entries: seq<Entry>, name: string): (r: Option<string>)
    ensures r.Some? ==> exists k :: 0 <= k < |entries| && IsPrefixDir(entries[k], name) && entries[k].name == r.value &&
                          forall k' :: 0 <= k' < k ==> !IsPrefixDir(entries[k'], name)
    ensures r.None? ==> forall k :: 0 <= k < |entries| ==> !IsPrefixDir(entries[k], name)
  {
    if entries == [] then None
    else if IsPrefixDir(entries[0], name) then Some(entries[0].name)
    else
      var r := FirstPrefixDir(entries[1..], name);
      assert r.Some? ==> exists k :: 1 <= k < |entries| && IsPrefixDir(entries[k], name) && entries[k].name == r.value &&
                          forall k' :: 0 <= k' < k ==> !IsPrefixDir(entries[k'], name) by {
        if r.Some? {
          var k :| 0 <= k < |entries[1..]| && IsPrefixDir(entries[1..][k], name) && entries[1..][k].name == r.value &&
                   forall k' :: 0 <= k' < k ==> !IsPrefixDir(entries[1..][k'], name);
          assert entries[k + 1] == entries[1..][k];
          forall k' | 0 <= k' < k + 1 ensures !IsPrefixDir(entries[k'], name) {
            if k' > 0 {
              assert entries[k'] == entries[1..][k' - 1];
            }
          }
        }
      }
      r
  }

  predicate HasEntry(entries: seq<Entry>, name: string) {
    exists k :: 0 <= k < |entries| && entries[k].name == name
  }

  /**
   * What `resolve_project_dir(name)` returns: an existing exact name first
   * (the empty name denotes the projects directory itself), then the first
   * directory whose name starts with `name`, else nothing.
   */
  function Resolve(store: Option<ProjectsDir>, name: string): (r: Option<string>)
    ensures store.None? ==> r.None?
    ensures store.Some? && (name == "" || HasEntry(store.value.entries, name)) ==> r == Some(name)
    ensures store.Some? && name != "" && !HasEntry(store.value.entries, name) ==> r == FirstPrefixDir(store.value.entries, name)
  {
    match store
    case None => None
    case Some(d) =>
      if name == "" || HasEntry(d.entries, name) then Some(name) else FirstPrefixDir(d.entries, name)
  }

  method ResolveProjectDir(store: Option<ProjectsDir>, name: string) returns (r: Option<string>)
    ensures r == Resolve(store, name)
  {
    if store.None? {
      return None;
    }
    var entries := store.value.entries;
    if name == "" || HasEntry(entries, name) {
      return Some(name);
    }
    var i := 0;
    while i < |entries|
      invariant i <= |entries|
      invariant FirstPrefixDir(entries, name) == FirstPrefixDir(entries[i..], name)
    {
      if entries[i].isDir && name <= entries[i].name {
        return Some(entries[i].name);
      }
      assert entries[i..][1..] == entries[i + 1..];
      i := i + 1;
    }
    return None;
  }

  datatype ProjectSession = ProjectSession(sessionId: string, mtime: real)

  /** A valid file of directory `dir`. */
  predicate ValidFileOf(f: SessionFile, dir: string, now: real) {
    f.project == dir && IsValidSession(f, now, MaxAgeDays)
  }

  function SessionMtime(s: ProjectSession): real {
    s.mtime
  }

  /** The records appended by the loop over the files of `dir`, in file order. */
  function SessionsIn(files: seq<SessionFile>, dir: string, now: real): seq<ProjectSession> {
    if files == [] then []
    else
      var init := SessionsIn(files[..|files| - 1], dir, now);
      var f := files[|files| - 1];
      if ValidFileOf(f, dir, now) then init + [ProjectSession(f.stem, f.mtime)] else init
  }

  /** The appended records are exactly those of the valid files of the directory. */
  lemma {:induction false} SessionsInMembers(files: seq<SessionFile>, dir: string, now: real)
    ensures forall x :: x in SessionsIn(files, dir, now) ==>
              exists f :: f in files && ValidFileOf(f, dir, now) && x == ProjectSession(f.stem, f.mtime)
    ensures forall f :: f in files && ValidFileOf(f, dir, now) ==> ProjectSession(f.stem, f.mtime) in SessionsIn(files, dir, now)
    decreases |files|
  {
    if files != [] {
      var init := files[..|files| - 1];
      SessionsInMembers(init, dir, now);
      assert files == init + [files[|files| - 1]];
    }
  }

  /** One record per valid file of the directory. */
  lemma {:induction false} SessionsInCount(files: seq<SessionFile>, dir: string, now: real)
    ensures |SessionsIn(files, dir, now)| == CountWhere(files, f => ValidFileOf(f, dir, now))
    decreases |files|
  {
    if files != [] {
      SessionsInCount(files[..|files| - 1], dir, now);
    }
  }

  /** One more file: its record is appended when it is a valid file of the directory. */
  lemma SessionsInStep(files: seq<SessionFile>, i: nat, dir: string, now: real)
    requires i < |files|
    ensures SessionsIn(files[..i + 1], dir, now) ==
              SessionsIn(files[..i], dir, now) + (if ValidFileOf(files[i], dir, now) then [ProjectSession(files[i].stem, files[i].mtime)] else [])
  {
    assert files[..i + 1][..i] == files[..i];
  }

  /** What `get_sessions_for_project(name, limit)` returns. */
  function SessionsForProject(store: Option<ProjectsDir>, name: string, now: real, limit: int): (r: seq<ProjectSession>)
    ensures Resolve(store, name).None? ==> r == []
    ensures Resolve(store, name).Some? ==>
              |r| <= CountWhere(store.value.files, f => ValidFileOf(f, Resolve(store, name).value, now))
  {
    match Resolve(store, name)
    case None => []
    case Some(dir) =>
      SessionsInCount(store.value.files, dir, now);
      Prefix(SortDesc(SessionsIn(store.value.files, dir, now), SessionMtime), limit)
  }

  method GetSessionsForProject(store: Option<ProjectsDir>, name: string, now: real, limit: int) returns (r: seq<ProjectSession>)
    ensures r == SessionsForProject(store, name, now, limit)
  {
    var dir := ResolveProjectDir(store, name);
    if dir.None? {
      return [];
    }
    var files, d := store.value.files, dir.value;
    var sessions: seq<ProjectSession> := [];
    var i := 0;
    while i < |files|
      invariant i <= |files|
      invariant sessions == SessionsIn(files[..i], d, now)
    {
      SessionsInStep(files, i, d, now);
      var f := files[i];
      if ValidFileOf(f, d, now) {
        sessions := sessions + [ProjectSession(f.stem, f.mtime)];
      }
      i := i + 1;
    }
    assert files[..|files|] == files;
    r := Prefix(SortDesc(sessions, SessionMtime), limit);
  }

  /**
   * The sessions listed for a project are a sub-multiset of the valid files
   * of the directory the name resolves to, newest first, `limit` of them or all when there are
   * fewer, and every valid file of the directory left out is no newer than
   * any listed; an unresolved name lists nothing.
   */
  lemma SessionsForProjectSpec(store: Option<ProjectsDir>, name: string, now: real, limit: int)
    ensures var r := SessionsForProject(store, name, now, limit);
      && SortedDesc(r, SessionMtime)
      && (Resolve(store, name).None? ==> r == [])
      && (Resolve(store, name).Some? ==>
            var dir, files := Resolve(store, name).value, store.value.files;
            var n := CountWhere(files, f => ValidFileOf(f, dir, now));
            && multiset(r) <= multiset(SessionsIn(files, dir, now))
            && (limit >= 0 ==> |r| == if limit <= n then limit else n)
            && (forall x :: x in r ==>
                  exists f :: f in files && ValidFileOf(f, dir, now) && x == ProjectSession(f.stem, f.mtime))
            && (forall f :: f in files && ValidFileOf(f, dir, now) && ProjectSession(f.stem, f.mtime) !in r ==>
                  forall i :: 0 <= i < |r| ==> f.mtime <= r[i].mtime))
  {
    var r := SessionsForProject(store, name, now, limit);
    if Resolve(store, name).Some? {
      var dir := Resolve(store, name).value;
      var all := SessionsIn(store.value.files, dir, now);
      TopN(all, SessionMtime, limit);
      SessionsInMembers(store.value.files, dir, now);
      SessionsInCount(store.value.files, dir, now);
      forall x | x in r
        ensures x in all
      {
        assert x in multiset(r);
      }
      forall f | f in store.value.files && ValidFileOf(f, dir, now) && ProjectSession(f.stem, f.mtime) !in r
        ensures forall i :: 0 <= i < |r| ==> f.mtime <= r[i].mtime
      {
        OutsidePrefixNoNewer(all, SessionMtime, limit, ProjectSession(f.stem, f.mtime));
      }
    }
  }

  // ---------------------------------------------------------------------
  // get_project_path_for_session

  /** A file in a project directory whose stem is `sid`. */
  predicate HoldsSession(f: SessionFile, sid: string) {
    InProjectDir(f) && f.stem == sid
  }

  /** File `k` holds the session and no file before it does. */
  predicate FirstHolder(files: seq<SessionFile>, sid: string, k: int) {
    0 <= k < |files| && HoldsSession(files[k], sid) && forall j :: 0 <= j < k ==> !HoldsSession(files[j], sid)
  }

  lemma FirstHolderUnique(files: seq<SessionFile>, sid: string, a: int, b: int)
    requires FirstHolder(files, sid, a) && FirstHolder(files, sid, b)
    ensures a == b
  {
  }

  /** The project directory of the first file in a project directory whose stem is `sid`. */
  function ProjectOfSession(files: seq<SessionFile>, sid: string): (r: Option<string>)
    ensures r.Some? ==> exists k :: FirstHolder(files, sid, k) && files[k].project == r.value
    ensures r.None? ==> forall f :: f in files ==> !HoldsSession(f, sid)
  {
    if files == [] then None
    else if HoldsSession(files[0], sid) then
      assert FirstHolder(files, sid, 0);
      Some(files[0].project)
    else
      var r := ProjectOfSession(files[1..], sid);
      assert forall f :: f in files ==> f == files[0] || f in files[1..];
      assert r.Some? ==> exists k :: FirstHolder(files, sid, k) && files[k].project == r.value by {
        if r.Some? {
          var k :| FirstHolder(files[1..], sid, k) && files[1..][k].project == r.value;
          assert files[k + 1] == files[1..][k];
          forall j | 0 <= j < k + 1 ensures !HoldsSession(files[j], sid) {
            if j > 0 {
              assert files[j] == files[1..][j - 1];
            }
          }
          assert FirstHolder(files, sid, k + 1);
        }
      }
      r
  }

  /**
   * What `get_project_path_for_session(sid)` returns: the decoding of the
   * project directory of the first file holding the session, even when that
   * decoding fails; nothing without a projects directory or such a file.
   */
  function ProjectPathForSession(store: Option<ProjectsDir>, sid: string, isDir: string -> bool): (r: Option<string>)
    ensures r.Some? ==> isDir(r.value)
    ensures store.None? ==> r.None?
    ensures store.Some? && (forall f :: f in store.value.files ==> !HoldsSession(f, sid)) ==> r.None?
    ensures store.Some? ==> forall k :: FirstHolder(store.value.files, sid, k) ==>
              r == ProjectPath.Decode(store.value.files[k].project, isDir)
  {
    match store
    case None => None
    case Some(d) =>
      match ProjectOfSession(d.files, sid)
      case None => None
      case Some(project) =>
        assert forall k :: FirstHolder(d.files, sid, k) ==> d.files[k].project == project by {
          var k0 :| FirstHolder(d.files, sid, k0) && d.files[k0].project == project;
          forall k | FirstHolder(d.files, sid, k) ensures d.files[k].project == project {
            FirstHolderUnique(d.files, sid, k0, k);
          }
        }
        ProjectPath.Decode(project, isDir)
  }
}
