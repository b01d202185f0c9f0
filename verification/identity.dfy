/**
 * Which session the tmux pane is running (`get_current_session_id`,
 * bridge.py:807-846, with `filter_window_title`, bridge.py:122-126, and
 * `tmux_get_title`, bridge.py:346-352).
 *
 * Three sources are weighed: the tmux window title, the marker file
 * `~/.claude/current_session_id`, and the stem of the most recently
 * modified session file.
 */
module Identity {
  import opened Wrappers
  import opened Text
  import opened SessionStore

  /** `GENERIC_WINDOW_NAMES`: titles that name no session. */
  const GenericWindowNames: set<string> := {"bash", "zsh", "sh", "python", ""}

  /** Python truthiness of `str | None`: present and non-empty. */
  predicate Truthy(s: Option<string>) {
    s.Some? && s.value != ""
  }

  /** `filter_window_title`: the title when it names a session, else None. */
  function FilterWindowTitle(title: string): (r: Option<string>)
    ensures r.Some? <==> title !in GenericWindowNames
    ensures r.Some? ==> r.value == title && Truthy(r)
  {
    if title != "" && title !in GenericWindowNames then Some(title) else None
  }

  /**
   * `tmux_get_title`: the window name (None when tmux fails), stripped and
   * filtered.
   */
  function TitleSid(windowName: Option<string>): Option<string> {
    match windowName
    case None => None
    case Some(w) => FilterWindowTitle(Strip(w))
  }

  /**
   * A title names a session exactly when tmux answered and the stripped
   * name is not generic, and the session it names is already stripped.
   */
  lemma TitleSidClean(windowName: Option<string>)
    ensures TitleSid(windowName).None? <==> windowName.None? || Strip(windowName.value) in GenericWindowNames
    ensures TitleSid(windowName).Some? ==>
              TitleSid(windowName).value !in GenericWindowNames && Strip(TitleSid(windowName).value) == TitleSid(windowName).value
  {
    if windowName.Some? {
      StripIdempotent(windowName.value);
    }
  }

  /** The marker file's content, stripped (None when the file is missing or unreadable). */
  function MarkerSid(content: Option<string>): Option<string> {
    match content
    case None => None
    case Some(c) => Some(Strip(c))
  }

  /** The marker yields an id exactly when the file was read, and that id is already stripped. */
  lemma MarkerSidClean(content: Option<string>)
    ensures MarkerSid(content).Some? <==> content.Some?
    ensures MarkerSid(content).Some? ==> Strip(MarkerSid(content).value) == MarkerSid(content).value
  {
    if content.Some? {
      StripIdempotent(content.value);
    }
  }

  /**
   * Where `max(files, key=mtime)` finds its answer: the first position
   * holding the greatest modification time.
   */
  function NewestIndex(files: seq<SessionFile>): (k: nat)
    requires files != []
    ensures k < |files|
    ensures forall j :: 0 <= j < |files| ==> files[j].mtime <= files[k].mtime
    ensures forall j :: 0 <= j < k ==> files[j].mtime < files[k].mtime
  {
    if |files| == 1 then 0
    else
      var rest := files[1..];
      var k := NewestIndex(rest);
      assert forall j :: 1 <= j < |files| ==> files[j] == rest[j - 1];
      if files[0].mtime >= rest[k].mtime then 0 else k + 1
  }

  /** `max(files, key=mtime)`: the first file with the greatest modification time. */
  function Newest(files: seq<SessionFile>): (r: SessionFile)
    requires files != []
    ensures r in files
    ensures forall f :: f in files ==> f.mtime <= r.mtime
  {
    files[NewestIndex(files)]
  }

  /** The files the two-level session pattern matches: those inside a project directory. */
  function Globbed(files: seq<SessionFile>): (r: seq<SessionFile>)
    ensures forall f :: f in r <==> f in files && InProjectDir(f)
  {
    if files == [] then []
    else
      var init := Globbed(files[..|files| - 1]);
      var f := files[|files| - 1];
      assert files == files[..|files| - 1] + [f];
      if InProjectDir(f) then init + [f] else init
  }

  /** `f` is a globbed file and no globbed file is newer. */
  ghost predicate NewestOf(files: seq<SessionFile>, f: SessionFile) {
    f in files && InProjectDir(f) && forall g :: g in files && InProjectDir(g) ==> g.mtime <= f.mtime
  }

  /**
   * The stem of the newest session file, over every file (valid or not),
   * or None when the projects directory or the files are missing.
   */
  function RecentSid(store: Option<ProjectsDir>): (r: Option<string>)
    ensures r.Some? ==> store.Some? && exists f :: NewestOf(store.value.files, f) && f.stem == r.value
    ensures r.None? ==> store.None? || forall f :: f in store.value.files ==> !InProjectDir(f)
  {
    match store
    case None => None
    case Some(d) =>
      var all := Globbed(d.files);
      if all == [] then None else Some(Newest(all).stem)
  }

  /**
   * The priority chain: a title that agrees with the marker wins; otherwise
   * the newest file's stem, if any; otherwise the title, then the marker.
   */
  function CurrentSessionId(title: Option<string>, marker: Option<string>, recent: Option<string>): (r: Option<string>)
    ensures Truthy(title) && title == marker ==> r == title
    ensures !(Truthy(title) && title == marker) && Truthy(recent) ==> r == recent
    ensures !(Truthy(title) && title == marker) && !Truthy(recent) ==> r == if Truthy(title) then title else marker
    ensures r == title || r == marker || r == recent
  {
    if Truthy(title) && title == marker then title
    else if Truthy(title) && title == recent then title
    else if Truthy(marker) && marker == recent then marker
    else if Truthy(recent) then recent
    else if Truthy(title) then title
    else marker
  }

  /**
   * Once the window is named after a session and the marker holds it, the
   * resolver answers that session whatever the newest file is.
   */
  lemma AgreementWins(sid: string, recent: Option<string>)
    requires Strip(sid) == sid && sid !in GenericWindowNames
    ensures CurrentSessionId(TitleSid(Some(sid)), MarkerSid(Some(sid)), recent) == Some(sid)
  {
  }
}
