/**
 * What the bridge reads from and types into the tmux pane: the shell-prompt
 * detector (`is_shell_prompt`, bridge.py:108-119) and the keystroke plans
 * of `tmux_exit_claude`, `tmux_cd_and_start`, `tmux_switch_session`,
 * `tmux_new_session` (bridge.py:275-338) and the new-in-project callback
 * (bridge.py:1013-1022). The pane's answer to "is it at a shell prompt?"
 * is a parameter, since it depends on what the pane shows at that moment.
 */
module Pane {
  import opened Wrappers
  import opened Text
  import opened Identity

  // ---------------------------------------------------------------------
  // Shell-prompt detection

  /**
   * The lines of `s`, broken at every line-boundary character. Python's
   * `splitlines` treats `\r\n` as one boundary and drops a trailing empty
   * line; both differences only add blank lines, which the detector skips.
   */
  function Lines(s: string): (r: seq<string>)
    ensures |r| >= 1
  {
    if s == [] then [[]]
    else
      var init := Lines(s[..|s| - 1]);
      var c := s[|s| - 1];
      if IsLineBreak(c) then init + [[]]
      else init[..|init| - 1] + [init[|init| - 1] + [c]]
  }

  /** Appending a character to the text: a new empty line, or the last line grows by it. */
  function AddChar(lines: seq<string>, x: char): seq<string>
    requires |lines| >= 1
  {
    if IsLineBreak(x) then lines + [[]] else lines[..|lines| - 1] + [lines[|lines| - 1] + [x]]
  }

  lemma LinesSnoc(s: string, x: char)
    ensures Lines(s + [x]) == AddChar(Lines(s), x)
  {
    assert (s + [x])[..|s|] == s;
  }

  /** Breaking at a line boundary splits the lines there. */
  lemma {:induction false} LinesConcat(a: string, c: char, b: string)
    requires IsLineBreak(c)
    ensures Lines(a + [c] + b) == Lines(a) + Lines(b)
    decreases |b|
  {
    if b == [] {
      LinesSnoc(a, c);
      assert a + [c] + b == a + [c];
    } else {
      var b' := b[..|b| - 1];
      var x := b[|b| - 1];
      var pre := a + [c] + b';
      assert a + [c] + b == pre + [x];
      assert b == b' + [x];
      LinesSnoc(pre, x);
      LinesSnoc(b', x);
      LinesConcat(a, c, b');
      AddCharAppend(Lines(a), Lines(b'), x);
    }
  }

  lemma AddCharAppend(xs: seq<string>, ys: seq<string>, x: char)
    requires |ys| >= 1
    ensures AddChar(xs + ys, x) == xs + AddChar(ys, x)
  {
    if !IsLineBreak(x) {
      assert (xs + ys)[..|xs + ys| - 1] == xs + ys[..|ys| - 1];
    }
  }

  /** Line `k` is not blank and every later line is. */
  predicate LastNonBlankAt(lines: seq<string>, k: int) {
    0 <= k < |lines| && !IsBlank(lines[k]) && forall j :: k < j < |lines| ==> IsBlank(lines[j])
  }

  /** There is at most one last non-blank line. */
  lemma LastNonBlankUnique(lines: seq<string>, k: int, k': int)
    requires LastNonBlankAt(lines, k) && LastNonBlankAt(lines, k')
    ensures k == k'
  {
  }

  /** The index of the last non-blank line, or -1 when every line is blank. */
  function LastNonBlank(lines: seq<string>): (k: int)
    ensures k == -1 || LastNonBlankAt(lines, k)
    ensures k == -1 <==> forall j :: 0 <= j < |lines| ==> IsBlank(lines[j])
  {
    if lines == [] then -1
    else if !IsBlank(lines[|lines| - 1]) then |lines| - 1
    else
      var init := lines[..|lines| - 1];
      assert forall j :: 0 <= j < |init| ==> init[j] == lines[j];
      LastNonBlank(init)
  }

  /** Later lines that are not all blank decide alone. */
  lemma LastNonBlankAppend(xs: seq<string>, ys: seq<string>)
    requires LastNonBlank(ys) != -1
    ensures LastNonBlank(xs + ys) == |xs| + LastNonBlank(ys)
  {
    var k := LastNonBlank(ys);
    var s := xs + ys;
    assert s[|xs| + k] == ys[k];
    assert forall j :: |xs| + k < j < |s| ==> s[j] == ys[j - |xs|];
    assert LastNonBlankAt(s, |xs| + k);
    LastNonBlankUnique(s, LastNonBlank(s), |xs| + k);
  }

  /** A prompt line: ends in `$`, `%` or `#`, or shows the `❯` or `➜` glyph. */
  predicate PromptLine(line: string) {
    || (line != [] && (line[|line| - 1] == '$' || line[|line| - 1] == '%' || line[|line| - 1] == '#'))
    || '\U{276F}' in line || '\U{279C}' in line
  }

  /** Lines the prompt check accepts and refuses: `$`, `%` and `#` endings and the two arrows, but not Claude's own output. */
  lemma PromptLineExamples()
    ensures PromptLine("user@host $") && PromptLine("~ %") && PromptLine("root #")
    ensures PromptLine("\U{276F}") && PromptLine("\U{279C} project")
    ensures !PromptLine("Claude is thinking...")
  {
    assert "\U{279C} project"[0] == '\U{279C}';
    var claude := "Claude is thinking...";
    assert claude[|claude| - 1] == '.';
    assert forall i :: 0 <= i < |claude| ==> claude[i] < '\U{276F}';
  }

  /** The pane shows a shell prompt: its last non-blank line, stripped, is a prompt line. */
  predicate ShellPrompt(content: string) {
    var lines := Lines(content);
    var k := LastNonBlank(lines);
    k != -1 && PromptLine(Strip(lines[k]))
  }

  /** Every line from `i` on is blank. */
  predicate BlankFrom(lines: seq<string>, i: int) {
    forall j :: 0 <= i <= j < |lines| ==> IsBlank(lines[j])
  }

  /** A non-blank line below which every line is blank decides the answer. */
  lemma ScanFinds(content: string, i: int)
    requires 0 < i <= |Lines(content)| && !IsBlank(Lines(content)[i - 1])
    requires BlankFrom(Lines(content), i)
    ensures ShellPrompt(content) == PromptLine(Strip(Lines(content)[i - 1]))
  {
    var lines := Lines(content);
    assert LastNonBlankAt(lines, i - 1);
    LastNonBlankUnique(lines, LastNonBlank(lines), i - 1);
  }

  /** With every line blank there is no prompt. */
  lemma ScanNone(content: string)
    requires BlankFrom(Lines(content), 0)
    ensures !ShellPrompt(content)
  {
    assert LastNonBlank(Lines(content)) == -1;
  }

  /** `is_shell_prompt`: scans the lines from the last one back, skipping blank lines. */
  method IsShellPrompt(content: string) returns (b: bool)
    ensures b == ShellPrompt(content)
  {
    var lines := Lines(content);
    var i := |lines|;
    while i > 0
      invariant 0 <= i <= |lines|
      invariant BlankFrom(lines, i)
      decreases i
    {
      var line := Strip(lines[i - 1]);
      StripEmptyIffBlank(lines[i - 1]);
      if line != [] {
        ScanFinds(content, i);
        return PromptLine(line);
      }
      i := i - 1;
    }
    ScanNone(content);
    return false;
  }

  /** Empty or all-blank content is never a prompt. */
  lemma BlankIsNoPrompt(content: string)
    requires IsBlank(content)
    ensures !ShellPrompt(content)
  {
    var lines := Lines(content);
    forall j | 0 <= j < |lines|
      ensures IsBlank(lines[j])
    {
      LinesBlank(content, j);
    }
  }

  lemma {:induction false} LinesBlank(s: string, j: int)
    requires IsBlank(s) && 0 <= j < |Lines(s)|
    ensures IsBlank(Lines(s)[j])
    decreases |s|
  {
    if s != [] {
      var init := Lines(s[..|s| - 1]);
      if j < |init| {
        LinesBlank(s[..|s| - 1], j);
      }
      if !IsLineBreak(s[|s| - 1]) && j == |init| - 1 {
        LinesBlank(s[..|s| - 1], j);
      }
    }
  }

  /** Text that is not all whitespace has a line that is not blank. */
  lemma {:induction false} NonBlankLine(s: string) returns (j: int)
    requires !IsBlank(s)
    ensures 0 <= j < |Lines(s)| && !IsBlank(Lines(s)[j])
    decreases |s|
  {
    var init := Lines(s[..|s| - 1]);
    var c := s[|s| - 1];
    if !IsSpace(c) {
      assert !IsLineBreak(c);
      j := |init| - 1;
      var l := Lines(s)[j];
      assert l == init[|init| - 1] + [c];
      assert l[|l| - 1] == c;
    } else {
      assert !IsBlank(s[..|s| - 1]) by {
        var i :| 0 <= i < |s| && !IsSpace(s[i]);
        assert s[..|s| - 1][i] == s[i];
      }
      j := NonBlankLine(s[..|s| - 1]);
      if !IsLineBreak(c) && j == |init| - 1 {
        var l := Lines(s)[j];
        assert l == init[j] + [c];
        var i :| 0 <= i < |init[j]| && !IsSpace(init[j][i]);
        assert l[i] == init[j][i];
      } else {
        assert Lines(s)[j] == init[j];
      }
    }
  }

  /** Lines above the last non-blank line never change the answer. */
  lemma EarlierLinesIrrelevant(above: string, c: char, below: string)
    requires IsLineBreak(c) && !IsBlank(below)
    ensures ShellPrompt(above + [c] + below) == ShellPrompt(below)
  {
    LastLineKept(above, c, below);
  }

  /** The last non-blank line of the whole content is that of the part below the break. */
  lemma LastLineKept(above: string, c: char, below: string)
    requires IsLineBreak(c) && !IsBlank(below)
    ensures var xs, ys := Lines(above + [c] + below), Lines(below);
      && LastNonBlank(ys) != -1 && LastNonBlank(xs) != -1
      && xs[LastNonBlank(xs)] == ys[LastNonBlank(ys)]
  {
    LinesConcat(above, c, below);
    var j := NonBlankLine(below);
    assert LastNonBlank(Lines(below)) != -1 by {
      assert !IsBlank(Lines(below)[j]);
    }
    LastLineOfAppend(Lines(above), Lines(below));
  }

  /** Lines put in front do not change the last non-blank line. */
  lemma LastLineOfAppend(zs: seq<string>, ys: seq<string>)
    requires LastNonBlank(ys) != -1
    ensures LastNonBlank(zs + ys) != -1 && (zs + ys)[LastNonBlank(zs + ys)] == ys[LastNonBlank(ys)]
  {
    LastNonBlankAppend(zs, ys);
    assert (zs + ys)[|zs| + LastNonBlank(ys)] == ys[LastNonBlank(ys)];
  }

  // ---------------------------------------------------------------------
  // Keystroke plans

  /** One `send-keys` to the pane: literal text, or a named key such as `Enter`. */
  datatype PaneCmd = Literal(text: string) | Key(name: string)

  /** `tmux_send_line`: the text, then Enter. */
  function Line(text: string): seq<PaneCmd> {
    [Literal(text), Key("Enter")]
  }

  const StartClaude: string := "claude --dangerously-skip-permissions"

  function ResumeClaude(sid: string): string {
    "claude --resume " + sid + " --dangerously-skip-permissions"
  }

  /** A `cd` line. */
  predicate IsCd(c: PaneCmd) {
    c.Literal? && |c.text| >= 3 && c.text[0] == 'c' && c.text[1] == 'd' && c.text[2] == ' '
  }

  /** The only directory `cmds` changes to is `path`. */
  predicate CdOnlyTo(cmds: seq<PaneCmd>, path: string) {
    forall c :: c in cmds && IsCd(c) ==> c == Literal("cd " + ShellQuote(path))
  }

  predicate NoCd(cmds: seq<PaneCmd>) {
    forall c :: c in cmds ==> !IsCd(c)
  }

  /** `tmux_exit_claude`: Escape and `/exit`; when the pane is not back at a shell, Escape and `exit`. */
  function ExitClaude(atShell: bool): (r: seq<PaneCmd>)
    ensures |r| == (if atShell then 3 else 6)
    ensures r[..3] == [Key("Escape")] + Line("/exit")
    ensures !atShell ==> r[3..] == [Key("Escape")] + Line("exit")
    ensures NoCd(r)
  {
    [Key("Escape")] + Line("/exit") + (if atShell then [] else [Key("Escape")] + Line("exit"))
  }

  /** `tmux_cd_and_start`: change to the quoted directory, then start Claude, resuming the session if one is given. */
  function CdAndStart(path: string, resume: Option<string>): (r: seq<PaneCmd>)
    ensures |r| == 4 && r[0] == Literal("cd " + ShellQuote(path))
    ensures r[2..] == Line(if Truthy(resume) then ResumeClaude(resume.value) else StartClaude)
    ensures CdOnlyTo(r, path)
  {
    var start := if Truthy(resume) then ResumeClaude(resume.value) else StartClaude;
    assert start[1] == 'l';
    Line("cd " + ShellQuote(path)) + Line(start)
  }

  /**
   * The switch needs a restart elsewhere: both the session's project path
   * and the pane's directory are known and resolve to different places.
   */
  predicate NeedsCd(target: Option<string>, cwd: Option<string>, realpath: string -> string) {
    Truthy(target) && Truthy(cwd) && realpath(target.value) != realpath(cwd.value)
  }

  /**
   * `tmux_switch_session`: across projects, exit Claude and restart it in
   * the session's directory; otherwise try `/resume` inside Claude, and if
   * that left the pane at a shell, start Claude again resuming the session.
   * `atShell` is the one prompt check the chosen path makes.
   */
  function SwitchSession(sid: string, target: Option<string>, cwd: Option<string>, realpath: string -> string, atShell: bool): (r: seq<PaneCmd>)
    ensures |r| >= 3
    ensures r[..3] == [Key("Escape")] + Line(if NeedsCd(target, cwd, realpath) then "/exit" else "/resume " + sid)
  {
    if NeedsCd(target, cwd, realpath) then
      ExitClaude(atShell) + CdAndStart(target.value, Some(sid))
    else
      [Key("Escape")] + Line("/resume " + sid) +
      (if !atShell then []
       else if Truthy(target) then CdAndStart(target.value, Some(sid))
       else Line(ResumeClaude(sid)))
  }

  /**
   * Every switch ends by resuming the session: with Claude restarted on it,
   * or, when no restart was needed and Claude is still running, with its
   * own `/resume`.
   */
  lemma SwitchResumes(sid: string, target: Option<string>, cwd: Option<string>, realpath: string -> string, atShell: bool)
    requires sid != ""
    ensures var r := SwitchSession(sid, target, cwd, realpath, atShell);
            r[|r| - 2..] == Line(ResumeClaude(sid)) || (r[|r| - 2..] == Line("/resume " + sid) && !atShell && !NeedsCd(target, cwd, realpath))
  {
    var r := SwitchSession(sid, target, cwd, realpath, atShell);
    if NeedsCd(target, cwd, realpath) {
      var e := ExitClaude(atShell);
      assert r[|r| - 2..] == CdAndStart(target.value, Some(sid))[2..];
    } else if atShell && Truthy(target) {
      assert r[|r| - 2..] == CdAndStart(target.value, Some(sid))[2..];
    }
  }

  /**
   * A switch changes directory only to the session's own project path,
   * and not at all when that path is unknown. A cross-project switch
   * starts by leaving Claude; any other starts with `/resume`.
   */
  lemma SwitchDirectory(sid: string, target: Option<string>, cwd: Option<string>, realpath: string -> string, atShell: bool)
    ensures var r := SwitchSession(sid, target, cwd, realpath, atShell);
            (Truthy(target) ==> CdOnlyTo(r, target.value)) && (!Truthy(target) ==> NoCd(r))
    ensures var r := SwitchSession(sid, target, cwd, realpath, atShell);
            r[..3] == [Key("Escape")] + Line(if NeedsCd(target, cwd, realpath) then "/exit" else "/resume " + sid)
  {
    var r := SwitchSession(sid, target, cwd, realpath, atShell);
    var head := [Key("Escape")] + Line("/resume " + sid);
    assert NoCd(head) by {
      assert ("/resume " + sid)[0] == '/';
    }
    assert NoCd(Line(ResumeClaude(sid))) by {
      assert ResumeClaude(sid)[1] == 'l';
    }
    if NeedsCd(target, cwd, realpath) {
      assert r == ExitClaude(atShell) + CdAndStart(target.value, Some(sid));
      assert r[..3] == ExitClaude(atShell)[..3];
    } else if !atShell {
      assert r == head;
    } else if Truthy(target) {
      assert r == head + CdAndStart(target.value, Some(sid));
    } else {
      assert r == head + Line(ResumeClaude(sid));
    }
  }

  /** `tmux_new_session`: Escape and `/clear`; if that left the pane at a shell, start Claude. */
  function NewSession(atShell: bool): (r: seq<PaneCmd>)
    ensures |r| == (if atShell then 5 else 3)
    ensures r[..3] == [Key("Escape")] + Line("/clear")
    ensures atShell ==> r[3..] == Line(StartClaude)
    ensures NoCd(r)
  {
    [Key("Escape")] + Line("/clear") + (if atShell then Line(StartClaude) else [])
  }

  /**
   * The new-in-project callback: in another directory, exit Claude and
   * start a fresh one there; otherwise start a new session in place.
   */
  function NewInProject(projectPath: Option<string>, cwd: Option<string>, realpath: string -> string, atShell: bool): (r: seq<PaneCmd>)
    ensures |r| >= 3
    ensures r[..3] == [Key("Escape")] + Line(if NeedsCd(projectPath, cwd, realpath) then "/exit" else "/clear")
  {
    if NeedsCd(projectPath, cwd, realpath) then ExitClaude(atShell) + CdAndStart(projectPath.value, None)
    else NewSession(atShell)
  }

  /**
   * A new session in a project ends with a fresh Claude, or with `/clear`
   * while Claude is still running in place; it changes directory only when
   * the pane is elsewhere, and only to the project.
   */
  lemma NewInProjectPlan(projectPath: Option<string>, cwd: Option<string>, realpath: string -> string, atShell: bool)
    ensures var r := NewInProject(projectPath, cwd, realpath, atShell);
            r[|r| - 2..] == Line(StartClaude) || (r[|r| - 2..] == Line("/clear") && !atShell && !NeedsCd(projectPath, cwd, realpath))
    ensures var r := NewInProject(projectPath, cwd, realpath, atShell);
            (NeedsCd(projectPath, cwd, realpath) ==> CdOnlyTo(r, projectPath.value)) && (!NeedsCd(projectPath, cwd, realpath) ==> NoCd(r))
  {
    var r := NewInProject(projectPath, cwd, realpath, atShell);
    if NeedsCd(projectPath, cwd, realpath) {
      var d := CdAndStart(projectPath.value, None);
      assert r == ExitClaude(atShell) + d;
      assert r[|r| - 2..] == d[2..];
    } else {
      var n := NewSession(atShell);
      if atShell {
        assert r[|r| - 2..] == n[3..];
      } else {
        assert r[|r| - 2..] == n[1..3];
      }
    }
  }

  /**
   * The keys for answering a numbered question: Down `idx` times (none for
   * a negative index), then Enter.
   */
  method AnswerKeys(idx: int) returns (keys: seq<PaneCmd>)
    ensures |keys| == (if idx > 0 then idx else 0) + 1
    ensures forall i :: 0 <= i < |keys| - 1 ==> keys[i] == Key("Down")
    ensures keys[|keys| - 1] == Key("Enter")
  {
    keys := [];
    var n := 0;
    while n < idx
      invariant 0 <= n && (idx > 0 ==> n <= idx) && (idx <= 0 ==> n == 0)
      invariant |keys| == n
      invariant forall i :: 0 <= i < n ==> keys[i] == Key("Down")
    {
      keys := keys + [Key("Down")];
      n := n + 1;
    }
    keys := keys + [Key("Enter")];
  }
}
