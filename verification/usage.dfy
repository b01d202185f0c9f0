/**
 * The token-usage report (`scan_token_usage`, bridge.py:464-586) and the cost
 * estimate (`_model_cost_key`, `_estimate_cost`, bridge.py:601-623).
 *
 * The clock and the local calendar are parameters: `now` in seconds and the
 * four `YYYY-MM-DD` day strings the source computes from `datetime.now()`.
 * Days are compared as strings, in Python's code-point order (`LexLe`).
 */
module Usage {
  import opened Wrappers
  import opened Text
  import opened Listing
  import opened Dicts
  import opened SessionStore

  /** Today, yesterday, and the days 7 and 30 days ago, as `YYYY-MM-DD`. */
  datatype DayBounds = DayBounds(today: string, yesterday: string, day7: string, day30: string)

  datatype Tokens = Tokens(input: nat, output: nat)
  /** The `totals` entry: the windows `today`, `yesterday`, `7d` and `30d`. */
  datatype Totals = Totals(today: Tokens, yesterday: Tokens, week: Tokens, month: Tokens)
  datatype Cache = Cache(read: nat, creation: nat)

  /** The dictionary `scan_token_usage` returns when the projects directory exists. */
  datatype Report = Report(
    totals: Totals,
    byModel: Dict<Tokens>, byModel7d: Dict<Tokens>, byModel30d: Dict<Tokens>,
    byProject: Dict<nat>, bySession: Dict<nat>, sessionProject: Dict<string>,
    cacheToday: Cache)

  const NoTokens := Tokens(0, 0)
  const EmptyReport := Report(Totals(NoTokens, NoTokens, NoTokens, NoTokens), [], [], [], [], [], [], Cache(0, 0))
  const Synthetic := "<synthetic>"

  function Add(t: Tokens, u: TokenUsage): Tokens {
    Tokens(t.input + u.input, t.output + u.output)
  }

  /** `if model not in d: d[model] = {0, 0}`, then add the message's tokens. */
  function AddModel(d: Dict<Tokens>, model: string, u: TokenUsage): Dict<Tokens> {
    Put(d, model, Add(GetOr(d, model, NoTokens), u))
  }

  /** `d[k] = d.get(k, 0) + n`. */
  function AddCount(d: Dict<nat>, k: string, n: nat): Dict<nat> {
    Put<nat>(d, k, GetOr<nat>(d, k, 0) + n)
  }

  /** Whether the scan counts a line: an assistant message with usage, a real model and a timestamp. */
  predicate Counted(line: LogLine) {
    && line.Entry?
    && line.entryType == "assistant"
    && line.usage.Some?
    && line.model != Synthetic
    && line.timestamp != ""
  }

  /** The 30-day window: `if day >= day30_str`. */
  function CountMonth(r: Report, model: string, u: TokenUsage, day: string, b: DayBounds): Report {
    if LexLe(b.day30, day) then
      r.(totals := r.totals.(month := Add(r.totals.month, u)), byModel30d := AddModel(r.byModel30d, model, u))
    else r
  }

  /** The 7-day window: `if day >= day7_str`. */
  function CountWeek(r: Report, model: string, u: TokenUsage, day: string, b: DayBounds): Report {
    if LexLe(b.day7, day) then
      r.(totals := r.totals.(week := Add(r.totals.week, u)), byModel7d := AddModel(r.byModel7d, model, u))
    else r
  }

  function CountYesterday(r: Report, u: TokenUsage, day: string, b: DayBounds): Report {
    if day == b.yesterday then r.(totals := r.totals.(yesterday := Add(r.totals.yesterday, u))) else r
  }

  /** Today: totals, the per-model, per-project and per-session tables, and the cache counts. */
  function CountToday(r: Report, f: SessionFile, model: string, u: TokenUsage, day: string, b: DayBounds): Report {
    if day == b.today then
      var total := u.input + u.output;
      r.(totals := r.totals.(today := Add(r.totals.today, u)),
         byModel := AddModel(r.byModel, model, u),
         byProject := AddCount(r.byProject, f.project, total),
         bySession := AddCount(r.bySession, f.stem, total),
         sessionProject := Put(r.sessionProject, f.stem, f.project),
         cacheToday := Cache(r.cacheToday.read + u.cacheRead, r.cacheToday.creation + u.cacheCreation))
    else r
  }

  /** The effect of one line of file `f` on the report. */
  function Step(r: Report, f: SessionFile, line: LogLine, b: DayBounds): Report {
    if !Counted(line) then r
    else
      var u, model, day := line.usage.value, line.model, Prefix(line.timestamp, 10);
      CountToday(CountYesterday(CountWeek(CountMonth(r, model, u, day, b), model, u, day, b), u, day, b), f, model, u, day, b)
  }

  /** The lines of one file, folded from the first to the last. */
  function ScanLines(r: Report, f: SessionFile, lines: seq<LogLine>, b: DayBounds): Report {
    if lines == [] then r
    else Step(ScanLines(r, f, lines[..|lines| - 1], b), f, lines[|lines| - 1], b)
  }

  /** `now - (days + 1) * 86400`: one day of slack for the time zone. */
  function Cutoff(now: real, days: int): real {
    now - (days + 1) as real * SecondsPerDay
  }

  /** A file the scan reads: it sits in a project directory and is not older than the cutoff. */
  predicate Scanned(f: SessionFile, cutoff: real) {
    InProjectDir(f) && !(f.mtime < cutoff)
  }

  /** The files, folded in listing order. */
  function ScanFiles(r: Report, files: seq<SessionFile>, cutoff: real, b: DayBounds): Report {
    if files == [] then r
    else
      var prior := ScanFiles(r, files[..|files| - 1], cutoff, b);
      var f := files[|files| - 1];
      if Scanned(f, cutoff) then ScanLines(prior, f, f.lines, b) else prior
  }

  /** What `scan_token_usage(days)` returns; None for the empty result of a missing projects directory. */
  function ScanTokenUsageSpec(store: Option<ProjectsDir>, now: real, days: int, b: DayBounds): Option<Report> {
    match store
    case None => None
    case Some(d) => Some(ScanFiles(EmptyReport, d.files, Cutoff(now, days), b))
  }

  /** The outer loop of the source: every scanned file, in listing order. */
  method ScanTokenUsage(store: Option<ProjectsDir>, now: real, days: int, b: DayBounds) returns (result: Option<Report>)
    ensures result == ScanTokenUsageSpec(store, now, days, b)
  {
    if store.None? {
      return None;
    }
    var files := store.value.files;
    var cutoff := now - (days + 1) as real * SecondsPerDay;
    var r := EmptyReport;
    var i := 0;
    while i < |files|
      invariant i <= |files|
      invariant r == ScanFiles(EmptyReport, files[..i], cutoff, b)
    {
      var f := files[i];
      assert files[..i + 1][..i] == files[..i];
      if InProjectDir(f) && !(f.mtime < cutoff) {
        r := ScanFile(r, f, b);
      }
      i := i + 1;
    }
    assert files[..|files|] == files;
    return Some(r);
  }

  /** The inner loop of the source: the lines of one file, updating the report's tables in place. */
  method ScanFile(r0: Report, f: SessionFile, b: DayBounds) returns (r: Report)
    ensures r == ScanLines(r0, f, f.lines, b)
  {
    r := r0;
    var j := 0;
    while j < |f.lines|
      invariant j <= |f.lines|
      invariant r == ScanLines(r0, f, f.lines[..j], b)
    {
      var line := f.lines[j];
      assert f.lines[..j + 1][..j] == f.lines[..j];
      r := CountLine(r, f, line, b);
      j := j + 1;
    }
    assert f.lines[..|f.lines|] == f.lines;
  }

  /** The body of the inner loop: the checks that skip a line, then the four windows. */
  method CountLine(r0: Report, f: SessionFile, line: LogLine, b: DayBounds) returns (r: Report)
    ensures r == Step(r0, f, line, b)
  {
    r := r0;
    if !line.Entry? || line.entryType != "assistant" || line.usage.None? || line.model == Synthetic {
      return;
    }
    if line.timestamp == "" {
      return;
    }
    r := CountWindows(r0, f, line.model, line.usage.value, Prefix(line.timestamp, 10), b);
  }

  /** The four window updates for an accepted line of `model` dated `day`. */
  method CountWindows(r0: Report, f: SessionFile, model: string, u: TokenUsage, day: string, b: DayBounds) returns (r: Report)
    ensures r == CountToday(CountYesterday(CountWeek(CountMonth(r0, model, u, day, b), model, u, day, b), u, day, b), f, model, u, day, b)
  {
    r := r0;
    var total := u.input + u.output;
    if LexLe(b.day30, day) {
      r := r.(totals := r.totals.(month := Add(r.totals.month, u)), byModel30d := AddModel(r.byModel30d, model, u));
    }
    if LexLe(b.day7, day) {
      r := r.(totals := r.totals.(week := Add(r.totals.week, u)), byModel7d := AddModel(r.byModel7d, model, u));
    }
    if day == b.yesterday {
      r := r.(totals := r.totals.(yesterday := Add(r.totals.yesterday, u)));
    }
    if day == b.today {
      r := r.(totals := r.totals.(today := Add(r.totals.today, u)),
              byModel := AddModel(r.byModel, model, u),
              byProject := AddCount(r.byProject, f.project, total),
              bySession := AddCount(r.bySession, f.stem, total),
              sessionProject := Put(r.sessionProject, f.stem, f.project),
              cacheToday := Cache(r.cacheToday.read + u.cacheRead, r.cacheToday.creation + u.cacheCreation));
    }
  }

  // ---------------------------------------------------------------------
  // What the report guarantees

  function Amount(n: nat): nat {
    n
  }

  function InputOf(t: Tokens): nat {
    t.input
  }

  function OutputOf(t: Tokens): nat {
    t.output
  }

  /**
   * The per-project and per-session totals each add up to today's input plus
   * output, and the per-model table for today adds up to today's input and
   * output.
   */
  predicate Balanced(r: Report) {
    && SumBy(r.byProject, Amount) == r.totals.today.input + r.totals.today.output
    && SumBy(r.bySession, Amount) == r.totals.today.input + r.totals.today.output
    && SumBy(r.byModel, InputOf) == r.totals.today.input
    && SumBy(r.byModel, OutputOf) == r.totals.today.output
  }

  /** No per-model table has a `<synthetic>` row. */
  predicate NoSynthetic(r: Report) {
    Synthetic !in Keys(r.byModel) && Synthetic !in Keys(r.byModel7d) && Synthetic !in Keys(r.byModel30d)
  }

  /** Today's totals are within the week's, and the week's within the month's. */
  predicate Nested(r: Report) {
    && r.totals.today.input <= r.totals.week.input <= r.totals.month.input
    && r.totals.today.output <= r.totals.week.output <= r.totals.month.output
  }

  /** The day strings are ordered: the 30-day bound, then the 7-day bound, then today. */
  predicate OrderedBounds(b: DayBounds) {
    LexLe(b.day30, b.day7) && LexLe(b.day7, b.today)
  }

  predicate Sound(r: Report, b: DayBounds) {
    Balanced(r) && NoSynthetic(r) && (OrderedBounds(b) ==> Nested(r))
  }

  lemma AddCountSum(d: Dict<nat>, k: string, n: nat)
    ensures SumBy(AddCount(d, k, n), Amount) == SumBy(d, Amount) + n
  {
    SumByPut<nat>(d, k, GetOr<nat>(d, k, 0) + n, Amount);
  }

  lemma AddModelSums(d: Dict<Tokens>, model: string, u: TokenUsage)
    ensures SumBy(AddModel(d, model, u), InputOf) == SumBy(d, InputOf) + u.input
    ensures SumBy(AddModel(d, model, u), OutputOf) == SumBy(d, OutputOf) + u.output
  {
    var v := Add(GetOr(d, model, NoTokens), u);
    SumByPut(d, model, v, InputOf);
    SumByPut(d, model, v, OutputOf);
  }

  lemma CountTodayBalanced(r: Report, f: SessionFile, model: string, u: TokenUsage, day: string, b: DayBounds)
    requires Balanced(r)
    ensures Balanced(CountToday(r, f, model, u, day, b))
  {
    if day == b.today {
      var t := CountToday(r, f, model, u, day, b);
      assert t.totals.today == Add(r.totals.today, u);
      assert t.byModel == AddModel(r.byModel, model, u);
      assert t.byProject == AddCount(r.byProject, f.project, u.input + u.output);
      assert t.bySession == AddCount(r.bySession, f.stem, u.input + u.output);
      AddModelSums(r.byModel, model, u);
      AddCountSum(r.byProject, f.project, u.input + u.output);
      AddCountSum(r.bySession, f.stem, u.input + u.output);
      assert SumBy(t.byProject, Amount) == t.totals.today.input + t.totals.today.output;
      assert SumBy(t.bySession, Amount) == t.totals.today.input + t.totals.today.output;
      assert SumBy(t.byModel, InputOf) == t.totals.today.input;
      assert SumBy(t.byModel, OutputOf) == t.totals.today.output;
    } else {
      assert CountToday(r, f, model, u, day, b) == r;
    }
  }

  lemma StepBalanced(r: Report, f: SessionFile, line: LogLine, b: DayBounds)
    requires Balanced(r)
    ensures Balanced(Step(r, f, line, b))
  {
    if Counted(line) {
      var u, model, day := line.usage.value, line.model, Prefix(line.timestamp, 10);
      var r1 := CountMonth(r, model, u, day, b);
      var r2 := CountWeek(r1, model, u, day, b);
      var r3 := CountYesterday(r2, u, day, b);
      assert r3.totals.today == r.totals.today && r3.byModel == r.byModel;
      assert r3.byProject == r.byProject && r3.bySession == r.bySession;
      CountTodayBalanced(r3, f, model, u, day, b);
    }
  }

  /** Counting a real model's tokens in any window adds no `<synthetic>` row. */
  lemma AddModelNoSynthetic(d: Dict<Tokens>, model: string, u: TokenUsage)
    requires model != Synthetic && Synthetic !in Keys(d)
    ensures Synthetic !in Keys(AddModel(d, model, u))
  {
    PutKeys(d, model, Add(GetOr(d, model, NoTokens), u));
  }

  lemma StepNoSynthetic(r: Report, f: SessionFile, line: LogLine, b: DayBounds)
    requires NoSynthetic(r)
    ensures NoSynthetic(Step(r, f, line, b))
  {
    if Counted(line) {
      var u, model, day := line.usage.value, line.model, Prefix(line.timestamp, 10);
      var r1 := CountMonth(r, model, u, day, b);
      var r2 := CountWeek(r1, model, u, day, b);
      var r3 := CountYesterday(r2, u, day, b);
      AddModelNoSynthetic(r.byModel30d, model, u);
      assert NoSynthetic(r1);
      AddModelNoSynthetic(r1.byModel7d, model, u);
      assert NoSynthetic(r2);
      assert NoSynthetic(r3);
      AddModelNoSynthetic(r3.byModel, model, u);
    }
  }


  lemma StepNested(r: Report, f: SessionFile, line: LogLine, b: DayBounds)
    requires OrderedBounds(b) && Nested(r)
    ensures Nested(Step(r, f, line, b))
  {
    if Counted(line) {
      var u, model, day := line.usage.value, line.model, Prefix(line.timestamp, 10);
      if LexLe(b.day7, day) {
        LexLeTrans(b.day30, b.day7, day);
      }
      if day == b.today {
        assert LexLe(b.day7, day);
      }
    }
  }

  lemma StepSound(r: Report, f: SessionFile, line: LogLine, b: DayBounds)
    requires Sound(r, b)
    ensures Sound(Step(r, f, line, b), b)
  {
    StepBalanced(r, f, line, b);
    StepNoSynthetic(r, f, line, b);
    if OrderedBounds(b) {
      StepNested(r, f, line, b);
    }
  }

  lemma {:induction false} ScanLinesSound(r: Report, f: SessionFile, lines: seq<LogLine>, b: DayBounds)
    requires Sound(r, b)
    ensures Sound(ScanLines(r, f, lines, b), b)
    decreases |lines|
  {
    if lines != [] {
      ScanLinesSound(r, f, lines[..|lines| - 1], b);
      StepSound(ScanLines(r, f, lines[..|lines| - 1], b), f, lines[|lines| - 1], b);
    }
  }

  lemma {:induction false} ScanFilesSound(r: Report, files: seq<SessionFile>, cutoff: real, b: DayBounds)
    requires Sound(r, b)
    ensures Sound(ScanFiles(r, files, cutoff, b), b)
    decreases |files|
  {
    if files != [] {
      var prior := ScanFiles(r, files[..|files| - 1], cutoff, b);
      ScanFilesSound(r, files[..|files| - 1], cutoff, b);
      ScanLinesSound(prior, files[|files| - 1], files[|files| - 1].lines, b);
    }
  }

  /**
   * In every report: sum(by_project) = sum(by_session) = today's input +
   * output; the by-model table sums to today's input and output; no
   * by-model table lists `<synthetic>`; and when the day strings are
   * ordered, today's totals are within 7 days', and those within 30 days'.
   */
  lemma ReportSound(store: Option<ProjectsDir>, now: real, days: int, b: DayBounds)
    ensures ScanTokenUsageSpec(store, now, days, b).Some? ==> Sound(ScanTokenUsageSpec(store, now, days, b).value, b)
  {
    if store.Some? {
      ScanFilesSound(EmptyReport, store.value.files, Cutoff(now, days), b);
    }
  }

  /** The files the scan reads. */
  function FreshFiles(files: seq<SessionFile>, cutoff: real): seq<SessionFile> {
    if files == [] then []
    else
      var init := FreshFiles(files[..|files| - 1], cutoff);
      if Scanned(files[|files| - 1], cutoff) then init + [files[|files| - 1]] else init
  }

  /** Files outside the project directories or older than the cutoff contribute nothing. */
  lemma {:induction false} StaleFilesIgnored(r: Report, files: seq<SessionFile>, cutoff: real, b: DayBounds)
    ensures ScanFiles(r, files, cutoff, b) == ScanFiles(r, FreshFiles(files, cutoff), cutoff, b)
    decreases |files|
  {
    if files != [] {
      var init, f := files[..|files| - 1], files[|files| - 1];
      StaleFilesIgnored(r, init, cutoff, b);
      if Scanned(f, cutoff) {
        var kept := FreshFiles(init, cutoff) + [f];
        assert kept[..|kept| - 1] == FreshFiles(init, cutoff);
      }
    }
  }

  /** The lines the scan counts. */
  function CountedLines(lines: seq<LogLine>): seq<LogLine> {
    if lines == [] then []
    else
      var init := CountedLines(lines[..|lines| - 1]);
      if Counted(lines[|lines| - 1]) then init + [lines[|lines| - 1]] else init
  }

  /**
   * Lines that are not assistant messages, carry no usage, come from the
   * `<synthetic>` model or have no timestamp change nothing.
   */
  lemma {:induction false} UncountedLinesIgnored(r: Report, f: SessionFile, lines: seq<LogLine>, b: DayBounds)
    ensures ScanLines(r, f, lines, b) == ScanLines(r, f, CountedLines(lines), b)
    decreases |lines|
  {
    if lines != [] {
      var init, line := lines[..|lines| - 1], lines[|lines| - 1];
      UncountedLinesIgnored(r, f, init, b);
      if Counted(line) {
        var kept := CountedLines(init) + [line];
        assert kept[..|kept| - 1] == CountedLines(init);
      }
    }
  }

  // ---------------------------------------------------------------------
  // Cost estimate

  /** `MODEL_SHORT_NAMES`. */
  const ModelShortNames: map<string, string> := map[
    "claude-opus-4-6" := "Opus 4.6",
    "claude-opus-4-5-20250514" := "Opus 4.5",
    "claude-sonnet-4-5-20250929" := "Sonnet 4.5",
    "claude-sonnet-4-5-20250514" := "Sonnet 4.5",
    "claude-haiku-4-5-20251001" := "Haiku 4.5",
    "claude-sonnet-4-20250514" := "Sonnet 4"
  ]

  const ClaudePrefix := "claude-"

  predicate HasDateSuffix(s: string) {
    |s| >= 9 && s[|s| - 9] == '-' && AllDigits(s[|s| - 8..])
  }

  /** `re.sub(r"-\d{8}$", "", s)`. */
  function StripDateSuffix(s: string): (r: string)
    ensures HasDateSuffix(s) ==> s == r + "-" + s[|s| - 8..]
    ensures !HasDateSuffix(s) ==> r == s
  {
    if HasDateSuffix(s) then s[..|s| - 9] else s
  }

  /**
   * `shorten_model_name` before its final `.title()`: a model outside the
   * table comes out no longer than its id and without hyphens.
   */
  function ShortenBase(model: string): (r: string)
    ensures model !in ModelShortNames ==> '-' !in r && |r| <= |model|
  {
    if model in ModelShortNames then ModelShortNames[model]
    else
      var name := if ClaudePrefix <= model then model[|ClaudePrefix|..] else model;
      Replace(StripDateSuffix(name), '-', ' ')
  }

  /** A model id outside the table loses its `claude-` prefix and its date, and its hyphens become spaces. */
  lemma ShortenStripsPrefixAndDate(name: string, date: string)
    requires |date| == 8 && AllDigits(date)
    requires ClaudePrefix + name + "-" + date !in ModelShortNames
    ensures ShortenBase(ClaudePrefix + name + "-" + date) == Replace(name, '-', ' ')
  {
    var model := ClaudePrefix + name + "-" + date;
    assert ClaudePrefix <= model;
    var rest := model[|ClaudePrefix|..];
    assert rest == name + "-" + date;
    assert rest[|rest| - 8..] == date;
    assert HasDateSuffix(rest);
    assert rest[..|rest| - 9] == name;
  }

  function AsciiLower(s: string): (r: string)
    ensures |r| == |s|
  {
    seq(|s|, i requires 0 <= i < |s| => if 'A' <= s[i] <= 'Z' then (s[i] as int + 32) as char else s[i])
  }

  /** `_model_cost_key`: the first of opus, sonnet, haiku found in the lower-cased short name. */
  function CostKey(model: string): (k: string)
    ensures var short := AsciiLower(ShortenBase(model));
      && (k == "opus" <==> Contains(short, "opus"))
      && (k == "sonnet" <==> !Contains(short, "opus") && Contains(short, "sonnet"))
      && (k == "haiku" <==> !Contains(short, "opus") && !Contains(short, "sonnet") && Contains(short, "haiku"))
      && (k == "" <==> !Contains(short, "opus") && !Contains(short, "sonnet") && !Contains(short, "haiku"))
  {
    var short := AsciiLower(ShortenBase(model));
    if Contains(short, "opus") then "opus"
    else if Contains(short, "sonnet") then "sonnet"
    else if Contains(short, "haiku") then "haiku"
    else ""
  }

  /** `MODEL_COSTS`: dollars per million input and output tokens. */
  function Rates(key: string): (real, real) {
    if key == "opus" then (15.0, 75.0)
    else if key == "sonnet" then (3.0, 15.0)
    else (0.25, 1.25)
  }

  /** `_estimate_cost`: zero for an unknown model, else the family's two rates applied per million tokens. */
  function EstimateCost(model: string, inputTokens: int, outputTokens: int): (c: real)
    ensures CostKey(model) == "" ==> c == 0.0
    ensures CostKey(model) == "opus" ==> c == (inputTokens as real * 15.0 + outputTokens as real * 75.0) / 1000000.0
    ensures CostKey(model) == "sonnet" ==> c == (inputTokens as real * 3.0 + outputTokens as real * 15.0) / 1000000.0
    ensures CostKey(model) == "haiku" ==> c == (inputTokens as real * 0.25 + outputTokens as real * 1.25) / 1000000.0
    ensures inputTokens >= 0 && outputTokens >= 0 ==>
              0.0 <= c <= (inputTokens + outputTokens) as real * 75.0 / 1000000.0
  {
    var key := CostKey(model);
    if key == "" then 0.0
    else
      var (inRate, outRate) := Rates(key);
      (inputTokens as real * inRate + outputTokens as real * outRate) / 1000000.0
  }

  /** The estimate is linear in the token counts. */
  lemma EstimateCostAdditive(model: string, in1: int, out1: int, in2: int, out2: int)
    ensures EstimateCost(model, in1 + in2, out1 + out2) == EstimateCost(model, in1, out1) + EstimateCost(model, in2, out2)
  {
  }

  /** The estimate of a model naming no known family is zero, whatever the counts. */
  lemma EstimateCostUnknown(model: string, inputTokens: int, outputTokens: int)
    requires !Contains(AsciiLower(ShortenBase(model)), "opus")
    requires !Contains(AsciiLower(ShortenBase(model)), "sonnet")
    requires !Contains(AsciiLower(ShortenBase(model)), "haiku")
    ensures EstimateCost(model, inputTokens, outputTokens) == 0.0
  {
  }

  /** The words a short name holds decide its family, whatever the model id. */
  lemma PricedBy(model: string, short: string)
    requires AsciiLower(ShortenBase(model)) == short
    ensures !Contains(short, "opus") && Contains(short, "sonnet") ==> CostKey(model) == "sonnet"
    ensures !Contains(short, "opus") && !Contains(short, "sonnet") && Contains(short, "haiku") ==> CostKey(model) == "haiku"
  {
  }

  lemma SonnetWords(short: string)
    requires short == "sonnet 4.5" || short == "sonnet 5"
    ensures !Contains(short, "opus") && Contains(short, "sonnet")
  {
    MissingCharNotContains(short, "opus", 1);
    assert "sonnet" <= short;
  }

  lemma HaikuWords(short: string)
    requires short == "haiku 4.5"
    ensures !Contains(short, "opus") && !Contains(short, "sonnet") && Contains(short, "haiku")
  {
    MissingCharNotContains(short, "opus", 1);
    MissingCharNotContains(short, "sonnet", 2);
    assert "haiku" <= short;
  }

  /** The table's Sonnet 4.5 id is priced as Sonnet. */
  lemma CostKeySonnetExample()
    ensures CostKey("claude-sonnet-4-5-20250929") == "sonnet"
  {
    var short := AsciiLower(ShortenBase("claude-sonnet-4-5-20250929"));
    assert short == "sonnet 4.5";
    SonnetWords(short);
    PricedBy("claude-sonnet-4-5-20250929", short);
  }

  /** The table's Haiku 4.5 id is priced as Haiku. */
  lemma CostKeyHaikuExample()
    ensures CostKey("claude-haiku-4-5-20251001") == "haiku"
  {
    var short := AsciiLower(ShortenBase("claude-haiku-4-5-20251001"));
    assert short == "haiku 4.5";
    HaikuWords(short);
    PricedBy("claude-haiku-4-5-20251001", short);
  }

  /** `claude-sonnet-5-20260101` is not a key of the table. */
  lemma UnlistedId(model: string)
    requires model == "claude-sonnet-5-20260101"
    ensures model !in ModelShortNames
  {
    assert |model| == 24 && model[7] == 's' && model[14] == '5';
  }

  /** `claude-sonnet-5-20260101` is outside the table; it loses prefix and date and becomes `sonnet 5`. */
  lemma UnlistedShortName(model: string)
    requires model == "claude-sonnet-5-20260101"
    ensures ShortenBase(model) == "sonnet 5"
  {
    UnlistedId(model);
    var rest := model[|ClaudePrefix|..];
    assert ClaudePrefix <= model && rest == "sonnet-5-20260101";
    assert HasDateSuffix(rest) by {
      assert rest[8] == '-' && rest[9..] == "20260101";
    }
    assert StripDateSuffix(rest) == "sonnet-5";
    assert Replace("sonnet-5", '-', ' ') == "sonnet 5";
  }

  /** A dated Sonnet id outside the table is shortened to `sonnet 5` and priced as Sonnet. */
  lemma CostKeyUnlistedExample()
    ensures CostKey("claude-sonnet-5-20260101") == "sonnet"
  {
    var model := "claude-sonnet-5-20260101";
    UnlistedShortName(model);
    var short := AsciiLower(ShortenBase(model));
    assert short == "sonnet 5";
    SonnetWords(short);
    PricedBy(model, short);
  }

  /**
   * The three families priced on a million input and a hundred thousand
   * output tokens: Opus 4.6 costs 22.5 dollars, Sonnet 4.5 costs 4.5 and
   * Haiku 4.5 costs 0.375; a dated id outside the table is priced by the
   * family its shortened name contains.
   */
  lemma EstimateCostExamples()
    ensures EstimateCost("claude-opus-4-6", 1000000, 100000) == 22.5
    ensures EstimateCost("claude-sonnet-4-5-20250929", 1000000, 100000) == 4.5
    ensures EstimateCost("claude-haiku-4-5-20251001", 1000000, 100000) == 0.375
    ensures EstimateCost("claude-sonnet-5-20260101", 1000000, 100000) == 4.5
  {
    assert "opus" <= AsciiLower(ShortenBase("claude-opus-4-6"));
    CostKeySonnetExample();
    CostKeyHaikuExample();
    CostKeyUnlistedExample();
  }
}
