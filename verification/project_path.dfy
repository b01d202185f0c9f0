/**
 * Decoding a project directory name back into a filesystem path
 * (`decode_project_path`, bridge.py:751-792).
 *
 * The assistant stores each project's sessions under a directory named after
 * the project's absolute path with every `/` replaced by `-`
 * (`/Users/foo/my-app` becomes `-Users-foo-my-app`). A `-` inside a directory
 * name is indistinguishable from a separator, so the bridge asks the
 * filesystem: first the all-slashes reading, then a greedy rebuild that takes,
 * at each step, the longest run of hyphen-joined pieces naming an existing
 * directory. Directory existence is the parameter `isDir`, as in the source.
 */
module ProjectPath {
  import opened Wrappers
  import opened Text

  /** The path tried when the run `parts[i..j]` is read as one directory name. */
  function Candidate(current: string, parts: seq<string>, i: nat, j: nat): string
    requires i <= j <= |parts|
  {
    current + "/" + Join('-', parts[i..j])
  }

  /**
   * The inner `for j in range(len(parts), i, -1)` loop: the largest `j <= hi`
   * whose candidate exists, or None.
   */
  function LongestRun(isDir: string -> bool, current: string, parts: seq<string>, i: nat, hi: nat): (r: Option<nat>)
    requires i <= hi <= |parts|
    ensures r.Some? ==> i < r.value <= hi && isDir(Candidate(current, parts, i, r.value))
    ensures r.Some? ==> forall j :: r.value < j <= hi ==> !isDir(Candidate(current, parts, i, j))
    ensures r.None? ==> forall j :: i < j <= hi ==> !isDir(Candidate(current, parts, i, j))
    decreases hi
  {
    if hi == i then None
    else if isDir(Candidate(current, parts, i, hi)) then Some(hi)
    else LongestRun(isDir, current, parts, i, hi - 1)
  }

  /**
   * The outer `while i < len(parts)` loop from state (`current`, `i`): take the
   * longest existing run, or else the single piece `parts[i]`.
   */
  function Greedy(isDir: string -> bool, parts: seq<string>, current: string, i: nat): (r: string)
    requires i <= |parts|
    decreases |parts| - i
  {
    if i == |parts| then current
    else match LongestRun(isDir, current, parts, i, |parts|)
      case Some(j) => Greedy(isDir, parts, Candidate(current, parts, i, j), j)
      case None => Greedy(isDir, parts, current + "/" + parts[i], i + 1)
  }

  /** The walk only ever appends to the path it has built, and each remaining piece adds something. */
  lemma {:induction false} GreedyExtends(isDir: string -> bool, parts: seq<string>, current: string, i: nat)
    requires i <= |parts|
    ensures current <= Greedy(isDir, parts, current, i)
    ensures i < |parts| ==> |Greedy(isDir, parts, current, i)| > |current|
    decreases |parts| - i
  {
    if i < |parts| {
      var next, j := current + "/" + parts[i], i + 1;
      if LongestRun(isDir, current, parts, i, |parts|).Some? {
        j := LongestRun(isDir, current, parts, i, |parts|).value;
        next := Candidate(current, parts, i, j);
      }
      GreedyExtends(isDir, parts, next, j);
      assert current <= next;
    }
  }

  /** The fast-path reading: leading hyphens dropped, every other hyphen a separator. */
  function SimplePath(encoded: string): string {
    "/" + Replace(LStripChar(encoded, '-'), '-', '/')
  }

  /** What `decode_project_path(encoded, isDir)` returns. */
  function Decode(encoded: string, isDir: string -> bool): (r: Option<string>)
    ensures r.Some? ==> isDir(r.value)
    ensures isDir(SimplePath(encoded)) ==> r == Some(SimplePath(encoded))
  {
    if isDir(SimplePath(encoded)) then Some(SimplePath(encoded))
    else
      var current := Greedy(isDir, Split(LStripChar(encoded, '-'), '-'), "", 0);
      if isDir(current) then Some(current) else None
  }

  /** The inner loop of the source: try runs from the longest down, stop at the first that exists. */
  method FindRun(isDir: string -> bool, current: string, parts: seq<string>, i: nat) returns (r: Option<nat>)
    requires i < |parts|
    ensures r == LongestRun(isDir, current, parts, i, |parts|)
  {
    var j := |parts|;
    while j > i
      invariant i <= j <= |parts|
      invariant LongestRun(isDir, current, parts, i, |parts|) == LongestRun(isDir, current, parts, i, j)
      decreases j
    {
      var candidate := current + "/" + Join('-', parts[i..j]);
      if isDir(candidate) {
        return Some(j);
      }
      j := j - 1;
    }
    return None;
  }

  /** The loop of the source, proved to compute `Decode`. */
  method DecodeProjectPath(encoded: string, isDir: string -> bool) returns (r: Option<string>)
    ensures r == Decode(encoded, isDir)
    ensures r.Some? ==> isDir(r.value)
  {
    var name := LStripChar(encoded, '-');
    var simple := "/" + Replace(name, '-', '/');
    if isDir(simple) {
      return Some(simple);
    }
    var parts := Split(name, '-');
    // `if not parts: return None` in the source never fires: split never returns an empty list.
    assert |parts| > 0;
    var current := "";
    var i := 0;
    while i < |parts|
      invariant i <= |parts|
      invariant Greedy(isDir, parts, current, i) == Greedy(isDir, parts, "", 0)
      decreases |parts| - i
    {
      ghost var i0 := i;
      var run := FindRun(isDir, current, parts, i);
      if run.Some? {
        current := current + "/" + Join('-', parts[i..run.value]);
        i := run.value;
      } else {
        current := current + "/" + parts[i];
        i := i + 1;
      }
      assert i > i0;
    }
    if isDir(current) {
      r := Some(current);
    } else {
      r := None;
    }
  }

  // ---------------------------------------------------------------------
  // What the decoded path says about the encoded name

  /** Turning the separators of a candidate back into hyphens. */
  lemma CandidateImage(current: string, piece: string)
    requires '/' !in piece
    ensures Replace(current + "/" + piece, '/', '-') == Replace(current, '/', '-') + "-" + piece
  {
    ReplaceAppend(current, "/", '/', '-');
    ReplaceAppend(current + "/", piece, '/', '-');
    assert Replace(piece, '/', '-') == piece;
  }

  /** Reading a run of pieces as one directory name adds its pieces, hyphen-joined, to the image. */
  lemma RunImage(current: string, run: seq<string>, rest: seq<string>)
    requires run != [] && NoneContain(run, '/')
    ensures Replace(current + "/" + Join('-', run), '/', '-') + Prefixed('-', rest)
            == Replace(current, '/', '-') + Prefixed('-', run + rest)
  {
    JoinNoChar('-', run, '/');
    CandidateImage(current, Join('-', run));
    PrefixedAppend('-', run, rest);
    PrefixedIsJoin('-', run);
  }

  /** One step of the walk that reads a run of pieces as a single directory name. */
  lemma RunStepImage(parts: seq<string>, current: string, i: nat, j: nat)
    requires i < j <= |parts| && NoneContain(parts, '/')
    ensures Replace(Candidate(current, parts, i, j), '/', '-') + Prefixed('-', parts[j..])
            == Replace(current, '/', '-') + Prefixed('-', parts[i..])
  {
    assert parts[i..] == parts[i..j] + parts[j..];
    RunImage(current, parts[i..j], parts[j..]);
  }

  /** One step of the walk that takes a single piece as a directory name. */
  lemma PieceStepImage(parts: seq<string>, current: string, i: nat)
    requires i < |parts| && NoneContain(parts, '/')
    ensures Replace(current + "/" + parts[i], '/', '-') + Prefixed('-', parts[i + 1..])
            == Replace(current, '/', '-') + Prefixed('-', parts[i..])
  {
    assert parts[i..] == [parts[i]] + parts[i + 1..];
    assert Join('-', [parts[i]]) == parts[i];
    RunImage(current, [parts[i]], parts[i + 1..]);
  }

  lemma {:induction false} GreedyImage(isDir: string -> bool, parts: seq<string>, current: string, i: nat)
    requires i <= |parts| && NoneContain(parts, '/')
    ensures Replace(Greedy(isDir, parts, current, i), '/', '-') == Replace(current, '/', '-') + Prefixed('-', parts[i..])
    decreases |parts| - i
  {
    if i == |parts| {
      assert parts[i..] == [];
    } else {
      match LongestRun(isDir, current, parts, i, |parts|)
      case Some(j) =>
        GreedyImage(isDir, parts, Candidate(current, parts, i, j), j);
        RunStepImage(parts, current, i, j);
      case None =>
        GreedyImage(isDir, parts, current + "/" + parts[i], i + 1);
        PieceStepImage(parts, current, i);
    }
  }

  /**
   * For a name without `/`, turning every `/` of the decoded path back into
   * `-` gives `-` followed by the name with its leading hyphens stripped:
   * decoding only ever reinterprets hyphens.
   */
  lemma DecodeDashImage(encoded: string, isDir: string -> bool)
    requires '/' !in encoded
    ensures Decode(encoded, isDir).Some? ==>
              Replace(Decode(encoded, isDir).value, '/', '-') == "-" + LStripChar(encoded, '-')
  {
    var name := LStripChar(encoded, '-');
    assert '/' !in name;
    if isDir(SimplePath(encoded)) {
      SimplePathImage(name);
    } else {
      GreedyRootImage(isDir, name);
    }
  }

  /** The fast-path reading turns back into the name behind one hyphen. */
  lemma SimplePathImage(name: string)
    requires '/' !in name
    ensures Replace("/" + Replace(name, '-', '/'), '/', '-') == "-" + name
  {
    var t := Replace(name, '-', '/');
    ReplaceAppend("/", t, '/', '-');
    assert Replace("/", '/', '-') == "-";
    var u := Replace(t, '/', '-');
    assert |u| == |name|;
    forall i | 0 <= i < |u| ensures u[i] == name[i] {
      assert name[i] != '/';
    }
  }

  /** The greedy rebuild from the root turns back into the name behind one hyphen. */
  lemma GreedyRootImage(isDir: string -> bool, name: string)
    requires '/' !in name
    ensures Replace(Greedy(isDir, Split(name, '-'), "", 0), '/', '-') == "-" + name
  {
    var parts := Split(name, '-');
    SplitNoChar(name, '-', '/');
    GreedyImage(isDir, parts, "", 0);
    assert parts[0..] == parts;
    PrefixedIsJoin('-', parts);
    JoinSplit(name, '-');
    assert Replace("", '/', '-') == "";
  }


  // ---------------------------------------------------------------------
  // Round trip on reconstructible paths

  /** The absolute path whose directory names are `comps`. */
  function PathOf(comps: seq<string>): string {
    Prefixed('/', comps)
  }

  /** The assistant's encoding of a path: every `/` becomes `-`. */
  function Encode(path: string): string {
    Replace(path, '/', '-')
  }

  /** The hyphen-separated pieces of each directory name, in order. */
  function Pieces(comps: seq<string>): seq<string> {
    if comps == [] then [] else Pieces(comps[..|comps| - 1]) + Split(comps[|comps| - 1], '-')
  }

  /**
   * The paths on which greedy decoding is exact: non-empty directory names
   * without `/`, the first not starting with `-`; the path itself exists;
   * every ancestor whose last name contains `-` exists; when some name
   * contains `-`, the all-slashes reading of the encoded name does not exist;
   * and from no ancestor does a candidate that runs past the next name's
   * pieces exist. These are exactly the probes that would be taken instead of
   * the path: a shorter reading beside an ancestor (`/u/my-app` next to
   * `/u/my-app-v2`) and every directory the decoder never probes are
   * unconstrained.
   */
  ghost predicate Reconstructible(comps: seq<string>, isDir: string -> bool) {
    && |comps| >= 1
    && (forall k :: 0 <= k < |comps| ==> comps[k] != [] && '/' !in comps[k])
    && comps[0][0] != '-'
    && isDir(PathOf(comps))
    && (forall k :: 0 <= k < |comps| && '-' in comps[k] ==> isDir(PathOf(comps[..k + 1])))
    && (!NoneContain(comps, '-') ==> !isDir(SimplePath(Encode(PathOf(comps)))))
    && (forall m, j :: 0 <= m < |comps| && |Pieces(comps[..m])| <= |Pieces(comps[..m + 1])| < j <= |Pieces(comps)| ==>
          !isDir(Candidate(PathOf(comps[..m]), Pieces(comps), |Pieces(comps[..m])|, j)))
  }

  lemma {:induction false} PiecesAppend(a: seq<string>, b: seq<string>)
    ensures Pieces(a + b) == Pieces(a) + Pieces(b)
    decreases |b|
  {
    if b == [] {
      assert a + b == a;
    } else {
      var q, b', last := a + b, b[..|b| - 1], b[|b| - 1];
      assert q[..|q| - 1] == a + b';
      assert q[|q| - 1] == last;
      PiecesAppend(a, b');
      assert Pieces(q) == Pieces(a + b') + Split(last, '-');
      assert Pieces(b) == Pieces(b') + Split(last, '-');
      assert Pieces(a) + Pieces(b') + Split(last, '-') == Pieces(a) + (Pieces(b') + Split(last, '-'));
    }
  }


  lemma {:induction false} SplitJoinPieces(comps: seq<string>)
    requires comps != []
    ensures Split(Join('-', comps), '-') == Pieces(comps)
    decreases |comps|
  {
    var init := comps[..|comps| - 1];
    if |comps| == 1 {
      assert init == [];
    } else {
      SplitJoinPieces(init);
      SplitConcat(Join('-', init), comps[|comps| - 1], '-');
    }
  }


  /** Where the pieces of directory name `k` sit among all the pieces. */
  lemma PiecesOfComponent(comps: seq<string>, k: nat)
    requires k < |comps|
    ensures |Pieces(comps[..k + 1])| == |Pieces(comps[..k])| + |Split(comps[k], '-')|
    ensures |Pieces(comps[..k + 1])| <= |Pieces(comps)|
    ensures Pieces(comps)[|Pieces(comps[..k])|..|Pieces(comps[..k + 1])|] == Split(comps[k], '-')
  {
    var c := comps[k];
    assert comps[..k + 1] == comps[..k] + [c];
    PiecesAppend(comps[..k], [c]);
    assert [c][..0] == [];
    assert Pieces([c]) == Split(c, '-');
    assert comps == comps[..k + 1] + comps[k + 1..];
    PiecesAppend(comps[..k + 1], comps[k + 1..]);
  }


  /** The path of the first `k + 1` names extends that of the first `k`. */
  lemma PathOfStep(comps: seq<string>, k: nat)
    requires k < |comps|
    ensures PathOf(comps[..k + 1]) == PathOf(comps[..k]) + "/" + comps[k]
  {
    assert comps[..k + 1] == comps[..k] + [comps[k]];
    PrefixedAppend('/', comps[..k], [comps[k]]);
    assert [comps[k]][..0] == [];
  }


  /** The next ancestor is the candidate that takes the next component's pieces as one name. */
  lemma NextAncestorCandidate(comps: seq<string>, k: nat)
    requires k < |comps|
    ensures |Pieces(comps[..k])| <= |Pieces(comps[..k + 1])| <= |Pieces(comps)|
    ensures Candidate(PathOf(comps[..k]), Pieces(comps), |Pieces(comps[..k])|, |Pieces(comps[..k + 1])|)
            == PathOf(comps[..k + 1])
    ensures '-' !in comps[k] ==>
              |Pieces(comps[..k + 1])| == |Pieces(comps[..k])| + 1
              && Pieces(comps)[|Pieces(comps[..k])|] == comps[k]
  {
    PiecesOfComponent(comps, k);
    JoinSplit(comps[k], '-');
    PathOfStep(comps, k);
    if '-' !in comps[k] {
      SplitNoSep(comps[k], '-');
    }
  }


  /**
   * What a reconstructible path says about the probes from ancestor `k`: the
   * next ancestor exists when its name holds `-`, and no longer run does.
   */
  lemma AncestorProbes(comps: seq<string>, isDir: string -> bool, k: nat)
    requires Reconstructible(comps, isDir) && k < |comps|
    ensures |Pieces(comps[..k])| < |Pieces(comps[..k + 1])| <= |Pieces(comps)|
    ensures '-' in comps[k] ==>
              isDir(Candidate(PathOf(comps[..k]), Pieces(comps), |Pieces(comps[..k])|, |Pieces(comps[..k + 1])|))
    ensures forall j :: |Pieces(comps[..k + 1])| < j <= |Pieces(comps)| ==>
              !isDir(Candidate(PathOf(comps[..k]), Pieces(comps), |Pieces(comps[..k])|, j))
  {
    NextAncestorCandidate(comps, k);
    PiecesOfComponent(comps, k);
  }

  /** A run `e` that exists, with no longer run existing, is the longest; a single piece with no longer run leaves at most itself. */
  lemma RunIs(isDir: string -> bool, current: string, parts: seq<string>, i: nat, e: nat)
    requires i < e <= |parts|
    requires forall j :: e < j <= |parts| ==> !isDir(Candidate(current, parts, i, j))
    ensures isDir(Candidate(current, parts, i, e)) ==> LongestRun(isDir, current, parts, i, |parts|) == Some(e)
    ensures e == i + 1 ==> LongestRun(isDir, current, parts, i, |parts|) in {None, Some(e)}
  {
  }

  /**
   * From an ancestor, the longest existing run is the next component's pieces,
   * or there is none and that component is a single piece.
   */
  lemma NextRun(comps: seq<string>, isDir: string -> bool, k: nat)
    requires Reconstructible(comps, isDir) && k < |comps|
    ensures |Pieces(comps[..k])| < |Pieces(comps[..k + 1])| <= |Pieces(comps)|
    ensures var run := LongestRun(isDir, PathOf(comps[..k]), Pieces(comps), |Pieces(comps[..k])|, |Pieces(comps)|);
            run == Some(|Pieces(comps[..k + 1])|) || (run.None? && '-' !in comps[k])
  {
    NextAncestorCandidate(comps, k);
    AncestorProbes(comps, isDir, k);
    RunIs(isDir, PathOf(comps[..k]), Pieces(comps), |Pieces(comps[..k])|, |Pieces(comps[..k + 1])|);
  }

  /** One step of the greedy loop moves to `next` when the run it finds, or the single piece it falls back on, leads there. */
  lemma GreedyStep(isDir: string -> bool, parts: seq<string>, current: string, i: nat, e: nat, next: string)
    requires i < e <= |parts| && Candidate(current, parts, i, e) == next
    requires var run := LongestRun(isDir, current, parts, i, |parts|);
             run == Some(e) || (run.None? && e == i + 1 && next == current + "/" + parts[i])
    ensures Greedy(isDir, parts, current, i) == Greedy(isDir, parts, next, e)
  {
  }

  /** From an ancestor, one step of the greedy loop reaches the next ancestor. */
  lemma GreedyNextAncestor(comps: seq<string>, isDir: string -> bool, k: nat)
    requires Reconstructible(comps, isDir) && k < |comps|
    ensures |Pieces(comps[..k])| < |Pieces(comps[..k + 1])| <= |Pieces(comps)|
    ensures Greedy(isDir, Pieces(comps), PathOf(comps[..k]), |Pieces(comps[..k])|)
            == Greedy(isDir, Pieces(comps), PathOf(comps[..k + 1]), |Pieces(comps[..k + 1])|)
  {
    NextAncestorCandidate(comps, k);
    PiecesOfComponent(comps, k);
    NextRun(comps, isDir, k);
    var parts, i, e := Pieces(comps), |Pieces(comps[..k])|, |Pieces(comps[..k + 1])|;
    if '-' !in comps[k] {
      assert PathOf(comps[..k + 1]) == PathOf(comps[..k]) + "/" + parts[i] by {
        PathOfStep(comps, k);
      }
    }
    GreedyStep(isDir, parts, PathOf(comps[..k]), i, e, PathOf(comps[..k + 1]));
  }

  lemma {:induction false} GreedyRebuilds(comps: seq<string>, isDir: string -> bool, k: nat)
    requires Reconstructible(comps, isDir) && k <= |comps|
    ensures |Pieces(comps[..k])| <= |Pieces(comps)|
    ensures Greedy(isDir, Pieces(comps), PathOf(comps[..k]), |Pieces(comps[..k])|) == PathOf(comps)
    decreases |comps| - k
  {
    if k == |comps| {
      assert comps[..k] == comps;
    } else {
      GreedyNextAncestor(comps, isDir, k);
      GreedyRebuilds(comps, isDir, k + 1);
    }
  }

  /** The encoded name of a path, with its leading hyphen stripped, joins the names with `-`. */
  lemma EncodedName(comps: seq<string>)
    requires comps != [] && NoneContain(comps, '/') && comps[0] != [] && comps[0][0] != '-'
    ensures LStripChar(Encode(PathOf(comps)), '-') == Join('-', comps)
  {
    ReplacePrefixed(comps, '/', '-');
    PrefixedIsJoin('-', comps);
    var name := Join('-', comps);
    assert Encode(PathOf(comps)) == "-" + name;
    JoinHead('-', comps);
    assert name[0] == comps[0][0];
    var r := LStripChar("-" + name, '-');
    assert |r| == |name| by {
      if |r| != |name| {
        assert false;
      }
    }
  }

  /** The all-slashes reading of a path's encoded name is the path exactly when no directory name contains `-`. */
  lemma SimplePathIsPath(comps: seq<string>)
    requires comps != [] && NoneContain(comps, '/') && comps[0] != [] && comps[0][0] != '-'
    ensures SimplePath(Encode(PathOf(comps))) == PathOf(comps) <==> NoneContain(comps, '-')
  {
    var simple := SimplePath(Encode(PathOf(comps)));
    EncodedName(comps);
    var slashed := Replace(Join('-', comps), '-', '/');
    assert simple == "/" + slashed;
    if NoneContain(comps, '-') {
      ReplaceJoin(comps, '-', '/');
      PrefixedIsJoin('/', comps);
    } else {
      var k :| 0 <= k < |comps| && '-' in comps[k];
      HyphenInPath(comps, k);
      forall i | 0 <= i < |simple| ensures simple[i] != '-' {
        if i > 0 {
          assert simple[i] == slashed[i - 1];
        }
      }
    }
  }

  /** A hyphen in one directory name is a hyphen in the path. */
  lemma HyphenInPath(comps: seq<string>, k: nat)
    requires k < |comps| && '-' in comps[k]
    ensures '-' in PathOf(comps)
  {
    var t :| 0 <= t < |comps[k]| && comps[k][t] == '-';
    var upto := PathOf(comps[..k]) + "/" + comps[k];
    PathOfStep(comps, k);
    assert comps == comps[..k + 1] + comps[k + 1..];
    PrefixedAppend('/', comps[..k + 1], comps[k + 1..]);
    assert PathOf(comps) == upto + Prefixed('/', comps[k + 1..]);
    assert PathOf(comps)[|PathOf(comps[..k])| + 1 + t] == '-';
  }

  /** On a reconstructible path the all-slashes reading exists only if it is the path itself. */
  lemma FastPathExact(comps: seq<string>, isDir: string -> bool)
    requires Reconstructible(comps, isDir)
    ensures isDir(SimplePath(Encode(PathOf(comps)))) ==> SimplePath(Encode(PathOf(comps))) == PathOf(comps)
  {
    assert NoneContain(comps, '/');
    SimplePathIsPath(comps);
  }



  /**
   * Decoding inverts encoding on every reconstructible path: for example
   * `-Users-foo-AIM-aim-skills` decodes to `/Users/foo/AIM/aim-skills` when
   * `/Users/foo`, `/Users/foo/AIM` and `/Users/foo/AIM/aim-skills` exist.
   */
  lemma DecodeRoundTrip(comps: seq<string>, isDir: string -> bool)
    requires Reconstructible(comps, isDir)
    ensures Decode(Encode(PathOf(comps)), isDir) == Some(PathOf(comps))
  {
    FastPathExact(comps, isDir);
    if !isDir(SimplePath(Encode(PathOf(comps)))) {
      GreedyFromRoot(comps, isDir);
    }
  }

  /** The greedy rebuild from the root, on the pieces of a reconstructible path's encoded name. */
  lemma GreedyFromRoot(comps: seq<string>, isDir: string -> bool)
    requires Reconstructible(comps, isDir)
    ensures Greedy(isDir, Split(LStripChar(Encode(PathOf(comps)), '-'), '-'), "", 0) == PathOf(comps)
  {
    assert NoneContain(comps, '/');
    EncodedName(comps);
    SplitJoinPieces(comps);
    GreedyRebuilds(comps, isDir, 0);
    assert comps[..0] == [];
    assert comps[..|comps|] == comps;
  }
}
