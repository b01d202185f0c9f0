/**
 * String primitives of the Python runtime that the bridge relies on:
 * whitespace and line boundaries, strip/lstrip, split/join on one character,
 * single-character replace, lexicographic comparison, decimal `str(int)` and
 * `int(str)`, and `shlex.quote`.
 */
module Text {
  import opened Wrappers

  // ---------------------------------------------------------------------
  // Whitespace and line boundaries

  /** The code points for which Python's `str.isspace()` holds. */
  predicate IsSpace(c: char) {
    || c == ' ' || '\t' <= c <= '\r' || '\U{1c}' <= c <= '\U{1f}'
    || c == '\U{85}' || c == '\U{a0}' || c == '\U{1680}' || '\U{2000}' <= c <= '\U{200a}'
    || c == '\U{2028}' || c == '\U{2029}' || c == '\U{202f}' || c == '\U{205f}' || c == '\U{3000}'
  }

  /** The code points at which Python's `str.splitlines()` breaks a line. */
  predicate IsLineBreak(c: char) {
    || '\n' <= c <= '\r' || '\U{1c}' <= c <= '\U{1e}'
    || c == '\U{85}' || c == '\U{2028}' || c == '\U{2029}'
  }

  predicate IsBlank(s: string) {
    forall i :: 0 <= i < |s| ==> IsSpace(s[i])
  }

  /** `s.lstrip()`: drops leading whitespace and nothing else. */
  function LStrip(s: string): (r: string)
    ensures |r| <= |s| && r == s[|s| - |r|..]
    ensures IsBlank(s[..|s| - |r|])
    ensures r != [] ==> !IsSpace(r[0])
  {
    if s != [] && IsSpace(s[0]) then
      var r := LStrip(s[1..]);
      LStripStep(s, r);
      r
    else s
  }

  /** Dropping one more leading space keeps the stripped result a suffix behind whitespace. */
  lemma LStripStep(s: string, r: string)
    requires s != [] && IsSpace(s[0]) && |r| <= |s| - 1
    requires r == s[1..][|s| - 1 - |r|..] && IsBlank(s[1..][..|s| - 1 - |r|])
    ensures r == s[|s| - |r|..] && IsBlank(s[..|s| - |r|])
  {
    var dropped := s[1..][..|s| - 1 - |r|];
    assert s[..|s| - |r|] == [s[0]] + dropped;
    forall i | 0 <= i < |dropped| + 1 ensures IsSpace(([s[0]] + dropped)[i]) {
      if i > 0 {
        assert ([s[0]] + dropped)[i] == dropped[i - 1];
      }
    }
  }

  /** `s.rstrip()`: drops trailing whitespace and nothing else. */
  function RStrip(s: string): (r: string)
    ensures |r| <= |s| && r == s[..|r|]
    ensures IsBlank(s[|r|..])
    ensures r != [] ==> !IsSpace(r[|r| - 1])
  {
    if s != [] && IsSpace(s[|s| - 1]) then
      var r := RStrip(s[..|s| - 1]);
      assert s[|r|..] == s[..|s| - 1][|r|..] + [s[|s| - 1]];
      r
    else s
  }

  /** `s.strip()`: neither starts nor ends with whitespace. */
  function Strip(s: string): (r: string)
    ensures r != [] ==> !IsSpace(r[0]) && !IsSpace(r[|r| - 1])
  {
    var t := LStrip(s);
    var r := RStrip(t);
    assert r != [] ==> r[0] == t[0];
    r
  }

  /** What `strip` removes is a blank head and a blank tail. */
  lemma StripInfix(s: string) returns (i: nat)
    ensures i + |Strip(s)| <= |s| && Strip(s) == s[i..i + |Strip(s)|]
    ensures IsBlank(s[..i]) && IsBlank(s[i + |Strip(s)|..])
  {
    var t := LStrip(s);
    var r := Strip(s);
    i := |s| - |t|;
    assert t == s[i..];
    assert t[|r|..] == s[i + |r|..];
  }

  /** Stripping twice is stripping once. */
  lemma StripIdempotent(s: string)
    ensures Strip(Strip(s)) == Strip(s)
  {
    if Strip(s) != [] {
      StripUnchanged(Strip(s));
    } else {
      assert IsBlank(Strip(s));
      StripEmptyIffBlank(Strip(s));
    }
  }

  /** A string strips to nothing exactly when it is all whitespace. */
  lemma StripEmptyIffBlank(s: string)
    ensures Strip(s) == [] <==> IsBlank(s)
  {
    var l := LStrip(s);
    if Strip(s) == [] {
      assert s == s[..|s| - |l|] + l;
      assert IsBlank(l[0..]);
    }
  }

  /** `s.lstrip(c)` for a single character `c`. */
  function LStripChar(s: string, c: char): (r: string)
    ensures |r| <= |s| && r == s[|s| - |r|..]
    ensures forall i :: 0 <= i < |s| - |r| ==> s[i] == c
    ensures r != [] ==> r[0] != c
  {
    if s != [] && s[0] == c then LStripChar(s[1..], c) else s
  }

  // ---------------------------------------------------------------------
  // Replace, count, split and join on one character

  /** `s.replace(a, b)` for single characters. */
  function Replace(s: string, a: char, b: char): (r: string)
    ensures |r| == |s|
    ensures forall i :: 0 <= i < |s| ==> r[i] == if s[i] == a then b else s[i]
  {
    seq(|s|, i requires 0 <= i < |s| => if s[i] == a then b else s[i])
  }

  lemma ReplaceAppend(x: string, y: string, a: char, b: char)
    ensures Replace(x + y, a, b) == Replace(x, a, b) + Replace(y, a, b)
  {
    var l, r := Replace(x + y, a, b), Replace(x, a, b) + Replace(y, a, b);
    assert |l| == |r|;
    forall i | 0 <= i < |l| ensures l[i] == r[i] {
      if i < |x| {
        assert (x + y)[i] == x[i];
      } else {
        assert (x + y)[i] == y[i - |x|];
      }
    }
  }

  /** No element of `parts` contains `c`. */
  predicate NoneContain(parts: seq<string>, c: char) {
    forall k :: 0 <= k < |parts| ==> c !in parts[k]
  }

  /** `s.split(sep)` with an explicit one-character separator: never empty. */
  function Split(s: string, sep: char): (parts: seq<string>)
    ensures |parts| >= 1
    ensures NoneContain(parts, sep)
  {
    if s == [] then [[]]
    else
      var init := Split(s[..|s| - 1], sep);
      var c := s[|s| - 1];
      if c == sep then init + [[]]
      else init[..|init| - 1] + [init[|init| - 1] + [c]]
  }

  /** `sep.join(parts)`. */
  function Join(sep: char, parts: seq<string>): string {
    if |parts| == 0 then []
    else if |parts| == 1 then parts[0]
    else Join(sep, parts[..|parts| - 1]) + [sep] + parts[|parts| - 1]
  }

  /** Every element preceded by `sep` and concatenated: the shape of an absolute path. */
  function Prefixed(sep: char, parts: seq<string>): string {
    if parts == [] then []
    else Prefixed(sep, parts[..|parts| - 1]) + [sep] + parts[|parts| - 1]
  }

  lemma {:induction false} JoinExtendLast(sep: char, parts: seq<string>, c: char)
    requires |parts| >= 1
    ensures Join(sep, parts[..|parts| - 1] + [parts[|parts| - 1] + [c]]) == Join(sep, parts) + [c]
  {
    var q := parts[..|parts| - 1] + [parts[|parts| - 1] + [c]];
    assert q[..|q| - 1] == parts[..|parts| - 1];
  }

  /** Joining what split produced gives back the original string. */
  lemma {:induction false} JoinSplit(s: string, sep: char)
    ensures Join(sep, Split(s, sep)) == s
    decreases |s|
  {
    if s != [] {
      var s', c := s[..|s| - 1], s[|s| - 1];
      var init := Split(s', sep);
      assert s == s' + [c];
      JoinSplit(s', sep);
      if c == sep {
        var q := init + [[]];
        assert Split(s, sep) == q;
        assert q[..|q| - 1] == init;
        assert Join(sep, q) == Join(sep, init) + [sep] + [];
      } else {
        assert Split(s, sep) == init[..|init| - 1] + [init[|init| - 1] + [c]];
        JoinExtendLast(sep, init, c);
      }
    }
  }

  /** Appending the separator opens a new, empty piece. */
  lemma SplitSnocSep(s: string, sep: char)
    ensures Split(s + [sep], sep) == Split(s, sep) + [[]]
  {
    var x := s + [sep];
    assert x[..|x| - 1] == s;
  }

  /** Appending another character extends the last piece. */
  lemma SplitSnocChar(s: string, c: char, sep: char)
    requires c != sep
    ensures var p := Split(s, sep); Split(s + [c], sep) == p[..|p| - 1] + [p[|p| - 1] + [c]]
  {
    var x := s + [c];
    assert x[..|x| - 1] == s;
  }

  /** Splitting distributes over a separator between two strings. */
  lemma {:induction false} SplitConcat(a: string, b: string, sep: char)
    ensures Split(a + [sep] + b, sep) == Split(a, sep) + Split(b, sep)
    decreases |b|
  {
    if b == [] {
      assert a + [sep] + b == a + [sep];
      SplitSnocSep(a, sep);
      assert Split(b, sep) == [[]];
    } else {
      var b', c := b[..|b| - 1], b[|b| - 1];
      var y := a + [sep] + b';
      assert a + [sep] + b == y + [c];
      assert b == b' + [c];
      SplitConcat(a, b', sep);
      var sa, sb := Split(a, sep), Split(b', sep);
      if c == sep {
        SplitSnocSep(y, sep);
        SplitSnocSep(b', sep);
        assert sa + sb + [[]] == sa + (sb + [[]]);
      } else {
        SplitSnocChar(y, c, sep);
        SplitSnocChar(b', c, sep);
        SplitConcatLast(sa, sb, c);
      }
    }
  }

  /** Extending the last piece of `sa + sb` extends the last piece of `sb`. */
  lemma SplitConcatLast(sa: seq<string>, sb: seq<string>, c: char)
    requires sb != []
    ensures var q := sa + sb; q[..|q| - 1] + [q[|q| - 1] + [c]] == sa + (sb[..|sb| - 1] + [sb[|sb| - 1] + [c]])
  {
    var q := sa + sb;
    assert q[..|q| - 1] == sa + sb[..|sb| - 1];
    assert q[|q| - 1] == sb[|sb| - 1];
  }

  lemma {:induction false} SplitNoSep(s: string, sep: char)
    requires sep !in s
    ensures Split(s, sep) == [s]
    decreases |s|
  {
    if s != [] {
      SplitNoSep(s[..|s| - 1], sep);
      assert s == s[..|s| - 1] + [s[|s| - 1]];
    }
  }

  /** A character absent from the input is absent from every piece. */
  lemma {:induction false} SplitNoChar(s: string, sep: char, c: char)
    requires c !in s
    ensures NoneContain(Split(s, sep), c)
    decreases |s|
  {
    if s != [] {
      var init := Split(s[..|s| - 1], sep);
      SplitNoChar(s[..|s| - 1], sep, c);
      if s[|s| - 1] != sep {
        assert c !in init[|init| - 1] + [s[|s| - 1]];
      }
    }
  }

  lemma {:induction false} JoinAppend(sep: char, xs: seq<string>, ys: seq<string>)
    requires xs != [] && ys != []
    ensures Join(sep, xs + ys) == Join(sep, xs) + [sep] + Join(sep, ys)
    decreases |ys|
  {
    var q := xs + ys;
    assert q[..|q| - 1] == xs + ys[..|ys| - 1];
    if |ys| > 1 {
      JoinAppend(sep, xs, ys[..|ys| - 1]);
    } else {
      assert q[..|q| - 1] == xs;
    }
  }

  lemma {:induction false} JoinHead(sep: char, xs: seq<string>)
    requires xs != []
    ensures xs[0] <= Join(sep, xs)
    decreases |xs|
  {
    if |xs| > 1 {
      JoinHead(sep, xs[..|xs| - 1]);
    }
  }

  lemma {:induction false} ReplacePrefixed(parts: seq<string>, a: char, b: char)
    requires NoneContain(parts, a)
    ensures Replace(Prefixed(a, parts), a, b) == Prefixed(b, parts)
    decreases |parts|
  {
    if parts != [] {
      var init, last := parts[..|parts| - 1], parts[|parts| - 1];
      ReplacePrefixed(init, a, b);
      assert Replace(last, a, b) == last;
      assert Replace(Prefixed(a, init) + [a] + last, a, b) == Replace(Prefixed(a, init), a, b) + [b] + Replace(last, a, b);
    }
  }

  lemma {:induction false} JoinNoChar(sep: char, parts: seq<string>, c: char)
    requires c != sep && NoneContain(parts, c)
    ensures c !in Join(sep, parts)
    decreases |parts|
  {
    if |parts| > 1 {
      JoinNoChar(sep, parts[..|parts| - 1], c);
    }
  }

  lemma {:induction false} PrefixedAppend(sep: char, a: seq<string>, b: seq<string>)
    ensures Prefixed(sep, a + b) == Prefixed(sep, a) + Prefixed(sep, b)
    decreases |b|
  {
    if b == [] {
      assert a + b == a;
    } else {
      assert (a + b)[..|a + b| - 1] == a + b[..|b| - 1];
      PrefixedAppend(sep, a, b[..|b| - 1]);
    }
  }

  lemma {:induction false} PrefixedIsJoin(sep: char, parts: seq<string>)
    requires parts != []
    ensures Prefixed(sep, parts) == [sep] + Join(sep, parts)
    decreases |parts|
  {
    var init, last := parts[..|parts| - 1], parts[|parts| - 1];
    assert Prefixed(sep, parts) == Prefixed(sep, init) + [sep] + last;
    if |parts| == 1 {
      assert init == [];
    } else {
      PrefixedIsJoin(sep, init);
      assert Join(sep, parts) == Join(sep, init) + [sep] + last;
    }
  }

  /** Replacing the separator of a join renames the separator. */
  lemma {:induction false} ReplaceJoin(parts: seq<string>, a: char, b: char)
    requires NoneContain(parts, a)
    ensures Replace(Join(a, parts), a, b) == Join(b, parts)
    decreases |parts|
  {
    if |parts| == 1 {
      assert Replace(parts[0], a, b) == parts[0];
    } else if |parts| > 1 {
      var init := parts[..|parts| - 1];
      ReplaceJoin(init, a, b);
      var last := parts[|parts| - 1];
      assert Replace(last, a, b) == last;
      assert Replace(Join(a, init) + [a] + last, a, b) == Replace(Join(a, init), a, b) + [b] + Replace(last, a, b);
    }
  }

  // ---------------------------------------------------------------------
  // Lexicographic order (Python's `<=` on str)

  /** `a <= b` on Python strings: code point by code point, a proper prefix first. */
  predicate LexLe(a: string, b: string) {
    if a == [] then true
    else if b == [] then false
    else if a[0] != b[0] then a[0] < b[0]
    else LexLe(a[1..], b[1..])
  }

  lemma {:induction false} LexLeRefl(a: string)
    ensures LexLe(a, a)
    decreases |a|
  {
    if a != [] {
      LexLeRefl(a[1..]);
    }
  }

  lemma {:induction false} LexLeTrans(a: string, b: string, c: string)
    requires LexLe(a, b) && LexLe(b, c)
    ensures LexLe(a, c)
    decreases |a|
  {
    if a != [] && b != [] && c != [] && a[0] == b[0] == c[0] {
      LexLeTrans(a[1..], b[1..], c[1..]);
    }
  }

  lemma {:induction false} LexLeTotal(a: string, b: string)
    ensures LexLe(a, b) || LexLe(b, a)
    decreases |a|
  {
    if a != [] && b != [] && a[0] == b[0] {
      LexLeTotal(a[1..], b[1..]);
    }
  }

  lemma {:induction false} LexLeAntisym(a: string, b: string)
    requires LexLe(a, b) && LexLe(b, a)
    ensures a == b
    decreases |a|
  {
    if a != [] && b != [] {
      LexLeAntisym(a[1..], b[1..]);
      assert a == [a[0]] + a[1..] && b == [b[0]] + b[1..];
    }
  }

  /** `t in s` for strings: `t` occurs as a contiguous substring of `s`. */
  predicate Contains(s: string, t: string) {
    t <= s || (s != [] && Contains(s[1..], t))
  }

  /** Every character of a contained string occurs in the containing one. */
  lemma {:induction false} ContainsChars(s: string, t: string)
    requires Contains(s, t)
    ensures forall i :: 0 <= i < |t| ==> t[i] in s
  {
    if t <= s {
      forall i | 0 <= i < |t| ensures t[i] in s {
        assert t[i] == s[i];
      }
    } else {
      ContainsChars(s[1..], t);
      forall i | 0 <= i < |t| ensures t[i] in s {
        var k :| 0 <= k < |s[1..]| && s[1..][k] == t[i];
        assert s[k + 1] == t[i];
      }
    }
  }

  /** A string missing one of the characters of `t` does not contain `t`. */
  lemma MissingCharNotContains(s: string, t: string, i: nat)
    requires i < |t| && t[i] !in s
    ensures !Contains(s, t)
  {
    if Contains(s, t) {
      ContainsChars(s, t);
    }
  }

  // ---------------------------------------------------------------------
  // Decimal integers: `str(n)` and `int(s)`

  predicate IsDigit(c: char) {
    '0' <= c <= '9'
  }

  predicate AllDigits(s: string) {
    forall i :: 0 <= i < |s| ==> IsDigit(s[i])
  }

  function DigitChar(d: nat): (c: char)
    requires d < 10
    ensures IsDigit(c) && c as int - '0' as int == d
  {
    (48 + d) as char
  }

  /** `str(n)` for a non-negative integer: no leading zero unless `n == 0`. */
  function ShowNat(n: nat): (s: string)
    ensures s != [] && AllDigits(s)
    ensures s[0] == '0' ==> n == 0
    decreases n
  {
    if n < 10 then [DigitChar(n)] else ShowNat(n / 10) + [DigitChar(n % 10)]
  }

  /** `str(n)`: a minus sign exactly for a negative number, then its digits. */
  function ShowInt(n: int): (s: string)
    ensures s != [] && (s[0] == '-' <==> n < 0)
    ensures n >= 0 ==> AllDigits(s)
    ensures n < 0 ==> |s| >= 2 && AllDigits(s[1..])
  {
    if n < 0 then "-" + ShowNat(-n) else ShowNat(n)
  }

  function DigitsValue(s: string): nat
    requires AllDigits(s)
  {
    if s == [] then 0 else DigitsValue(s[..|s| - 1]) * 10 + (s[|s| - 1] as int - '0' as int)
  }

  /**
   * `int(s)` on base-ten input: optional surrounding whitespace, an optional
   * sign, then one or more ASCII digits; anything else raises, modelled as None.
   */
  function ParseInt(s: string): (r: Option<int>)
    ensures IsBlank(s) ==> r.None?
    ensures r.Some? ==> AllDigits(Strip(s)) || (|Strip(s)| >= 2 && AllDigits(Strip(s)[1..]))
    ensures r.Some? && r.value < 0 ==> Strip(s)[0] == '-'
  {
    StripEmptyIffBlank(s);
    var t := Strip(s);
    if t != [] && (t[0] == '-' || t[0] == '+') then
      var d := t[1..];
      if d != [] && AllDigits(d) then Some(if t[0] == '-' then -(DigitsValue(d) as int) else DigitsValue(d)) else None
    else if t != [] && AllDigits(t) then Some(DigitsValue(t))
    else None
  }

  /**
   * What `int` accepts and what it yields: after stripping, either digits, or
   * a sign followed by digits, read in base ten; nothing else parses.
   */
  lemma ParseIntValue(s: string)
    ensures var t, r := Strip(s), ParseInt(s);
      && (r.Some? <==> (t != [] && AllDigits(t)) || (|t| >= 2 && (t[0] == '-' || t[0] == '+') && AllDigits(t[1..])))
      && (t != [] && AllDigits(t) ==> r == Some(DigitsValue(t)))
      && (|t| >= 2 && t[0] == '+' && AllDigits(t[1..]) ==> r == Some(DigitsValue(t[1..])))
      && (|t| >= 2 && t[0] == '-' && AllDigits(t[1..]) ==> r == Some(-(DigitsValue(t[1..]) as int)))
  {
    var t := Strip(s);
    if t != [] && (t[0] == '-' || t[0] == '+') {
      assert !AllDigits(t) by {
        assert !IsDigit(t[0]);
      }
    }
  }

  lemma {:induction false} ShowNatValue(n: nat)
    ensures DigitsValue(ShowNat(n)) == n
    decreases n
  {
    if n >= 10 {
      ShowNatValue(n / 10);
      var s := ShowNat(n / 10) + [DigitChar(n % 10)];
      assert s[..|s| - 1] == ShowNat(n / 10);
    }
  }

  lemma StripUnchanged(s: string)
    requires s != [] && !IsSpace(s[0]) && !IsSpace(s[|s| - 1])
    ensures Strip(s) == s
  {
    assert LStrip(s) == s;
  }

  /** A printed number has no surrounding whitespace. */
  lemma ShowIntStripped(n: int)
    ensures Strip(ShowInt(n)) == ShowInt(n)
  {
    var s := ShowInt(n);
    if n < 0 {
      var d := ShowNat(-n);
      assert s == "-" + d;
      assert !IsSpace(s[|s| - 1]) by { assert s[|s| - 1] == d[|d| - 1]; }
    } else {
      assert IsDigit(s[0]) && IsDigit(s[|s| - 1]);
    }
    StripUnchanged(s);
  }

  lemma ParseShowNegative(n: int)
    requires n < 0
    ensures ParseInt(ShowInt(n)) == Some(n)
  {
    var m: nat := -n;
    var t, d := ShowInt(n), ShowNat(m);
    assert t == "-" + d;
    ShowIntStripped(n);
    ShowNatValue(m);
    assert Strip(t)[1..] == d;
  }

  lemma ParseShowNonNegative(n: int)
    requires n >= 0
    ensures ParseInt(ShowInt(n)) == Some(n)
  {
    ShowIntStripped(n);
    var t := ShowInt(n);
    assert t == ShowNat(n) && IsDigit(t[0]);
    ShowNatValue(n);
  }

  /** `int(str(n)) == n`: a chat id written as text reads back as the same number. */
  lemma ParseShowInt(n: int)
    ensures ShowInt(n) != [] && Strip(ShowInt(n)) == ShowInt(n)
    ensures ParseInt(ShowInt(n)) == Some(n)
  {
    ShowIntStripped(n);
    if n < 0 {
      ParseShowNegative(n);
    } else {
      ParseShowNonNegative(n);
    }
  }

  /** Distinct numbers print differently. */
  lemma ShowIntInjective(a: int, b: int)
    ensures ShowInt(a) == ShowInt(b) ==> a == b
  {
    ParseShowInt(a);
    ParseShowInt(b);
  }

  // ---------------------------------------------------------------------
  // shlex.quote

  /** Characters `shlex.quote` leaves unquoted: ASCII word characters and `@%+=:,./-`. */
  predicate IsShellSafe(c: char) {
    || 'a' <= c <= 'z' || 'A' <= c <= 'Z' || '0' <= c <= '9'
    || c == '_' || c == '@' || c == '%' || c == '+' || c == '=' || c == ':' || c == ','
    || c == '.' || c == '/' || c == '-'
  }

  /** Each `'` becomes `'"'"'`. */
  function EscapeSingleQuotes(s: string): string {
    if s == [] then []
    else (if s[0] == '\'' then "'\"'\"'" else [s[0]]) + EscapeSingleQuotes(s[1..])
  }

  /** `shlex.quote(s)`. */
  function ShellQuote(s: string): (r: string)
    ensures s == [] ==> r == "''"
    ensures s != [] && (forall i :: 0 <= i < |s| ==> IsShellSafe(s[i])) ==> r == s
    ensures (exists i :: 0 <= i < |s| && !IsShellSafe(s[i])) ==> r == "'" + EscapeSingleQuotes(s) + "'"
    ensures r != []
  {
    if s == [] then "''"
    else if forall i :: 0 <= i < |s| ==> IsShellSafe(s[i]) then s
    else "'" + EscapeSingleQuotes(s) + "'"
  }

  /** `c` prefixed to a read word; a failed read stays failed. */
  function Cons(c: char, w: Option<string>): Option<string> {
    if w.Some? then Some([c] + w.value) else None
  }

  /**
   * How a POSIX shell reads one word made of safe characters, single-quoted
   * text and double-quoted text without `$`, `` ` `` or `\`: the quotes go,
   * their contents stay. Any other character, or an unterminated quote, is
   * not read.
   */
  function ShellRead(w: string): Option<string>
    decreases |w|, 1
  {
    if w == [] then Some([])
    else if w[0] == '\'' then ReadSingle(w[1..])
    else if w[0] == '"' then ReadDouble(w[1..])
    else if IsShellSafe(w[0]) then Cons(w[0], ShellRead(w[1..]))
    else None
  }

  /** The rest of a word after an opening `'`: every character up to the closing `'` is literal. */
  function ReadSingle(w: string): Option<string>
    decreases |w|, 0
  {
    if w == [] then None
    else if w[0] == '\'' then ShellRead(w[1..])
    else Cons(w[0], ReadSingle(w[1..]))
  }

  /** The rest of a word after an opening `"`, up to the closing `"`. */
  function ReadDouble(w: string): Option<string>
    decreases |w|, 0
  {
    if w == [] then None
    else if w[0] == '"' then ShellRead(w[1..])
    else if w[0] == '$' || w[0] == '`' || w[0] == '\\' then None
    else Cons(w[0], ReadDouble(w[1..]))
  }

  /** `p` prefixed to a read word; a failed read stays failed. */
  function Prepend(p: string, w: Option<string>): Option<string> {
    if w.Some? then Some(p + w.value) else None
  }

  /** A quote character in front of `x`, as the reader steps over it. */
  lemma QuoteStep(x: string)
    ensures ReadSingle(['\''] + x) == ShellRead(x)
    ensures ShellRead(['\''] + x) == ReadSingle(x)
    ensures ShellRead(['"'] + x) == ReadDouble(x)
    ensures ReadDouble(['"'] + x) == ShellRead(x)
    ensures ReadDouble(['\''] + x) == Cons('\'', ReadDouble(x))
  {
    assert (['\''] + x)[1..] == x && (['"'] + x)[1..] == x;
  }

  /** Inside single quotes, `'"'"'` closes the quote, reads a `'` in double quotes and reopens. */
  lemma ReadQuoteEscape(x: string)
    ensures ReadSingle("'\"'\"'" + x) == Cons('\'', ReadSingle(x))
  {
    var x4, x3 := ['\''] + x, ['"'] + (['\''] + x);
    var x2 := ['\''] + x3;
    var x1 := ['"'] + x2;
    assert "'\"'\"'" + x == ['\''] + x1;
    QuoteStep(x1);
    QuoteStep(x2);
    QuoteStep(x3);
    QuoteStep(x4);
    QuoteStep(x);
  }

  /** Inside single quotes, any other character is literal. */
  lemma ReadPlain(c: char, x: string)
    requires c != '\''
    ensures ReadSingle([c] + x) == Cons(c, ReadSingle(x))
  {
    assert ([c] + x)[1..] == x;
  }

  /** Prefixing a non-empty string is prefixing its first character to the rest. */
  lemma PrependFirst(s: string, v: Option<string>)
    requires s != []
    ensures Prepend(s, v) == Cons(s[0], Prepend(s[1..], v))
  {
    if v.Some? {
      assert [s[0]] + (s[1..] + v.value) == s + v.value;
    }
  }

  /** Inside single quotes, the escaped text reads back as itself, and reading goes on after the closing quote. */
  lemma {:induction false} ReadEscaped(s: string, tail: string)
    ensures ReadSingle(EscapeSingleQuotes(s) + "'" + tail) == Prepend(s, ShellRead(tail))
    decreases |s|
  {
    if s == [] {
      var w := "'" + tail;
      assert EscapeSingleQuotes(s) + "'" + tail == w;
      assert w[1..] == tail && ReadSingle(w) == ShellRead(tail);
      if ShellRead(tail).Some? {
        assert s + ShellRead(tail).value == ShellRead(tail).value;
      }
    } else {
      var x := EscapeSingleQuotes(s[1..]) + "'" + tail;
      ReadEscaped(s[1..], tail);
      if s[0] == '\'' {
        assert EscapeSingleQuotes(s) + "'" + tail == "'\"'\"'" + x;
        ReadQuoteEscape(x);
      } else {
        assert EscapeSingleQuotes(s) + "'" + tail == [s[0]] + x;
        ReadPlain(s[0], x);
      }
      PrependFirst(s, ShellRead(tail));
    }
  }

  /** A word of safe characters reads as itself. */
  lemma {:induction false} SafeReads(s: string)
    requires forall i :: 0 <= i < |s| ==> IsShellSafe(s[i])
    ensures ShellRead(s) == Some(s)
    decreases |s|
  {
    if s != [] {
      SafeReads(s[1..]);
      assert s == [s[0]] + s[1..];
    }
  }

  /** A single-quoted word reads back as the text inside it. */
  lemma QuotedReads(s: string)
    ensures ShellRead("'" + EscapeSingleQuotes(s) + "'") == Some(s)
  {
    var w := "'" + EscapeSingleQuotes(s) + "'";
    assert w[1..] == EscapeSingleQuotes(s) + "'" + [];
    assert ShellRead(w) == ReadSingle(w[1..]);
    ReadEscaped(s, []);
    assert s + [] == s;
  }

  /** `shlex.quote` is exact: the shell reads the quoted word back as the original string. */
  lemma ShellQuoteRoundTrip(s: string)
    ensures ShellRead(ShellQuote(s)) == Some(s)
  {
    if s == [] {
      assert ShellQuote(s) == "'" + EscapeSingleQuotes(s) + "'";
      QuotedReads(s);
    } else if forall i :: 0 <= i < |s| ==> IsShellSafe(s[i]) {
      SafeReads(s);
    } else {
      QuotedReads(s);
    }
  }
}
