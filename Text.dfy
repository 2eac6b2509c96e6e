/**
 * The string primitives the Python sources lean on (str.lower, str.strip,
 * str.split, str.splitlines, str.join, substring tests, and the recurring
 * re.sub(r"\s+", " ", ...)), restricted to ASCII.  Every other module is
 * written in terms of these.
 */
module Text {

  // ---------------------------------------------------------------------
  // Character classes
  // ---------------------------------------------------------------------

  /** Python's str.isspace() / regex \s, restricted to ASCII. */
  predicate IsSpace(c: char) {
    c == ' ' || c == '\t' || c == '\n' || c == '\r' || c == '\U{000B}' || c == '\U{000C}'
    || ('\U{001C}' <= c <= '\U{001F}')
  }

  predicate IsDigit(c: char) { '0' <= c <= '9' }
  predicate IsUpper(c: char) { 'A' <= c <= 'Z' }
  predicate IsLowerLetter(c: char) { 'a' <= c <= 'z' }
  predicate IsLetter(c: char) { IsUpper(c) || IsLowerLetter(c) }
  predicate IsAlnum(c: char) { IsLetter(c) || IsDigit(c) }

  /** Regex \w, restricted to ASCII: [A-Za-z0-9_]. */
  predicate IsWordChar(c: char) { IsAlnum(c) || c == '_' }

  function LowerChar(c: char): (d: char)
    ensures !IsUpper(d)
    ensures IsUpper(c) ==> IsLowerLetter(d)
    ensures !IsUpper(c) ==> d == c
  {
    if IsUpper(c) then (c as int + 32) as char else c
  }

  /** str.lower() on ASCII text. */
  function Lower(s: string): (r: string)
    ensures |r| == |s|
    ensures forall i :: 0 <= i < |s| ==> r[i] == LowerChar(s[i])
  {
    seq(|s|, i requires 0 <= i < |s| => LowerChar(s[i]))
  }

  lemma LowerIdempotent(s: string)
    ensures Lower(Lower(s)) == Lower(s)
  {
  }

  lemma LowerConcat(a: string, b: string)
    ensures Lower(a + b) == Lower(a) + Lower(b)
  {
  }

  /** No character of s is an upper-case letter. */
  predicate IsLowered(s: string) {
    forall i :: 0 <= i < |s| ==> !IsUpper(s[i])
  }

  // ---------------------------------------------------------------------
  // Substrings and prefixes
  // ---------------------------------------------------------------------

  predicate OccursAt(s: string, sub: string, i: nat) {
    i + |sub| <= |s| && s[i..i + |sub|] == sub
  }

  /** Python's `sub in s`. */
  predicate Contains(s: string, sub: string) {
    exists i | 0 <= i <= |s| :: OccursAt(s, sub, i)
  }

  predicate StartsWith(s: string, p: string) {
    |p| <= |s| && s[..|p|] == p
  }

  predicate EndsWith(s: string, p: string) {
    |p| <= |s| && s[|s| - |p|..] == p
  }

  lemma ContainsSelf(s: string)
    ensures Contains(s, s)
  {
    assert OccursAt(s, s, 0);
  }

  lemma ContainsInConcat(a: string, b: string, c: string)
    ensures Contains(a + b + c, b)
  {
    assert OccursAt(a + b + c, b, |a|);
  }

  /** Position of the first occurrence of sep in s, or -1 (str.find). */
  function Find(s: string, sep: string): (k: int)
    requires |sep| > 0
    ensures -1 <= k <= |s|
    ensures k >= 0 ==> OccursAt(s, sep, k)
    ensures forall j :: 0 <= j < |s| && (k < 0 || j < k) ==> !OccursAt(s, sep, j)
  {
    if |s| < |sep| then -1
    else if s[..|sep|] == sep then 0
    else
      var k := Find(s[1..], sep);
      assert forall j :: 1 <= j < |s| ==> (OccursAt(s, sep, j) <==> OccursAt(s[1..], sep, j - 1));
      if k < 0 then -1 else k + 1
  }

  /** s[:n] */
  function Take(s: string, n: nat): (r: string)
    ensures |r| == if |s| <= n then |s| else n
    ensures r == s[..|r|]
  {
    if |s| <= n then s else s[..n]
  }

  // ---------------------------------------------------------------------
  // strip() and re.sub(r"\s+", " ", ...)
  // ---------------------------------------------------------------------

  /** The number of whitespace characters s starts with. */
  function SpaceRun(s: string): (n: nat)
    ensures n <= |s|
    ensures forall i :: 0 <= i < n ==> IsSpace(s[i])
    ensures n < |s| ==> !IsSpace(s[n])
  {
    if |s| > 0 && IsSpace(s[0]) then 1 + SpaceRun(s[1..]) else 0
  }

  /** The number of whitespace characters s ends with. */
  function TrailingRun(s: string): (n: nat)
    ensures n <= |s|
    ensures forall i :: |s| - n <= i < |s| ==> IsSpace(s[i])
    ensures n < |s| ==> !IsSpace(s[|s| - n - 1])
  {
    if |s| > 0 && IsSpace(s[|s| - 1]) then 1 + TrailingRun(s[..|s| - 1]) else 0
  }

  /** str.lstrip() */
  function LStrip(s: string): (r: string)
    ensures |r| <= |s| && r == s[|s| - |r|..]
    ensures r == [] || !IsSpace(r[0])
    ensures forall i :: 0 <= i < |s| - |r| ==> IsSpace(s[i])
  {
    s[SpaceRun(s)..]
  }

  /** str.rstrip() */
  function RStrip(s: string): (r: string)
    ensures |r| <= |s| && r == s[..|r|]
    ensures r == [] || !IsSpace(r[|r| - 1])
    ensures forall i :: |r| <= i < |s| ==> IsSpace(s[i])
  {
    s[..|s| - TrailingRun(s)]
  }

  /** str.strip(): the longest slice of s with no whitespace at either end. */
  function Strip(s: string): (r: string)
    ensures |r| <= |s|
    ensures r == [] || (!IsSpace(r[0]) && !IsSpace(r[|r| - 1]))
  {
    RStrip(LStrip(s))
  }

  /** Where Strip(s) starts inside s. */
  function StripOffset(s: string): (a: nat)
    ensures a + |Strip(s)| <= |s|
    ensures Strip(s) == s[a..a + |Strip(s)|]
  {
    var a := SpaceRun(s);
    var l := s[a..];
    assert Strip(s) == l[..|Strip(s)|];
    assert l[..|Strip(s)|] == s[a..a + |Strip(s)|];
    a
  }

  lemma StripNoEdgeSpace(s: string)
    requires s == [] || (!IsSpace(s[0]) && !IsSpace(s[|s| - 1]))
    ensures Strip(s) == s
  {
  }

  lemma StripIdempotent(s: string)
    ensures Strip(Strip(s)) == Strip(s)
  {
    StripNoEdgeSpace(Strip(s));
  }

  /** True when s is empty or made only of whitespace. */
  predicate IsBlank(s: string) {
    forall i :: 0 <= i < |s| ==> IsSpace(s[i])
  }

  lemma StripEmptyIffBlank(s: string)
    ensures Strip(s) == [] <==> IsBlank(s)
  {
    if IsBlank(s) {
      assert LStrip(s) == [];
    } else {
      var i :| 0 <= i < |s| && !IsSpace(s[i]);
      var l := LStrip(s);
      assert i >= |s| - |l|;
      assert l[i - (|s| - |l|)] == s[i];
      assert RStrip(l) != [];
    }
  }

  /** re.sub(r"\s+", " ", s): every maximal whitespace run becomes one space. */
  function Collapse(s: string): (r: string)
    ensures |r| <= |s|
    decreases |s|
  {
    if s == [] then []
    else if IsSpace(s[0]) then " " + Collapse(LStrip(s))
    else [s[0]] + Collapse(s[1..])
  }

  /** No whitespace other than a single space, and no two spaces in a row. */
  predicate SingleSpaced(s: string) {
    (forall i :: 0 <= i < |s| && IsSpace(s[i]) ==> s[i] == ' ')
    && (forall i :: 0 <= i < |s| - 1 ==> !(IsSpace(s[i]) && IsSpace(s[i + 1])))
  }

  lemma {:induction false} CollapseSingleSpaced(s: string)
    ensures SingleSpaced(Collapse(s))
    ensures s != [] ==> Collapse(s) != [] && (IsSpace(s[0]) <==> IsSpace(Collapse(s)[0]))
    decreases |s|
  {
    if s == [] {
    } else if IsSpace(s[0]) {
      var t := LStrip(s);
      CollapseSingleSpaced(t);
      var c := Collapse(t);
      assert t == [] ==> c == [];
      assert t != [] ==> !IsSpace(c[0]);
    } else {
      CollapseSingleSpaced(s[1..]);
    }
  }

  lemma {:induction false} CollapseEdges(s: string)
    requires s != [] && !IsSpace(s[0]) && !IsSpace(s[|s| - 1])
    ensures Collapse(s) != [] && !IsSpace(Collapse(s)[0]) && !IsSpace(Collapse(s)[|Collapse(s)| - 1])
    decreases |s|
  {
    if |s| == 1 {
      assert Collapse(s) == [s[0]] + Collapse([]);
    } else {
      var t := s[1..];
      assert t[|t| - 1] == s[|s| - 1];
      if IsSpace(t[0]) {
        var u := LStrip(t);
        assert u != [] by {
          assert !IsSpace(t[|t| - 1]);
        }
        assert u[|u| - 1] == t[|t| - 1];
        CollapseEdges(u);
        assert Collapse(s) == [s[0]] + (" " + Collapse(u));
      } else {
        CollapseEdges(t);
        assert Collapse(s) == [s[0]] + Collapse(t);
      }
    }
  }

  lemma {:induction false} CollapseNoNewline(s: string)
    ensures forall i :: 0 <= i < |Collapse(s)| ==> Collapse(s)[i] != '\n'
    decreases |s|
  {
    CollapseSingleSpaced(s);
  }

  lemma {:induction false} CollapseKeepsBrackets(s: string)
    requires forall i :: 0 <= i < |s| ==> s[i] != ']'
    ensures forall i :: 0 <= i < |Collapse(s)| ==> Collapse(s)[i] != ']'
    decreases |s|
  {
    if s == [] {
    } else if IsSpace(s[0]) {
      var t := LStrip(s);
      CollapseKeepsBrackets(t);
    } else {
      CollapseKeepsBrackets(s[1..]);
    }
  }

  /** normalize_line and the many `re.sub(r"\s+", " ", x.strip())`. */
  function Normalize(s: string): (r: string)
    ensures SingleSpaced(r)
    ensures r == [] || (!IsSpace(r[0]) && !IsSpace(r[|r| - 1]))
    ensures r == [] <==> IsBlank(s)
  {
    NormalizeFacts(s);
    Collapse(Strip(s))
  }

  lemma NormalizeFacts(s: string)
    ensures SingleSpaced(Collapse(Strip(s)))
    ensures Collapse(Strip(s)) == [] || (!IsSpace(Collapse(Strip(s))[0]) && !IsSpace(Collapse(Strip(s))[|Collapse(Strip(s))| - 1]))
    ensures Collapse(Strip(s)) == [] <==> IsBlank(s)
  {
    CollapseSingleSpaced(Strip(s));
    StripEmptyIffBlank(s);
    if Strip(s) != [] { CollapseEdges(Strip(s)); }
  }

  // ---------------------------------------------------------------------
  // Splitting and joining
  // ---------------------------------------------------------------------

  /** str.split(sep) for a non-empty separator. */
  function SplitOn(s: string, sep: string): (parts: seq<string>)
    requires |sep| > 0
    ensures |parts| >= 1
    decreases |s|
  {
    var k := Find(s, sep);
    if k < 0 then [s] else [s[..k]] + SplitOn(s[k + |sep|..], sep)
  }

  /** str.splitlines(), with '\n' as the only line break. */
  function SplitLines(s: string): (lines: seq<string>)
  {
    var parts := SplitOn(s, "\n");
    if parts[|parts| - 1] == "" then parts[..|parts| - 1] else parts
  }

  /** sep.join(parts). */
  function Join(sep: string, parts: seq<string>): (r: string)
    decreases |parts|
  {
    if |parts| == 0 then ""
    else if |parts| == 1 then parts[0]
    else parts[0] + sep + Join(sep, parts[1..])
  }

  lemma JoinSnoc(sep: string, parts: seq<string>, x: string)
    requires |parts| > 0
    ensures Join(sep, parts + [x]) == Join(sep, parts) + sep + x
    decreases |parts|
  {
    if |parts| == 1 {
    } else {
      assert (parts + [x])[1..] == parts[1..] + [x];
      JoinSnoc(sep, parts[1..], x);
    }
  }

  predicate NoNewline(s: string) {
    forall i :: 0 <= i < |s| ==> s[i] != '\n'
  }

  lemma FindNewlineAfter(a: string, rest: string)
    requires NoNewline(a)
    ensures Find(a + "\n" + rest, "\n") == |a|
  {
    var s := a + "\n" + rest;
    assert OccursAt(s, "\n", |a|);
    forall j | 0 <= j < |a| ensures !OccursAt(s, "\n", j) {
      assert s[j..j + 1][0] == a[j];
    }
  }

  lemma FindNoNewline(a: string)
    requires NoNewline(a)
    ensures Find(a, "\n") == -1
  {
    forall j | 0 <= j < |a| ensures !OccursAt(a, "\n", j) {
      if j + 1 <= |a| {
        assert a[j..j + 1][0] == a[j];
      }
    }
  }

  /** Splitting a '\n'-joined list of newline-free lines gives the lines back. */
  lemma {:induction false} SplitOnJoin(lines: seq<string>)
    requires |lines| > 0
    requires forall i :: 0 <= i < |lines| ==> NoNewline(lines[i])
    ensures SplitOn(Join("\n", lines), "\n") == lines
    decreases |lines|
  {
    if |lines| == 1 {
      FindNoNewline(lines[0]);
    } else {
      var rest := Join("\n", lines[1..]);
      var s := lines[0] + "\n" + rest;
      FindNewlineAfter(lines[0], rest);
      assert s[..|lines[0]|] == lines[0];
      assert s[|lines[0]| + 1..] == rest;
      SplitOnJoin(lines[1..]);
      assert SplitOn(s, "\n") == [lines[0]] + lines[1..];
    }
  }

  /** splitlines() of a '\n'-join of newline-free lines, the last non-empty. */
  lemma SplitLinesJoin(lines: seq<string>)
    requires |lines| > 0 && lines[|lines| - 1] != ""
    requires forall i :: 0 <= i < |lines| ==> NoNewline(lines[i])
    ensures SplitLines(Join("\n", lines)) == lines
  {
    SplitOnJoin(lines);
  }

  /** The run of non-whitespace characters at the front of s. */
  function TakeWord(s: string): (w: string)
    ensures |w| <= |s| && w == s[..|w|]
    ensures forall i :: 0 <= i < |w| ==> !IsSpace(s[i])
    ensures |w| < |s| ==> IsSpace(s[|w|])
  {
    if |s| > 0 && !IsSpace(s[0]) then [s[0]] + TakeWord(s[1..]) else []
  }

  /** str.split() with no argument: the maximal runs of non-whitespace. */
  function SplitWs(s: string): (words: seq<string>)
    ensures forall k :: 0 <= k < |words| ==> words[k] != []
    decreases |s|
  {
    var t := LStrip(s);
    if t == [] then [] else
      var w := TakeWord(t);
      [w] + SplitWs(t[|w|..])
  }

  /** Every character of w is non-blank and satisfies p. */
  predicate WordOf(w: string, p: char -> bool) {
    forall i :: 0 <= i < |w| ==> !IsSpace(w[i]) && p(w[i])
  }

  predicate BlankOr(s: string, p: char -> bool) {
    forall i :: 0 <= i < |s| ==> IsSpace(s[i]) || p(s[i])
  }

  lemma BlankOrSlice(s: string, p: char -> bool, i: nat, j: nat)
    requires BlankOr(s, p) && i <= j <= |s|
    ensures BlankOr(s[i..j], p)
  {
    forall k | 0 <= k < j - i ensures IsSpace(s[i..j][k]) || p(s[i..j][k]) {
      assert s[i..j][k] == s[i + k];
    }
  }

  lemma TakeWordOf(t: string, p: char -> bool)
    requires BlankOr(t, p)
    ensures WordOf(TakeWord(t), p)
  {
    var w := TakeWord(t);
    forall i | 0 <= i < |w| ensures !IsSpace(w[i]) && p(w[i]) {
      assert w[i] == t[i];
    }
  }

  /** The words of str.split() hold only characters of s. */
  lemma {:induction false} SplitWsChars(s: string, p: char -> bool)
    requires BlankOr(s, p)
    ensures forall k :: 0 <= k < |SplitWs(s)| ==> WordOf(SplitWs(s)[k], p)
    decreases |s|
  {
    var t := LStrip(s);
    if t != [] {
      BlankOrSlice(s, p, |s| - |t|, |s|);
      var w := TakeWord(t);
      TakeWordOf(t, p);
      BlankOrSlice(t, p, |w|, |t|);
      var rest := t[|w|..];
      SplitWsChars(rest, p);
      var ws := SplitWs(s);
      assert ws == [w] + SplitWs(rest);
      forall k | 0 <= k < |ws| ensures WordOf(ws[k], p) {
        if k > 0 { assert ws[k] == SplitWs(rest)[k - 1]; }
      }
    } else {
      assert SplitWs(s) == [];
    }
  }

  // ---------------------------------------------------------------------
  // Number formatting
  // ---------------------------------------------------------------------

  function DigitChar(d: nat): (c: char)
    requires d < 10
    ensures IsDigit(c)
  {
    ('0' as int + d) as char
  }

  /** f"{n}" for a non-negative integer. */
  function ShowNat(n: nat): (r: string)
    ensures |r| >= 1
    ensures forall i :: 0 <= i < |r| ==> IsDigit(r[i])
  {
    if n < 10 then [DigitChar(n)] else ShowNat(n / 10) + [DigitChar(n % 10)]
  }

  /** f"{n:0{width}d}" for a non-negative integer: left-padded with zeros. */
  function ShowPadded(n: nat, width: nat): (r: string)
    ensures |r| >= width && |r| >= 1
    ensures forall i :: 0 <= i < |r| ==> IsDigit(r[i])
  {
    var d := ShowNat(n);
    if |d| >= width then d else seq(width - |d|, _ => '0') + d
  }

  // ---------------------------------------------------------------------
  // Substrings through concatenation, strip() and join()
  // ---------------------------------------------------------------------

  lemma OccursShift(s: string, t: string, n: nat, i: nat)
    requires n <= |s| && OccursAt(s[n..], t, i)
    ensures OccursAt(s, t, n + i)
  {
    assert s[n..][i..i + |t|] == s[n + i..n + i + |t|];
  }

  lemma ContainsLeft(a: string, b: string, t: string)
    requires Contains(a, t)
    ensures Contains(a + b, t)
  {
    var i :| 0 <= i <= |a| && OccursAt(a, t, i);
    assert (a + b)[i..i + |t|] == a[i..i + |t|];
    assert OccursAt(a + b, t, i);
  }

  lemma ContainsRight(a: string, b: string, t: string)
    requires Contains(b, t)
    ensures Contains(a + b, t)
  {
    var i :| 0 <= i <= |b| && OccursAt(b, t, i);
    assert (a + b)[|a| + i..|a| + i + |t|] == b[i..i + |t|];
    assert OccursAt(a + b, t, |a| + i);
  }

  /** A substring of a substring is a substring. */
  lemma ContainsTrans(s: string, t: string, u: string)
    requires Contains(s, t) && Contains(t, u)
    ensures Contains(s, u)
  {
    var i :| 0 <= i <= |s| && OccursAt(s, t, i);
    var j :| 0 <= j <= |t| && OccursAt(t, u, j);
    forall k | 0 <= k < |u| ensures s[i + j + k] == u[k] {
      assert u[k] == t[j + k] == s[i + j + k];
    }
    assert OccursAt(s, u, i + j);
  }

  /** Each part of a join is a substring of the join. */
  lemma {:induction false} ContainsJoin(sep: string, parts: seq<string>, k: nat, t: string)
    requires k < |parts| && Contains(parts[k], t)
    ensures Contains(Join(sep, parts), t)
    decreases |parts|
  {
    if |parts| > 1 {
      if k == 0 {
        ContainsLeft(parts[0], sep + Join(sep, parts[1..]), t);
        assert parts[0] + (sep + Join(sep, parts[1..])) == Join(sep, parts);
      } else {
        ContainsJoin(sep, parts[1..], k - 1, t);
        ContainsRight(parts[0] + sep, Join(sep, parts[1..]), t);
      }
    }
  }

  /** strip() only removes whitespace, so a substring with non-blank ends survives it. */
  lemma ContainsStrip(s: string, t: string)
    requires Contains(s, t) && t != [] && !IsSpace(t[0]) && !IsSpace(t[|t| - 1])
    ensures Contains(Strip(s), t)
  {
    ContainsLStrip(s, t);
    ContainsRStrip(LStrip(s), t);
  }

  lemma ContainsLStrip(s: string, t: string)
    requires Contains(s, t) && t != [] && !IsSpace(t[0])
    ensures Contains(LStrip(s), t)
  {
    var i :| 0 <= i <= |s| && OccursAt(s, t, i);
    var l := LStrip(s);
    var a := |s| - |l|;
    assert s[i] == t[0];
    assert i >= a;
    forall k | 0 <= k < |t| ensures l[i - a + k] == t[k] {
      assert s[i + k] == t[k];
    }
    assert l[i - a..i - a + |t|] == t;
    assert OccursAt(l, t, i - a);
  }

  lemma ContainsRStrip(s: string, t: string)
    requires Contains(s, t) && t != [] && !IsSpace(t[|t| - 1])
    ensures Contains(RStrip(s), t)
  {
    var i :| 0 <= i <= |s| && OccursAt(s, t, i);
    var r := RStrip(s);
    assert s[i + |t| - 1] == t[|t| - 1];
    assert i + |t| <= |r|;
    assert r[i..i + |t|] == s[i..i + |t|];
    assert OccursAt(r, t, i);
  }

  lemma StartsWithConcat(p: string, s: string)
    ensures StartsWith(p + s, p)
  {
    assert (p + s)[..|p|] == p;
  }

  lemma StartsWithMore(s: string, p: string, t: string)
    requires StartsWith(s, p)
    ensures StartsWith(s + t, p)
  {
    assert (s + t)[..|p|] == s[..|p|];
  }

  lemma StartsWithTrans(s: string, a: string, p: string)
    requires StartsWith(s, a) && StartsWith(a, p)
    ensures StartsWith(s, p)
  {
    assert s[..|p|] == s[..|a|][..|p|];
  }

  /** A join starts with its first part. */
  lemma JoinHead(sep: string, parts: seq<string>)
    requires |parts| > 0
    ensures StartsWith(Join(sep, parts), parts[0])
  {
    if |parts| > 1 {
      StartsWithConcat(parts[0], sep + Join(sep, parts[1..]));
      assert parts[0] + (sep + Join(sep, parts[1..])) == Join(sep, parts);
    } else {
      StartsWithConcat(parts[0], "");
      assert parts[0] + "" == parts[0];
    }
  }

  /** A string built of four pieces starts with the first and ends with the last. */
  lemma Framed(a: string, m: string, n: string, z: string)
    ensures StartsWith(a + m + n + z, a) && EndsWith(a + m + n + z, z)
  {
    var s := a + m + n + z;
    assert s[..|a|] == a;
    assert s[|s| - |z|..] == z;
  }

  /** A prefix with non-blank ends survives strip(). */
  lemma StripKeepsPrefix(s: string, p: string)
    requires StartsWith(s, p) && p != [] && !IsSpace(p[0]) && !IsSpace(p[|p| - 1])
    ensures StartsWith(Strip(s), p)
  {
    assert s[0] == p[0];
    assert LStrip(s) == s;
    var r := RStrip(s);
    assert s[|p| - 1] == p[|p| - 1];
    assert |r| >= |p|;
    assert r[..|p|] == s[..|p|];
  }

  /** re.sub(r"\s+", " ", ...) leaves a whitespace-free prefix as it is. */
  lemma {:induction false} CollapseNonBlankPrefix(a: string, b: string)
    requires forall i :: 0 <= i < |a| ==> !IsSpace(a[i])
    ensures Collapse(a + b) == a + Collapse(b)
    decreases |a|
  {
    if a == [] {
      assert a + b == b;
    } else {
      assert (a + b)[1..] == a[1..] + b;
      CollapseNonBlankPrefix(a[1..], b);
      assert (a + b)[0] == a[0] && !IsSpace(a[0]);
      assert Collapse(a + b) == [a[0]] + Collapse(a[1..] + b);
      assert [a[0]] + (a[1..] + Collapse(b)) == a + Collapse(b);
    }
  }

  /** Collapsing whitespace introduces no new non-blank character. */
  lemma {:induction false} CollapseBlankOr(s: string, p: char -> bool)
    requires BlankOr(s, p)
    ensures BlankOr(Collapse(s), p)
    decreases |s|
  {
    if s != [] {
      if IsSpace(s[0]) {
        BlankOrSlice(s, p, SpaceRun(s), |s|);
        CollapseBlankOr(LStrip(s), p);
      } else {
        BlankOrSlice(s, p, 1, |s|);
        CollapseBlankOr(s[1..], p);
      }
    }
  }

  // ---------------------------------------------------------------------
  // re.findall(r"[a-zA-Z0-9]+", s)
  // ---------------------------------------------------------------------

  /** The number of ASCII letters and digits s starts with. */
  function AlnumRun(s: string): (n: nat)
    ensures n <= |s|
    ensures forall i :: 0 <= i < n ==> IsAlnum(s[i])
    ensures n < |s| ==> !IsAlnum(s[n])
  {
    if |s| > 0 && IsAlnum(s[0]) then 1 + AlnumRun(s[1..]) else 0
  }

  /** The maximal runs of [a-zA-Z0-9] in s, left to right. */
  function AlnumWords(s: string): (ws: seq<string>)
    decreases |s|
  {
    if s == [] then []
    else if IsAlnum(s[0]) then
      var n := AlnumRun(s);
      [s[..n]] + AlnumWords(s[n..])
    else AlnumWords(s[1..])
  }

  /** [w for w in words if len(w) > n] */
  function LongerThan(words: seq<string>, n: nat): (r: seq<string>)
    ensures |r| <= |words|
    ensures forall k :: 0 <= k < |r| ==> |r[k]| > n && r[k] in words
  {
    if words == [] then []
    else (if |words[0]| > n then [words[0]] else []) + LongerThan(words[1..], n)
  }

  lemma {:induction false} LongerThanExact(words: seq<string>, n: nat, w: string)
    ensures w in LongerThan(words, n) <==> w in words && |w| > n
  {
    if words != [] {
      LongerThanExact(words[1..], n, w);
      assert words == [words[0]] + words[1..];
    }
  }

  predicate AlnumWord(w: string) {
    w != [] && forall i :: 0 <= i < |w| ==> IsAlnum(w[i])
  }

  /** Every word found is a non-empty run of letters and digits occurring in s. */
  lemma {:induction false} AlnumWordsFacts(s: string)
    ensures forall w :: w in AlnumWords(s) ==> AlnumWord(w) && Contains(s, w)
    decreases |s|
  {
    if s != [] {
      var n := if IsAlnum(s[0]) then AlnumRun(s) else 1;
      AlnumWordsFacts(s[n..]);
      forall w | w in AlnumWords(s) ensures AlnumWord(w) && Contains(s, w) {
        if IsAlnum(s[0]) && w == s[..n] {
          assert OccursAt(s, w, 0);
        } else {
          assert w in AlnumWords(s[n..]);
          var i :| 0 <= i <= |s[n..]| && OccursAt(s[n..], w, i);
          OccursShift(s, w, n, i);
        }
      }
    }
  }
}
