/**
 * The extractors of api/synthesis.py that read one chunk text:
 * extract_supported_os (the OS lines, de-duplicated ignoring case) and the
 * five extract_* functions that return the first line meeting a condition,
 * or the first stopaiw/startaiw command, of the text.
 */
module Extractors {
  import opened Text
  import opened Records
  import opened Lists

  // ---------------------------------------------------------------------
  // extract_supported_os
  // ---------------------------------------------------------------------

  /** The present values of a list of optional values, in order. */
  function Present<T>(rs: seq<Option<T>>): (r: seq<T>)
  {
    if rs == [] then []
    else
      var last := rs[|rs| - 1];
      Present(rs[..|rs| - 1]) + (if last.Some? then [last.value] else [])
  }

  lemma {:induction false} PresentExact<T>(rs: seq<Option<T>>, x: T)
    ensures x in Present(rs) <==> exists k :: 0 <= k < |rs| && rs[k] == Some(x)
  {
    if rs != [] {
      var init := rs[..|rs| - 1];
      PresentExact(init, x);
      assert forall k :: 0 <= k < |init| ==> init[k] == rs[k];
      if x in Present(rs) && x !in Present(init) {
        assert rs[|rs| - 1] == Some(x);
      }
    }
  }

  lemma PresentStep<T>(rs: seq<Option<T>>, i: nat)
    requires i < |rs|
    ensures Present(rs[..i + 1]) == Present(rs[..i]) + (if rs[i].Some? then [rs[i].value] else [])
  {
    assert rs[..i + 1][..i] == rs[..i];
  }

  /** OS_LINE_RE (the parameter osLine) applied to one whitespace-collapsed non-empty line. */
  function OsPick(osLine: string -> bool, ln: string): (r: Option<string>)
  {
    var ln2 := Normalize(ln);
    if ln2 != [] && osLine(ln2) then Some(ln2) else None
  }

  function OsPicks(lines: seq<string>, osLine: string -> bool): (rs: seq<Option<string>>)
    ensures |rs| == |lines|
    ensures forall k :: 0 <= k < |lines| ==> rs[k] == OsPick(osLine, lines[k])
  {
    seq(|lines|, k requires 0 <= k < |lines| => OsPick(osLine, lines[k]))
  }

  /** The accepted lines, whitespace-collapsed, in order and before de-duplication. */
  function OsCandidates(lines: seq<string>, osLine: string -> bool): (r: seq<string>)
  {
    Present(OsPicks(lines, osLine))
  }

  /** A line is a candidate iff it is the normalised form of an input line, non-empty and accepted. */
  lemma OsCandidatesExact(lines: seq<string>, osLine: string -> bool, x: string)
    ensures x in OsCandidates(lines, osLine) <==>
      x != [] && osLine(x) && exists ln :: ln in lines && Normalize(ln) == x
  {
    var rs := OsPicks(lines, osLine);
    PresentExact(rs, x);
    if x != [] && osLine(x) && (exists ln :: ln in lines && Normalize(ln) == x) {
      var ln :| ln in lines && Normalize(ln) == x;
      var k :| 0 <= k < |lines| && lines[k] == ln;
      assert rs[k] == Some(x);
    }
  }

  method ExtractSupportedOs(text: string, osLine: string -> bool) returns (out: seq<string>)
    ensures out == DedupBy(OsCandidates(SplitLines(text), osLine), Lower)
  {
    var raw := SplitLines(text);
    ghost var rs := OsPicks(raw, osLine);
    var lines: seq<string> := [];
    for i := 0 to |raw|
      invariant lines == Present(rs[..i])
    {
      var ln2 := Normalize(raw[i]);
      PresentStep(rs, i);
      assert rs[i] == if ln2 != [] && osLine(ln2) then Some(ln2) else None;
      if ln2 == [] {
        continue;
      }
      if osLine(ln2) {
        lines := lines + [ln2];
      }
    }
    assert rs[..|raw|] == rs;
    out := Dedup(lines, Lower);
  }

  /**
   * The supported-OS list: accepted, whitespace-collapsed, non-empty lines of
   * the text, in text order, with every case-insensitively distinct line kept
   * once (its first occurrence) and no two equal ignoring case.
   */
  lemma SupportedOsFacts(text: string, osLine: string -> bool)
    ensures var cands := OsCandidates(SplitLines(text), osLine);
      var out := DedupBy(cands, Lower);
      && Subseq(out, cands)
      && (forall x :: x in out ==>
            x != [] && SingleSpaced(x) && osLine(x) && exists ln :: ln in SplitLines(text) && Normalize(ln) == x)
      && Keys(out, Lower) == Keys(cands, Lower)
      && (forall i, j :: 0 <= i < j < |out| ==> Lower(out[i]) != Lower(out[j]))
  {
    var cands := OsCandidates(SplitLines(text), osLine);
    var out := DedupBy(cands, Lower);
    DedupFacts(cands, Lower);
    forall x | x in out
      ensures x != [] && SingleSpaced(x) && osLine(x) && exists ln :: ln in SplitLines(text) && Normalize(ln) == x
    {
      SubseqElems(out, cands, x);
      OsCandidatesExact(SplitLines(text), osLine, x);
    }
  }

  // ---------------------------------------------------------------------
  // The first-line extractors
  // ---------------------------------------------------------------------

  /**
   * extract_property_enable_after_restart, extract_ram_requirement,
   * extract_db2_logs_space, extract_shutdown_command and
   * extract_start_command.
   */
  datatype Extractor = PrinterRestart | Ram | Db2Logs | Shutdown | Start

  /** The condition each line extractor tests on the lowered stripped line. */
  predicate LineCondition(x: Extractor, l: string) {
    match x
    case PrinterRestart =>
      Contains(l, "printer") && (Contains(l, "enable") || Contains(l, "enabled"))
      && (Contains(l, "restart") || Contains(l, "start"))
    case Ram => (Contains(l, "ram") || Contains(l, "memory")) && Contains(l, "gb")
    case Db2Logs => Contains(l, "db2") && Contains(l, "log") && (Contains(l, "gb") || Contains(l, "mb") || Contains(l, "space"))
    case _ => false
  }

  /** The characters of [-/\w]. */
  predicate IsArgChar(c: char) { IsWordChar(c) || c == '-' || c == '/' }

  /** The number of characters of [-/\w] in s from position q on. */
  function ArgRun(s: string, q: nat): (n: nat)
    requires q <= |s|
    ensures q + n <= |s|
    ensures forall i :: q <= i < q + n ==> IsArgChar(s[i])
    decreases |s| - q
  {
    if q < |s| && IsArgChar(s[q]) then 1 + ArgRun(s, q + 1) else 0
  }

  /** The number of whitespace characters in s from position q on. */
  function BlankRun(s: string, q: nat): (n: nat)
    requires q <= |s|
    ensures q + n <= |s|
    ensures forall i :: q <= i < q + n ==> IsSpace(s[i])
    decreases |s| - q
  {
    if q < |s| && IsSpace(s[q]) then 1 + BlankRun(s, q + 1) else 0
  }

  /**
   * Where the greedy group (?:\s+[-/\w]+)* that starts at q ends: each
   * round takes all whitespace and then all argument characters, and the
   * group stops before whitespace that no argument character follows.
   */
  function ArgsEnd(s: string, q: nat): (e: nat)
    requires q <= |s|
    ensures q <= e <= |s|
    decreases |s| - q
  {
    var b := BlankRun(s, q);
    var a := ArgRun(s, q + b);
    if b > 0 && a > 0 then ArgsEnd(s, q + b + a) else q
  }

  /**
   * \bname\b matches at p, ignoring case.  The names stopaiw and startaiw
   * begin and end with a word character, so each \b asks for a non-word
   * character (or the edge of the line) next to the name.
   */
  predicate CommandAt(s: string, name: string, p: nat) {
    && p + |name| <= |s|
    && Lower(s[p..p + |name|]) == name
    && (p == 0 || !IsWordChar(s[p - 1]))
    && (p + |name| == |s| || !IsWordChar(s[p + |name|]))
  }

  /** The leftmost position at or after p where the command matches (re.search). */
  function FindCommand(s: string, name: string, p: nat): (r: Option<nat>)
    requires p <= |s|
    ensures r.Some? ==> p <= r.value <= |s| && CommandAt(s, name, r.value)
    ensures forall q :: p <= q <= |s| && (r.None? || q < r.value) ==> !CommandAt(s, name, q)
    decreases |s| - p
  {
    if CommandAt(s, name, p) then Some(p)
    else if p == |s| then None
    else FindCommand(s, name, p + 1)
  }

  /** re.sub(r"\s+", " ", m.group(0)).strip() for the match at p. */
  function CommandMatch(t: string, name: string, p: nat): (v: string)
    requires CommandAt(t, name, p)
  {
    Strip(Collapse(t[p..ArgsEnd(t, p + |name|)]))
  }

  /** The normalised first match in t, if any. */
  function CommandIn(t: string, name: string): (r: Option<string>)
  {
    var m := FindCommand(t, name, 0);
    if m.None? then None else Some(CommandMatch(t, name, m.value))
  }

  /** What an extractor makes of one stripped non-empty line. */
  function Pick(x: Extractor, t: string): (r: Option<string>)
  {
    match x
    case Shutdown => CommandIn(t, "stopaiw")
    case Start => CommandIn(t, "startaiw")
    case _ => if LineCondition(x, Lower(t)) then Some(Collapse(t)) else None
  }

  /** What an extractor makes of a raw line: nothing of a blank one. */
  function PickLine(x: Extractor, ln: string): (r: Option<string>)
  {
    var t := Strip(ln);
    if t == [] then None else Pick(x, t)
  }

  /** The per-line results, in line order. */
  function Picks(x: Extractor, lines: seq<string>): (rs: seq<Option<string>>)
    ensures |rs| == |lines|
    ensures forall k :: 0 <= k < |lines| ==> rs[k] == PickLine(x, lines[k])
  {
    seq(|lines|, k requires 0 <= k < |lines| => PickLine(x, lines[k]))
  }

  /** The first present value of a list of optional values. */
  function FirstSome<T>(rs: seq<Option<T>>): (r: Option<T>)
  {
    if rs == [] then None
    else if rs[0].Some? then rs[0]
    else FirstSome(rs[1..])
  }

  /** FirstSome is None iff every value is absent, and otherwise the first value present. */
  lemma {:induction false} FirstSomeExact<T>(rs: seq<Option<T>>)
    ensures FirstSome(rs).None? <==> forall k :: 0 <= k < |rs| ==> rs[k].None?
    ensures FirstSome(rs).Some? ==>
      exists k :: 0 <= k < |rs| && rs[k] == FirstSome(rs) && forall j :: 0 <= j < k ==> rs[j].None?
  {
    if rs != [] && rs[0].None? {
      var tail := rs[1..];
      FirstSomeExact(tail);
      assert forall k :: 0 < k < |rs| ==> rs[k] == tail[k - 1];
      if FirstSome(tail).Some? {
        var k :| 0 <= k < |tail| && tail[k] == FirstSome(tail) && forall j :: 0 <= j < k ==> tail[j].None?;
        assert rs[k + 1] == tail[k];
      }
    }
  }

  /** Absent values at the front do not change FirstSome. */
  lemma {:induction false} FirstSomeSkip<T>(rs: seq<Option<T>>, i: nat)
    requires i <= |rs| && forall j :: 0 <= j < i ==> rs[j].None?
    ensures FirstSome(rs) == FirstSome(rs[i..])
  {
    if i > 0 {
      assert rs[1..][i - 1..] == rs[i..];
      FirstSomeSkip(rs[1..], i - 1);
    }
  }

  /** The result for the first non-blank line the extractor accepts, if any. */
  function FirstPicked(x: Extractor, lines: seq<string>): (r: Option<string>)
  {
    FirstSome(Picks(x, lines))
  }

  /** The loop shared by the five extractors: the first accepted stripped line wins. */
  method Extract(x: Extractor, text: string) returns (r: Option<string>)
    ensures r == FirstPicked(x, SplitLines(text))
  {
    r := FirstAcceptedLine(x, SplitLines(text));
  }

  method FirstAcceptedLine(x: Extractor, lines: seq<string>) returns (r: Option<string>)
    ensures r == FirstPicked(x, lines)
  {
    var pick := (ln: string) => PickLine(x, ln);
    r := FirstOf(lines, pick);
    assert Map(lines, pick) == Picks(x, lines);
  }

  /** An early-return loop: the first present value of f over xs. */
  method FirstOf<T, U>(xs: seq<T>, f: T -> Option<U>) returns (r: Option<U>)
    ensures r == FirstSome(Map(xs, f))
  {
    ghost var rs := Map(xs, f);
    for i := 0 to |xs|
      invariant forall j :: 0 <= j < i ==> rs[j].None?
    {
      var p := f(xs[i]);
      if p.Some? {
        FirstSomeSkip(rs, i);
        assert rs[i..][0] == p;
        return p;
      }
    }
    FirstSomeSkip(rs, |xs|);
    return None;
  }

  /** A collecting loop: every present value of f over xs, in order. */
  method AllOf<T, U>(xs: seq<T>, f: T -> Option<U>) returns (found: seq<U>)
    ensures found == Present(Map(xs, f))
  {
    ghost var rs := Map(xs, f);
    found := [];
    for i := 0 to |xs|
      invariant found == Present(rs[..i])
    {
      var p := f(xs[i]);
      PresentStep(rs, i);
      if p.Some? {
        found := found + [p.value];
      }
    }
    assert rs[..|xs|] == rs;
  }

  /**
   * The printer, RAM and DB2 extractors return the whitespace-collapsed
   * stripped form of the first non-blank line whose lowered stripped form
   * meets the condition, and None when no line does.
   */
  lemma LineExtractorSpec(x: Extractor, text: string)
    requires x.PrinterRestart? || x.Ram? || x.Db2Logs?
    ensures var lines := SplitLines(text);
      && (FirstPicked(x, lines).None? <==>
            forall k :: 0 <= k < |lines| ==> !LineAccepted(x, lines[k]))
      && (FirstPicked(x, lines).Some? ==>
            exists k :: 0 <= k < |lines| && LineAccepted(x, lines[k])
              && FirstPicked(x, lines) == Some(Normalize(lines[k]))
              && forall j :: 0 <= j < k ==> !LineAccepted(x, lines[j]))
  {
    var lines := SplitLines(text);
    var rs := Picks(x, lines);
    FirstSomeExact(rs);
    forall k | 0 <= k < |lines|
      ensures rs[k] == (if LineAccepted(x, lines[k]) then Some(Normalize(lines[k])) else None)
    {
    }
  }

  /** A line a line extractor accepts: non-blank, and its lowered stripped form meets the condition. */
  predicate LineAccepted(x: Extractor, ln: string) {
    Strip(ln) != [] && LineCondition(x, Lower(Strip(ln)))
  }

  // ---------------------------------------------------------------------
  // The shape of an extracted command
  // ---------------------------------------------------------------------

  /** A command name of STOP_RE or START_RE: lower-case ASCII letters. */
  predicate CommandName(name: string) {
    name != [] && forall i :: 0 <= i < |name| ==> IsLowerLetter(name[i])
  }

  /** The text the greedy group covers is whitespace and argument characters, ending with the latter. */
  lemma {:induction false} ArgsEndFacts(s: string, q: nat)
    requires q <= |s|
    ensures BlankOr(s[q..ArgsEnd(s, q)], IsArgChar)
    ensures ArgsEnd(s, q) > q ==> IsArgChar(s[ArgsEnd(s, q) - 1])
    decreases |s| - q
  {
    var b := BlankRun(s, q);
    var a := ArgRun(s, q + b);
    if b > 0 && a > 0 {
      var m := q + b + a;
      ArgsEndFacts(s, m);
      var e := ArgsEnd(s, m);
      assert forall i :: q <= i < m ==> IsSpace(s[i]) || IsArgChar(s[i]);
      BlankOrExtend(s, q, m, e);
      if e == m {
        assert IsArgChar(s[m - 1]);
      }
      assert ArgsEnd(s, q) == e;
    } else {
      assert ArgsEnd(s, q) == q;
    }
  }

  lemma BlankOrExtend(s: string, q: nat, m: nat, e: nat)
    requires q <= m <= e <= |s| && BlankOr(s[m..e], IsArgChar)
    requires forall i :: q <= i < m ==> IsSpace(s[i]) || IsArgChar(s[i])
    ensures BlankOr(s[q..e], IsArgChar)
  {
    forall i | 0 <= i < e - q ensures IsSpace(s[q..e][i]) || IsArgChar(s[q..e][i]) {
      assert s[q..e][i] == s[q + i];
      if q + i >= m {
        assert s[m..e][q + i - m] == s[q + i];
      }
    }
  }

  /** v starts with name, ignoring the case of v. */
  predicate NameAt(v: string, name: string) {
    |name| <= |v| && forall i :: 0 <= i < |name| ==> LowerChar(v[i]) == name[i]
  }

  /**
   * The shape of an extracted command: the command name in some case, the
   * rest single-spaced, no blank at either end, and only argument
   * characters and single spaces.
   */
  predicate CommandShaped(v: string, name: string) {
    && v != [] && NameAt(v, name)
    && SingleSpaced(v) && !IsSpace(v[0]) && !IsSpace(v[|v| - 1])
    && forall i :: 0 <= i < |v| ==> v[i] == ' ' || IsArgChar(v[i])
  }

  /** The matched text: the name in some case, then whitespace and argument characters. */
  lemma MatchedText(m: string, name: string)
    requires CommandName(name) && NameAt(m, name)
    requires forall i :: |name| <= i < |m| ==> IsSpace(m[i]) || IsArgChar(m[i])
    ensures forall i :: 0 <= i < |name| ==> !IsSpace(m[i])
    ensures BlankOr(m, IsArgChar)
  {
    forall i | 0 <= i < |name| ensures IsLetter(m[i]) {
      assert LowerChar(m[i]) == name[i];
    }
  }

  /** Collapsing a name followed by arguments keeps the name and ends with an argument character. */
  lemma CollapsedCommand(m: string, name: string)
    requires CommandName(name) && NameAt(m, name)
    requires forall i :: |name| <= i < |m| ==> IsSpace(m[i]) || IsArgChar(m[i])
    requires !IsSpace(m[|m| - 1])
    ensures CommandShaped(Strip(Collapse(m)), name)
  {
    MatchedText(m, name);
    CollapseKeepsHead(m, |name|);
    CollapseEdges(m);
    CollapseSingleSpaced(m);
    CollapseArgChars(m);
    StripNoEdgeSpace(Collapse(m));
  }

  lemma CollapseKeepsHead(m: string, n: nat)
    requires n <= |m| && forall i :: 0 <= i < n ==> !IsSpace(m[i])
    ensures n <= |Collapse(m)| && forall i :: 0 <= i < n ==> Collapse(m)[i] == m[i]
  {
    var head := m[..n];
    assert m == head + m[n..];
    CollapseNonBlankPrefix(head, m[n..]);
  }

  lemma CollapseArgChars(m: string)
    requires BlankOr(m, IsArgChar)
    ensures forall i :: 0 <= i < |Collapse(m)| ==> Collapse(m)[i] == ' ' || IsArgChar(Collapse(m)[i])
  {
    CollapseSingleSpaced(m);
    CollapseBlankOr(m, IsArgChar);
  }

  /** Every command the shutdown and start extractors return has the shape above. */
  lemma CommandShape(t: string, name: string)
    requires CommandName(name) && CommandIn(t, name).Some?
    ensures CommandShaped(CommandIn(t, name).value, name)
  {
    MatchShape(t, name, FindCommand(t, name, 0).value);
  }

  lemma MatchShape(t: string, name: string, p: nat)
    requires CommandName(name) && CommandAt(t, name, p)
    ensures CommandShaped(CommandMatch(t, name, p), name)
  {
    ArgsEndFacts(t, p + |name|);
    MatchedAt(t, name, p, ArgsEnd(t, p + |name|));
  }

  /** MatchShape, for the end e of the greedy group. */
  lemma MatchedAt(t: string, name: string, p: nat, e: nat)
    requires CommandName(name) && p + |name| <= e <= |t| && Lower(t[p..p + |name|]) == name
    requires BlankOr(t[p + |name|..e], IsArgChar) && (e > p + |name| ==> IsArgChar(t[e - 1]))
    ensures CommandShaped(Strip(Collapse(t[p..e])), name)
  {
    var n := |name|;
    MatchHead(t, name, p, e);
    MatchTail(t, p, n, e);
    MatchLast(t, name, p, e);
    CollapsedCommand(t[p..e], name);
  }

  /** The matched text begins with the name, in some case. */
  lemma MatchHead(t: string, name: string, p: nat, e: nat)
    requires p + |name| <= e <= |t| && Lower(t[p..p + |name|]) == name
    ensures NameAt(t[p..e], name)
  {
    forall i | 0 <= i < |name| ensures LowerChar(t[p..e][i]) == name[i] {
      assert t[p..e][i] == t[p..p + |name|][i];
    }
  }

  /** Past the name, the matched text is the greedy group of blanks and argument characters. */
  lemma MatchTail(t: string, p: nat, n: nat, e: nat)
    requires p + n <= e <= |t| && BlankOr(t[p + n..e], IsArgChar)
    ensures var m := t[p..e]; forall i :: n <= i < |m| ==> IsSpace(m[i]) || IsArgChar(m[i])
  {
    forall i | n <= i < e - p ensures IsSpace(t[p..e][i]) || IsArgChar(t[p..e][i]) {
      assert t[p..e][i] == t[p + n..e][i - n];
    }
  }

  /** The matched text ends with a letter of the name or an argument character. */
  lemma MatchLast(t: string, name: string, p: nat, e: nat)
    requires CommandName(name) && p + |name| <= e <= |t| && Lower(t[p..p + |name|]) == name
    requires e > p + |name| ==> IsArgChar(t[e - 1])
    ensures !IsSpace(t[p..e][e - p - 1])
  {
    assert t[p..e][e - p - 1] == t[e - 1];
    if e == p + |name| {
      assert LowerChar(t[e - 1]) == name[|name| - 1];
    }
  }

  /**
   * The shutdown and start extractors return a command found in the first
   * non-blank line holding a match, in the shape CommandShape states, and
   * None when no line holds one.
   */
  lemma CommandExtractorSpec(x: Extractor, text: string)
    requires x.Shutdown? || x.Start?
    ensures var lines := SplitLines(text);
      var name := if x.Shutdown? then "stopaiw" else "startaiw";
      && CommandName(name)
      && (FirstPicked(x, lines).None? <==> forall k :: 0 <= k < |lines| ==> CommandIn(Strip(lines[k]), name).None?)
      && (FirstPicked(x, lines).Some? ==>
            exists k :: 0 <= k < |lines| && FirstPicked(x, lines) == CommandIn(Strip(lines[k]), name)
              && forall j :: 0 <= j < k ==> CommandIn(Strip(lines[j]), name).None?)
  {
    var lines := SplitLines(text);
    var rs := Picks(x, lines);
    CommandNames();
    FirstSomeExact(rs);
    forall k | 0 <= k < |lines| ensures rs[k] == CommandIn(Strip(lines[k]), if x.Shutdown? then "stopaiw" else "startaiw") {
      CommandPickLine(x, lines[k]);
    }
  }

  lemma CommandNames()
    ensures CommandName("stopaiw") && CommandName("startaiw")
  {
    var stop := "stopaiw";
    var start := "startaiw";
    assert stop == ['s', 't', 'o', 'p', 'a', 'i', 'w'];
    assert start == ['s', 't', 'a', 'r', 't', 'a', 'i', 'w'];
    assert forall i :: 0 <= i < |stop| ==> IsLowerLetter(stop[i]);
    assert forall i :: 0 <= i < |start| ==> IsLowerLetter(start[i]);
  }

  /** A blank line holds no command, so skipping it changes nothing. */
  lemma CommandPickLine(x: Extractor, ln: string)
    requires x.Shutdown? || x.Start?
    ensures PickLine(x, ln) == CommandIn(Strip(ln), if x.Shutdown? then "stopaiw" else "startaiw")
  {
    CommandNames();
    if Strip(ln) == [] {
      assert !CommandAt([], if x.Shutdown? then "stopaiw" else "startaiw", 0);
    }
  }
}
