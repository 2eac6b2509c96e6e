/**
 * api/verify.py: claim splitting and citation coverage of an answer.  The
 * CITE_RE search is an explicit predicate; the two loops of the source are
 * methods proved against the functions ClaimsOf and Outcome.
 */
module Verify {
  import opened Text
  import opened Sorting

  /** The default min_coverage of verify_citations. */
  const DefaultMinCoverage: real := 0.85

  /** The payload cap on unsupported_claim_texts. */
  const MaxListed: nat := 12

  // ---------------------------------------------------------------------
  // split_claims
  // ---------------------------------------------------------------------

  /** The number of digits s starts with. */
  function DigitRun(s: string): (n: nat)
    ensures n <= |s|
    ensures forall i :: 0 <= i < n ==> IsDigit(s[i])
    ensures n == |s| || !IsDigit(s[n])
  {
    if s != [] && IsDigit(s[0]) then 1 + DigitRun(s[1..]) else 0
  }

  /** re.match(r"^\d+\.\s+", ln): digits, a dot, then whitespace. */
  predicate IsNumberedStep(ln: string) {
    var n := DigitRun(ln);
    1 <= n && n + 1 < |ln| && ln[n] == '.' && IsSpace(ln[n + 1])
  }

  /** A line split_claims keeps, after stripping. */
  predicate IsClaim(ln: string) {
    && !StartsWith(ln, "#")
    && (StartsWith(ln, "-") || StartsWith(ln, "*") || IsNumberedStep(ln) || |ln| >= 25)
  }

  /** [ln.strip() for ln in lines if ln.strip()] */
  function StrippedLines(raw: seq<string>): (lines: seq<string>)
  {
    if raw == [] then []
    else
      var ln := Strip(raw[|raw| - 1]);
      StrippedLines(raw[..|raw| - 1]) + (if ln != "" then [ln] else [])
  }

  /** The claims among the stripped lines, in order. */
  function ClaimsOf(lines: seq<string>): (claims: seq<string>)
  {
    if lines == [] then []
    else
      var ln := lines[|lines| - 1];
      ClaimsOf(lines[..|lines| - 1]) + (if IsClaim(ln) then [ln] else [])
  }

  /** split_claims(markdown) */
  function Claims(markdown: string): (claims: seq<string>)
  {
    ClaimsOf(StrippedLines(SplitLines(markdown)))
  }

  /** The tests split_claims applies to one line, in its order. */
  method ClassifyLine(ln: string) returns (keep: bool)
    ensures keep == IsClaim(ln)
  {
    if StartsWith(ln, "#") {
      return false;
    }
    if StartsWith(ln, "-") || StartsWith(ln, "*") || IsNumberedStep(ln) {
      return true;
    }
    keep := |ln| >= 25;
  }

  lemma ClaimsSnoc(lines: seq<string>, k: nat)
    requires k < |lines|
    ensures ClaimsOf(lines[..k + 1]) == ClaimsOf(lines[..k]) + (if IsClaim(lines[k]) then [lines[k]] else [])
  {
    assert lines[..k + 1][..k] == lines[..k];
  }

  method SplitClaims(markdown: string) returns (claims: seq<string>)
    ensures claims == Claims(markdown)
  {
    var lines := StrippedLines(SplitLines(markdown));
    claims := [];
    for k := 0 to |lines|
      invariant claims == ClaimsOf(lines[..k])
    {
      var ln := lines[k];
      ClaimsSnoc(lines, k);
      var keep := ClassifyLine(ln);
      if keep {
        claims := claims + [ln];
      }
    }
    assert lines[..|lines|] == lines;
  }

  /** The stripped lines are exactly the non-empty stripped forms of the raw lines. */
  lemma {:induction false} StrippedLinesExact(raw: seq<string>, x: string)
    ensures x in StrippedLines(raw) <==> x != "" && exists k :: 0 <= k < |raw| && Strip(raw[k]) == x
  {
    if raw != [] {
      var init := raw[..|raw| - 1];
      StrippedLinesExact(init, x);
      assert raw == init + [raw[|raw| - 1]];
    }
  }

  /** The claims are exactly the lines meeting the claim rule, so never a heading. */
  lemma {:induction false} ClaimsExact(lines: seq<string>, x: string)
    ensures |ClaimsOf(lines)| <= |lines|
    ensures x in ClaimsOf(lines) <==> x in lines && IsClaim(x)
  {
    if lines != [] {
      var init := lines[..|lines| - 1];
      ClaimsExact(init, x);
      assert lines == init + [lines[|lines| - 1]];
    }
  }

  /**
   * A claim of split_claims is a non-empty stripped line of the answer
   * that is no heading and is a bullet, a numbered step or at least 25
   * characters long; every such line is a claim.
   */
  lemma ClaimsOfAnswer(markdown: string, x: string)
    ensures x in Claims(markdown) <==>
      && x != "" && IsClaim(x)
      && exists k :: 0 <= k < |SplitLines(markdown)| && Strip(SplitLines(markdown)[k]) == x
    ensures x in Claims(markdown) ==> Strip(x) == x && !StartsWith(x, "#")
  {
    ClaimsExact(StrippedLines(SplitLines(markdown)), x);
    StrippedLinesExact(SplitLines(markdown), x);
    if x in Claims(markdown) {
      var k :| 0 <= k < |SplitLines(markdown)| && Strip(SplitLines(markdown)[k]) == x;
      StripIdempotent(SplitLines(markdown)[k]);
    }
  }

  // ---------------------------------------------------------------------
  // CITE_RE = \[[^\]]*chunk:\s*[A-Za-z0-9_\-]+\]  (IGNORECASE)
  // ---------------------------------------------------------------------

  predicate IsIdChar(c: char) { IsWordChar(c) || c == '-' }

  /**
   * A match of CITE_RE spanning c[i..l+1]: "[" at i, no "]" before j,
   * "chunk:" in any case at j, whitespace up to k, an identifier k..l and
   * "]" at l.
   */
  predicate CiteAt(c: string, i: nat, j: nat, k: nat, l: nat)
    requires i < j && j + 6 <= k < l < |c|
  {
    && c[i] == '['
    && (forall p :: i < p < j ==> c[p] != ']')
    && Lower(c[j..j + 6]) == "chunk:"
    && (forall p :: j + 6 <= p < k ==> IsSpace(c[p]))
    && (forall p :: k <= p < l ==> IsIdChar(c[p]))
    && c[l] == ']'
  }

  /** CITE_RE.search(c) is not None. */
  predicate HasCitation(c: string) {
    exists i, j, k, l | 0 <= i < j && j + 6 <= k < l < |c| :: CiteAt(c, i, j, k, l)
  }

  /** A citation of the form "[" + text + "chunk:" + spaces + id + "]" is found anywhere in a line. */
  lemma CitationFound(pre: string, mid: string, spaces: string, id: string, post: string)
    requires forall p :: 0 <= p < |mid| ==> mid[p] != ']'
    requires forall p :: 0 <= p < |spaces| ==> IsSpace(spaces[p])
    requires |id| > 0 && forall p :: 0 <= p < |id| ==> IsIdChar(id[p])
    ensures HasCitation(pre + "[" + mid + "chunk:" + spaces + id + "]" + post)
  {
    var c := pre + "[" + mid + "chunk:" + spaces + id + "]" + post;
    var i := |pre|;
    var j := i + 1 + |mid|;
    var k := j + 6 + |spaces|;
    var l := k + |id|;
    assert c[j..j + 6] == "chunk:";
    assert forall p :: i < p < j ==> c[p] == mid[p - i - 1];
    assert forall p :: j + 6 <= p < k ==> c[p] == spaces[p - j - 6];
    assert forall p :: k <= p < l ==> c[p] == id[p - k];
    assert CiteAt(c, i, j, k, l);
  }

  /** Without both brackets there is no citation. */
  lemma NoBracketNoCitation(c: string)
    requires forall p :: 0 <= p < |c| ==> c[p] != '[' || forall p :: 0 <= p < |c| ==> c[p] != ']'
    ensures !HasCitation(c)
  {
  }

  // ---------------------------------------------------------------------
  // verify_citations
  // ---------------------------------------------------------------------

  datatype Verification = Verification(
    coverage: real,
    unsupported: nat,
    total: nat,
    needsConfirmation: bool,
    unsupportedTexts: seq<string>)

  /** The number of cited claims. */
  function CitedCount(claims: seq<string>): (n: nat)
    ensures n <= |claims|
  {
    if claims == [] then 0
    else CitedCount(claims[..|claims| - 1]) + (if HasCitation(claims[|claims| - 1]) then 1 else 0)
  }

  /** The uncited claims, in order. */
  function Uncited(claims: seq<string>): (r: seq<string>)
  {
    if claims == [] then []
    else
      var c := claims[|claims| - 1];
      Uncited(claims[..|claims| - 1]) + (if HasCitation(c) then [] else [c])
  }

  /** The verification of a list of claims against a threshold. */
  function Outcome(claims: seq<string>, minCoverage: real): (v: Verification)
  {
    if claims == [] then Verification(0.0, 0, 0, true, [])
    else
      var coverage := CitedCount(claims) as real / |claims| as real;
      var uncited := Uncited(claims);
      Verification(coverage, |claims| - CitedCount(claims), |claims|, coverage < minCoverage,
        uncited[..Min(MaxListed, |uncited|)])
  }

  /** The counting loop of verify_citations. */
  method CountCitations(claims: seq<string>) returns (supported: nat, unsupportedTexts: seq<string>)
    ensures supported == CitedCount(claims)
    ensures unsupportedTexts == Uncited(claims)
  {
    supported := 0;
    unsupportedTexts := [];
    for i := 0 to |claims|
      invariant supported == CitedCount(claims[..i])
      invariant unsupportedTexts == Uncited(claims[..i])
    {
      var c := claims[i];
      assert claims[..i + 1][..i] == claims[..i];
      if HasCitation(c) {
        supported := supported + 1;
      } else {
        unsupportedTexts := unsupportedTexts + [c];
      }
    }
    assert claims[..|claims|] == claims;
  }

  method VerifyCitations(answer: string, minCoverage: real) returns (v: Verification)
    ensures v == Outcome(Claims(answer), minCoverage)
  {
    var claims := SplitClaims(answer);
    if |claims| == 0 {
      return Verification(0.0, 0, 0, true, []);
    }
    var supported, unsupportedTexts := CountCitations(claims);
    var total := |claims|;
    var coverage := supported as real / total as real;
    v := Verification(coverage, total - supported, total, coverage < minCoverage,
      unsupportedTexts[..Min(MaxListed, |unsupportedTexts|)]);
  }

  // ---------------------------------------------------------------------
  // Properties of the outcome
  // ---------------------------------------------------------------------

  /** Every claim is cited or listed as uncited, in claim order. */
  lemma {:induction false} UncitedExact(claims: seq<string>)
    ensures CitedCount(claims) + |Uncited(claims)| == |claims|
    ensures forall c :: c in Uncited(claims) <==> c in claims && !HasCitation(c)
  {
    if claims != [] {
      var init := claims[..|claims| - 1];
      UncitedExact(init);
      assert claims == init + [claims[|claims| - 1]];
    }
  }

  lemma CoverageRatio(s: nat, t: nat)
    requires s <= t && t > 0
    ensures 0.0 <= s as real / t as real <= 1.0
  {
    assert (s as real / t as real) * t as real == s as real;
  }

  /**
   * Supported and unsupported claims add up to the total, the coverage is
   * their ratio in [0, 1], and the listed texts are the first twelve
   * uncited claims.
   */
  lemma OutcomeCounts(claims: seq<string>, minCoverage: real)
    requires claims != []
    ensures var v := Outcome(claims, minCoverage);
      && v.total == |claims|
      && v.unsupported == |Uncited(claims)|
      && v.coverage == (v.total - v.unsupported) as real / v.total as real
      && 0.0 <= v.coverage <= 1.0
      && (v.needsConfirmation <==> v.coverage < minCoverage)
      && |v.unsupportedTexts| == Min(MaxListed, v.unsupported)
      && v.unsupportedTexts == Uncited(claims)[..|v.unsupportedTexts|]
  {
    UncitedExact(claims);
    CoverageRatio(CitedCount(claims), |claims|);
  }

  /** A claimless answer can never pass. */
  lemma NoClaims(minCoverage: real)
    ensures Outcome([], minCoverage) == Verification(0.0, 0, 0, true, [])
    ensures Outcome([], minCoverage).needsConfirmation
  {
  }

  lemma {:induction false} AllCitedNoneUncited(claims: seq<string>)
    requires forall c :: c in claims ==> HasCitation(c)
    ensures Uncited(claims) == []
  {
    if claims != [] {
      var init := claims[..|claims| - 1];
      assert claims[|claims| - 1] in claims;
      assert forall c :: c in init ==> c in claims;
      AllCitedNoneUncited(init);
    }
  }

  /** When every claim is cited the coverage is 1.0 and nothing is flagged. */
  lemma AllCited(claims: seq<string>, minCoverage: real)
    requires claims != [] && forall c :: c in claims ==> HasCitation(c)
    requires minCoverage <= 1.0
    ensures Outcome(claims, minCoverage).coverage == 1.0
    ensures !Outcome(claims, minCoverage).needsConfirmation
    ensures Outcome(claims, minCoverage).unsupportedTexts == []
  {
    AllCitedNoneUncited(claims);
    OutcomeCounts(claims, minCoverage);
    var n := |claims| as real;
    assert n / n == 1.0;
  }

  /** Lines that are already stripped, non-empty claims are kept as they are. */
  lemma {:induction false} ClaimLinesKept(lines: seq<string>)
    requires forall k :: 0 <= k < |lines| ==> lines[k] != "" && Strip(lines[k]) == lines[k] && IsClaim(lines[k])
    ensures StrippedLines(lines) == lines
    ensures ClaimsOf(lines) == lines
  {
    if lines != [] {
      var init := lines[..|lines| - 1];
      ClaimLinesKept(init);
      assert init + [lines[|lines| - 1]] == lines;
    }
  }

  /** A '\n'-join of newline-free claim lines splits back into exactly those claims. */
  lemma JoinedClaims(lines: seq<string>)
    requires |lines| > 0
    requires forall k :: 0 <= k < |lines| ==>
      lines[k] != "" && Strip(lines[k]) == lines[k] && IsClaim(lines[k]) && NoNewline(lines[k])
    ensures Claims(Join("\n", lines)) == lines
  {
    SplitLinesJoin(lines);
    ClaimLinesKept(lines);
  }

  /** With the default threshold, one uncited claim among seven or more is tolerated. */
  lemma OneUncitedTolerated(claims: seq<string>)
    requires |claims| >= 7 && |Uncited(claims)| == 1
    ensures !Outcome(claims, DefaultMinCoverage).needsConfirmation
    ensures Outcome(claims, DefaultMinCoverage).unsupported == 1
  {
    UncitedExact(claims);
    OneShortRatio(|claims|);
  }

  /** One uncited claim among six or fewer is flagged under the default threshold. */
  lemma OneUncitedAmongFewFlagged(claims: seq<string>)
    requires 1 <= |claims| <= 6 && |Uncited(claims)| == 1
    ensures Outcome(claims, DefaultMinCoverage).needsConfirmation
  {
    UncitedExact(claims);
    OneShortRatio(|claims|);
  }

  /** (n - 1) / n reaches 0.85 exactly from n = 7 on. */
  lemma OneShortRatio(n: nat)
    requires n > 0
    ensures (n - 1) as real / n as real >= DefaultMinCoverage <==> n >= 7
  {
    var t := n as real;
    var q := (n - 1) as real / t;
    assert q * t == t - 1.0;
    if n >= 7 {
      assert (q - 0.85) * t == 0.15 * t - 1.0;
    } else {
      assert (0.85 - q) * t == 1.0 - 0.15 * t;
    }
  }
}
