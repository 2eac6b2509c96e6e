/**
 * The answer-building helpers of api/synthesis.py: the citation format
 * (cite), the keyword ranking of evidence (pick_best), the de-duplicated
 * cited bullets (format_bullets_with_citations) and the Windows test used
 * to split OS lines.
 */
module Synthesis {
  import opened Text
  import opened Records
  import opened Sorting
  import opened Lists
  import opened Verify
  import Chunker

  // ---------------------------------------------------------------------
  // cite
  // ---------------------------------------------------------------------

  /** f"{src['doc_name']}": a null document name is rendered as "None". */
  function DocLabel(d: Option<string>): string {
    match d
    case None => "None"
    case Some(s) => s
  }

  /** cite(src) */
  function Cite(c: Chunk): string {
    "[" + DocLabel(c.docName) + " | p." + ShowNat(c.pageStart) + "-" + ShowNat(c.pageEnd)
      + " | chunk: " + c.chunkId + "]"
  }

  /** The middle of a citation, between its "[" and its "chunk:". */
  function CiteMiddle(c: Chunk): string {
    DocLabel(c.docName) + " | p." + ShowNat(c.pageStart) + "-" + ShowNat(c.pageEnd) + " | "
  }

  /**
   * A chunk whose citation CITE_RE recognises: a document label without "]"
   * (nor a line break) and a non-empty identifier of [A-Za-z0-9_-].
   */
  predicate Citable(c: Chunk) {
    && (forall p :: 0 <= p < |DocLabel(c.docName)| ==>
          DocLabel(c.docName)[p] != ']' && DocLabel(c.docName)[p] != '\n')
    && c.chunkId != []
    && forall p :: 0 <= p < |c.chunkId| ==> IsIdChar(c.chunkId[p])
  }

  lemma CiteSplit(c: Chunk)
    ensures Cite(c) == "[" + CiteMiddle(c) + "chunk:" + " " + c.chunkId + "]"
  {
  }

  /** A citation is bracketed whatever the chunk. */
  lemma CiteEnds(c: Chunk)
    ensures Cite(c) != [] && Cite(c)[0] == '[' && Cite(c)[|Cite(c)| - 1] == ']'
  {
    CiteSplit(c);
  }

  /** No "]" and no line break. */
  predicate Clean(s: string) {
    forall p :: 0 <= p < |s| ==> s[p] != ']' && s[p] != '\n'
  }

  lemma CleanConcat(a: string, b: string)
    requires Clean(a) && Clean(b)
    ensures Clean(a + b)
  {
    assert forall p :: |a| <= p < |a + b| ==> (a + b)[p] == b[p - |a|];
  }

  lemma CiteMiddleClean(c: Chunk)
    requires Citable(c)
    ensures Clean(CiteMiddle(c))
  {
    var d := DocLabel(c.docName);
    var a := ShowNat(c.pageStart);
    var b := ShowNat(c.pageEnd);
    assert Clean(" | p.") by {
      var t := " | p.";
      forall p | 0 <= p < |t| ensures t[p] != ']' && t[p] != '\n' {
        assert t[p] in {' ', '|', 'p', '.'};
      }
    }
    assert Clean(" | ") by {
      var t := " | ";
      forall p | 0 <= p < |t| ensures t[p] != ']' && t[p] != '\n' {
        assert t[p] in {' ', '|'};
      }
    }
    CleanConcat(d, " | p.");
    CleanConcat(d + " | p.", a);
    CleanConcat(d + " | p." + a, "-");
    CleanConcat(d + " | p." + a + "-", b);
    CleanConcat(d + " | p." + a + "-" + b, " | ");
  }

  /**
   * The shape of a citation made of a clean middle and an identifier: CITE_RE
   * matches it from its first to its last character, and the identifier it
   * matches is id.
   */
  lemma CitationShape(m: string, id: string)
    requires Clean(m)
    requires id != [] && forall p :: 0 <= p < |id| ==> IsIdChar(id[p])
    ensures var r := "[" + m + "chunk:" + " " + id + "]";
      var k := |r| - 1 - |id|;
      7 <= k < |r| - 1 && CiteAt(r, 0, k - 7, k, |r| - 1) && r[k..|r| - 1] == id
  {
    var r := "[" + m + "chunk:" + " " + id + "]";
    var k := |r| - 1 - |id|;
    assert k == |m| + 8;
    assert r[k - 7..k - 1] == "chunk:";
    assert forall p :: 0 < p < k - 7 ==> r[p] == m[p - 1];
    assert r[k - 1] == ' ';
    assert forall p :: k <= p < |r| - 1 ==> r[p] == id[p - k];
    assert r[k..|r| - 1] == id;
  }

  /**
   * CITE_RE finds the citation of a citable chunk wherever it is placed in
   * a line, and the identifier it matches is the chunk id.
   */
  lemma CiteSupported(c: Chunk, pre: string, post: string)
    requires Citable(c)
    ensures HasCitation(pre + Cite(c) + post)
    ensures var r := Cite(c);
      var k := |r| - 1 - |c.chunkId|;
      7 <= k < |r| - 1 && CiteAt(r, 0, k - 7, k, |r| - 1) && r[k..|r| - 1] == c.chunkId
  {
    var m := CiteMiddle(c);
    CiteSplit(c);
    CiteMiddleClean(c);
    assert pre + Cite(c) + post == pre + "[" + m + "chunk:" + " " + c.chunkId + "]" + post;
    CitationFound(pre, m, " ", c.chunkId, post);
    CitationShape(m, c.chunkId);
  }

  /** A citation of a citable chunk is one line ending in "]". */
  lemma CiteOneLine(c: Chunk)
    requires Citable(c)
    ensures NoNewline(Cite(c)) && Cite(c)[0] == '[' && Cite(c)[|Cite(c)| - 1] == ']'
  {
    var m := CiteMiddle(c);
    CiteSplit(c);
    CiteMiddleClean(c);
    var id := c.chunkId;
    assert forall p :: 0 <= p < |id| ==> id[p] != '\n' by {
      forall p | 0 <= p < |id| ensures id[p] != '\n' {
        assert IsIdChar(id[p]);
      }
    }
    var t := "[" + m + "chunk:" + " " + id + "]";
    forall p | 0 <= p < |t| ensures t[p] != '\n' {
      if 0 < p <= |m| {
        assert t[p] == m[p - 1];
      } else if |m| < p < |m| + 8 {
        assert t[p] == "chunk: "[p - |m| - 1];
      } else if |m| + 8 <= p < |t| - 1 {
        assert t[p] == id[p - |m| - 8];
      }
    }
  }

  /**
   * Every chunk chunk_document emits is citable once its document name
   * holds no "]": its id is [A-Za-z0-9_] only and never empty.
   */
  lemma ChunkCitable(c: Chunk, k: nat, docName: string, digest: string -> Chunker.Sha1Hex)
    requires Chunker.WellFormed(c, k, docName, digest)
    requires forall p :: 0 <= p < |docName| ==> docName[p] != ']' && docName[p] != '\n'
    ensures Citable(c)
  {
    Chunker.ChunkIdShape(docName, c.pageStart, c.pageEnd, c.section, k, c.text, digest);
  }

  // ---------------------------------------------------------------------
  // pick_best
  // ---------------------------------------------------------------------

  /** The number of keywords whose lower-case form occurs in txt. */
  function KeywordScore(txt: string, keywords: seq<string>): (n: nat)
    ensures n <= |keywords|
  {
    if keywords == [] then 0
    else
      KeywordScore(txt, keywords[..|keywords| - 1])
        + (if Contains(txt, Lower(keywords[|keywords| - 1])) then 1 else 0)
  }

  /** A chunk scores zero iff none of the keywords occurs in it. */
  lemma {:induction false} KeywordScoreZero(txt: string, keywords: seq<string>)
    ensures KeywordScore(txt, keywords) == 0 <==>
      forall k :: 0 <= k < |keywords| ==> !Contains(txt, Lower(keywords[k]))
  {
    if keywords != [] {
      var init := keywords[..|keywords| - 1];
      KeywordScoreZero(txt, init);
      assert forall k :: 0 <= k < |init| ==> init[k] == keywords[k];
    }
  }

  /** A chunk scores full marks iff every keyword occurs in it. */
  lemma {:induction false} KeywordScoreFull(txt: string, keywords: seq<string>)
    ensures KeywordScore(txt, keywords) == |keywords| <==>
      forall k :: 0 <= k < |keywords| ==> Contains(txt, Lower(keywords[k]))
  {
    if keywords != [] {
      var init := keywords[..|keywords| - 1];
      KeywordScoreFull(txt, init);
      assert forall k :: 0 <= k < |init| ==> init[k] == keywords[k];
    }
  }

  /** The inner loop of pick_best. */
  method CountKeywords(txt: string, keywords: seq<string>) returns (score: nat)
    ensures score == KeywordScore(txt, keywords)
  {
    score := 0;
    for i := 0 to |keywords|
      invariant score == KeywordScore(txt, keywords[..i])
    {
      assert keywords[..i + 1][..i] == keywords[..i];
      if Contains(txt, Lower(keywords[i])) {
        score := score + 1;
      }
    }
    assert keywords[..|keywords|] == keywords;
  }

  /** The score of one evidence item: keyword hits in its lower-cased text. */
  function ScoreOf(h: Hit, keywords: seq<string>): nat {
    KeywordScore(Lower(h.chunk.text), keywords)
  }

  datatype Scored = Scored(score: nat, hit: Hit)

  function ScoreKey(s: Scored): real { s.score as real }

  /** [(score(e), e) for e in evidence] */
  function ScoreAll(evidence: seq<Hit>, keywords: seq<string>): (ss: seq<Scored>)
    ensures |ss| == |evidence|
    ensures forall k :: 0 <= k < |evidence| ==> ss[k] == Scored(ScoreOf(evidence[k], keywords), evidence[k])
  {
    seq(|evidence|, k requires 0 <= k < |evidence| => Scored(ScoreOf(evidence[k], keywords), evidence[k]))
  }

  /** [e for s, e in scored if s > 0] */
  function Positives(ss: seq<Scored>): (hs: seq<Hit>)
    ensures |hs| <= |ss|
  {
    if ss == [] then []
    else (if ss[0].score > 0 then [ss[0].hit] else []) + Positives(ss[1..])
  }

  /** The evidence items with a positive score, in evidence order. */
  function PositiveEvidence(evidence: seq<Hit>, keywords: seq<string>): seq<Hit> {
    Positives(ScoreAll(evidence, keywords))
  }

  /** pick_best(evidence, keywords) */
  function Best(evidence: seq<Hit>, keywords: seq<string>): seq<Hit> {
    var p := Positives(SortDesc(ScoreAll(evidence, keywords), ScoreKey));
    if p != [] then p else evidence[..Min(5, |evidence|)]
  }

  method PickBest(evidence: seq<Hit>, keywords: seq<string>) returns (best: seq<Hit>)
    ensures best == Best(evidence, keywords)
  {
    var scored: seq<Scored> := [];
    for i := 0 to |evidence|
      invariant |scored| == i
      invariant forall k :: 0 <= k < i ==> scored[k] == Scored(ScoreOf(evidence[k], keywords), evidence[k])
    {
      var e := evidence[i];
      var txt := Lower(e.chunk.text);
      var score := CountKeywords(txt, keywords);
      scored := scored + [Scored(score, e)];
    }
    assert scored == ScoreAll(evidence, keywords);
    scored := SortDesc(scored, ScoreKey);
    best := Positives(scored);
    if best == [] {
      best := evidence[..Min(5, |evidence|)];
    }
  }

  lemma {:induction false} PositivesConcat(a: seq<Scored>, b: seq<Scored>)
    ensures Positives(a + b) == Positives(a) + Positives(b)
  {
    if a == [] {
      assert a + b == b;
    } else {
      assert (a + b)[0] == a[0];
      assert (a + b)[1..] == a[1..] + b;
      PositivesConcat(a[1..], b);
    }
  }

  lemma {:induction false} PositivesExact(ss: seq<Scored>, h: Hit)
    ensures h in Positives(ss) <==> exists s :: s in ss && s.score > 0 && s.hit == h
  {
    if ss != [] {
      PositivesExact(ss[1..], h);
      assert forall s :: s in ss <==> s == ss[0] || s in ss[1..];
    }
  }

  lemma MultisetStep<T>(r: seq<T>, a: seq<T>, r1: seq<T>, t: seq<T>, x: seq<T>, ys: seq<T>)
    requires r == a + r1 && ys == a + t
    requires multiset(r1) == multiset(t) + multiset(x)
    ensures multiset(r) == multiset(ys) + multiset(x)
  {
  }

  /** Inserting into the sorted list adds the inserted item's filter result. */
  lemma {:induction false} PositivesInsert(x: Scored, ys: seq<Scored>)
    ensures multiset(Positives(InsertDesc(x, ys, ScoreKey))) == multiset(Positives(ys)) + multiset(Positives([x]))
  {
    if ys != [] && ScoreKey(ys[0]) >= ScoreKey(x) {
      PositivesInsert(x, ys[1..]);
      PositivesInsertLater(x, ys);
    } else {
      assert InsertDesc(x, ys, ScoreKey) == [x] + ys;
      PositivesConcat([x], ys);
    }
  }

  lemma PositivesInsertLater(x: Scored, ys: seq<Scored>)
    requires ys != [] && ScoreKey(ys[0]) >= ScoreKey(x)
    requires multiset(Positives(InsertDesc(x, ys[1..], ScoreKey))) == multiset(Positives(ys[1..])) + multiset(Positives([x]))
    ensures multiset(Positives(InsertDesc(x, ys, ScoreKey))) == multiset(Positives(ys)) + multiset(Positives([x]))
  {
    var tail := ys[1..];
    var r1 := InsertDesc(x, tail, ScoreKey);
    InsertDescAfter(x, ys, ScoreKey);
    PositivesConcat([ys[0]], r1);
    PositivesConcat([ys[0]], tail);
    MultisetStep(Positives([ys[0]] + r1), Positives([ys[0]]), Positives(r1), Positives(tail), Positives([x]),
      Positives([ys[0]] + tail));
    assert [ys[0]] + tail == ys;
  }

  /** Sorting permutes the positive items among themselves. */
  lemma {:induction false} PositivesSortPerm(xs: seq<Scored>)
    ensures multiset(Positives(SortDesc(xs, ScoreKey))) == multiset(Positives(xs))
  {
    if xs != [] {
      var init := xs[..|xs| - 1];
      var last := xs[|xs| - 1];
      PositivesSortPerm(init);
      PositivesInsert(last, SortDesc(init, ScoreKey));
      assert init + [last] == xs;
      PositivesConcat(init, [last]);
    }
  }

  /** Each scored pair carries the score of its own item. */
  ghost predicate Honest(ss: seq<Scored>, keywords: seq<string>) {
    forall s :: s in ss ==> s.score == ScoreOf(s.hit, keywords)
  }

  /** Items drawn from pairs scoring at most bound score at most bound. */
  lemma PositivesBounded(ss: seq<Scored>, keywords: seq<string>, bound: nat)
    requires Honest(ss, keywords) && forall s :: s in ss ==> s.score <= bound
    ensures forall h :: h in Positives(ss) ==> 0 < ScoreOf(h, keywords) <= bound
  {
    forall h | h in Positives(ss) ensures 0 < ScoreOf(h, keywords) <= bound {
      PositivesExact(ss, h);
    }
  }

  /** Filtering a list sorted by score keeps it sorted by score. */
  lemma {:induction false} PositivesSorted(ss: seq<Scored>, keywords: seq<string>)
    requires Honest(ss, keywords) && SortedDesc(ss, ScoreKey)
    ensures forall i, j :: 0 <= i < j < |Positives(ss)| ==>
      ScoreOf(Positives(ss)[i], keywords) >= ScoreOf(Positives(ss)[j], keywords)
    ensures forall i :: 0 <= i < |Positives(ss)| ==> ScoreOf(Positives(ss)[i], keywords) > 0
  {
    if ss != [] {
      var rest := ss[1..];
      assert Honest(rest, keywords) by {
        assert forall s :: s in rest ==> s in ss;
      }
      assert SortedDesc(rest, ScoreKey) by {
        assert forall i :: 0 <= i < |rest| ==> rest[i] == ss[i + 1];
      }
      assert forall s :: s in rest ==> s.score <= ss[0].score by {
        forall s | s in rest ensures s.score <= ss[0].score {
          var m :| 0 <= m < |rest| && rest[m] == s;
          assert rest[m] == ss[m + 1];
          assert ScoreKey(ss[0]) >= ScoreKey(ss[m + 1]);
        }
      }
      PositivesSorted(rest, keywords);
      PositivesBounded(rest, keywords, ss[0].score);
      var p := Positives(rest);
      assert forall i :: 0 <= i < |p| ==> p[i] in p;
      assert ss[0] in ss;
    }
  }

  lemma SortedScoresHonest(evidence: seq<Hit>, keywords: seq<string>)
    ensures Honest(SortDesc(ScoreAll(evidence, keywords), ScoreKey), keywords)
  {
    var ss := ScoreAll(evidence, keywords);
    var sorted := SortDesc(ss, ScoreKey);
    forall s | s in sorted ensures s.score == ScoreOf(s.hit, keywords) {
      assert s in multiset(sorted);
      assert s in multiset(ss);
    }
  }

  /** An item is a positive item of the evidence iff it is in the evidence and scores above zero. */
  lemma PositiveEvidenceExact(evidence: seq<Hit>, keywords: seq<string>, h: Hit)
    ensures h in PositiveEvidence(evidence, keywords) <==> h in evidence && ScoreOf(h, keywords) > 0
  {
    var ss := ScoreAll(evidence, keywords);
    PositivesExact(ss, h);
    if h in evidence && ScoreOf(h, keywords) > 0 {
      var k :| 0 <= k < |evidence| && evidence[k] == h;
      assert ss[k] in ss;
    }
  }

  /**
   * With some keyword hit, pick_best returns exactly the positive-score
   * items of the evidence (a permutation of them), highest score first.
   */
  lemma BestRanked(evidence: seq<Hit>, keywords: seq<string>)
    requires PositiveEvidence(evidence, keywords) != []
    ensures multiset(Best(evidence, keywords)) == multiset(PositiveEvidence(evidence, keywords))
    ensures forall i, j :: 0 <= i < j < |Best(evidence, keywords)| ==>
      ScoreOf(Best(evidence, keywords)[i], keywords) >= ScoreOf(Best(evidence, keywords)[j], keywords)
    ensures forall h :: h in Best(evidence, keywords) <==> h in evidence && ScoreOf(h, keywords) > 0
  {
    var ss := ScoreAll(evidence, keywords);
    var sorted := SortDesc(ss, ScoreKey);
    PositivesSortPerm(ss);
    assert Positives(sorted) != [] by {
      var h := PositiveEvidence(evidence, keywords)[0];
      assert h in multiset(Positives(sorted));
    }
    SortedScoresHonest(evidence, keywords);
    PositivesSorted(sorted, keywords);
    forall h ensures h in Best(evidence, keywords) <==> h in evidence && ScoreOf(h, keywords) > 0 {
      PositiveEvidenceExact(evidence, keywords, h);
      assert h in Positives(sorted) <==> h in multiset(Positives(sorted));
      assert h in PositiveEvidence(evidence, keywords) <==> h in multiset(PositiveEvidence(evidence, keywords));
    }
  }

  /** With no keyword hit at all, pick_best falls back to the first five items. */
  lemma BestFallback(evidence: seq<Hit>, keywords: seq<string>)
    requires PositiveEvidence(evidence, keywords) == []
    ensures Best(evidence, keywords) == evidence[..Min(5, |evidence|)]
  {
    var ss := ScoreAll(evidence, keywords);
    PositivesSortPerm(ss);
  }

  /** pick_best never returns nothing for non-empty evidence, and only returns evidence items. */
  lemma BestFromEvidence(evidence: seq<Hit>, keywords: seq<string>)
    ensures evidence != [] ==> Best(evidence, keywords) != []
    ensures forall h :: h in Best(evidence, keywords) ==> h in evidence
  {
    if PositiveEvidence(evidence, keywords) != [] {
      BestRanked(evidence, keywords);
    } else {
      BestFallback(evidence, keywords);
    }
  }

  /** Stability: when every item scores the same positive score, the evidence order is kept. */
  lemma BestEqualScores(evidence: seq<Hit>, keywords: seq<string>, n: nat)
    requires n > 0 && forall k :: 0 <= k < |evidence| ==> ScoreOf(evidence[k], keywords) == n
    ensures Best(evidence, keywords) == evidence
  {
    var ss := ScoreAll(evidence, keywords);
    SortDescEqualKeys(ss, ScoreKey);
    AllPositive(ss);
    assert forall k :: 0 <= k < |evidence| ==> ss[k].hit == evidence[k];
    assert Hits(ss) == evidence;
  }

  function Hits(ss: seq<Scored>): (hs: seq<Hit>)
    ensures |hs| == |ss| && forall k :: 0 <= k < |ss| ==> hs[k] == ss[k].hit
  {
    seq(|ss|, k requires 0 <= k < |ss| => ss[k].hit)
  }

  lemma {:induction false} AllPositive(ss: seq<Scored>)
    requires forall k :: 0 <= k < |ss| ==> ss[k].score > 0
    ensures Positives(ss) == Hits(ss)
  {
    if ss != [] {
      AllPositive(ss[1..]);
      assert Hits(ss) == [ss[0].hit] + Hits(ss[1..]);
    }
  }

  /** The items of hs that score exactly n, in the order of hs. */
  function ScoredAt(hs: seq<Hit>, keywords: seq<string>, n: nat): (r: seq<Hit>)
    ensures forall h :: h in r <==> h in hs && ScoreOf(h, keywords) == n
  {
    if hs == [] then []
    else (if ScoreOf(hs[0], keywords) == n then [hs[0]] else []) + ScoredAt(hs[1..], keywords, n)
  }

  lemma {:induction false} ScoredAtConcat(a: seq<Hit>, b: seq<Hit>, keywords: seq<string>, n: nat)
    ensures ScoredAt(a + b, keywords, n) == ScoredAt(a, keywords, n) + ScoredAt(b, keywords, n)
  {
    if a == [] {
      assert a + b == b;
    } else {
      assert (a + b)[0] == a[0];
      assert (a + b)[1..] == a[1..] + b;
      ScoredAtConcat(a[1..], b, keywords, n);
    }
  }

  lemma HitsConcat(a: seq<Scored>, b: seq<Scored>)
    ensures Hits(a + b) == Hits(a) + Hits(b)
  {
    assert forall k :: 0 <= k < |a + b| ==> Hits(a + b)[k] == (Hits(a) + Hits(b))[k];
  }

  /** Among honestly scored pairs, the positives scoring n are the hits of the pairs keyed n. */
  lemma {:induction false} PositivesAt(ss: seq<Scored>, keywords: seq<string>, n: nat)
    requires n > 0 && Honest(ss, keywords)
    ensures ScoredAt(Positives(ss), keywords, n) == Hits(KeyClass(ss, ScoreKey, n as real))
  {
    if ss != [] {
      var s0 := ss[0];
      var rest := ss[1..];
      assert s0 in ss;
      assert forall s :: s in rest ==> s in ss;
      PositivesAt(rest, keywords, n);
      var head := if s0.score > 0 then [s0.hit] else [];
      var keyed := if ScoreKey(s0) == n as real then [s0] else [];
      ScoredAtConcat(head, Positives(rest), keywords, n);
      HitsConcat(keyed, KeyClass(rest, ScoreKey, n as real));
      assert ScoredAt(head, keywords, n) == Hits(keyed);
    }
  }

  /** The items of the evidence scoring n are the hits of its scored pairs keyed n. */
  lemma {:induction false} EvidenceAt(evidence: seq<Hit>, keywords: seq<string>, n: nat)
    ensures ScoredAt(evidence, keywords, n) == Hits(KeyClass(ScoreAll(evidence, keywords), ScoreKey, n as real))
  {
    if evidence != [] {
      var ss := ScoreAll(evidence, keywords);
      assert ss[1..] == ScoreAll(evidence[1..], keywords);
      EvidenceAt(evidence[1..], keywords, n);
      var keyed := if ScoreKey(ss[0]) == n as real then [ss[0]] else [];
      HitsConcat(keyed, KeyClass(ss[1..], ScoreKey, n as real));
      assert Hits(keyed) == if ScoreOf(evidence[0], keywords) == n then [evidence[0]] else [];
    }
  }

  /**
   * Stability of pick_best: for every positive score n, the items of the
   * result scoring n are exactly the evidence items scoring n, in evidence
   * order, as the stable sort keeps them.
   */
  lemma BestStable(evidence: seq<Hit>, keywords: seq<string>, n: nat)
    requires n > 0
    ensures ScoredAt(Best(evidence, keywords), keywords, n) == ScoredAt(evidence, keywords, n)
  {
    if PositiveEvidence(evidence, keywords) != [] {
      BestStableRanked(evidence, keywords, n);
    } else {
      BestFallback(evidence, keywords);
      forall h | h in evidence ensures ScoreOf(h, keywords) != n {
        PositiveEvidenceExact(evidence, keywords, h);
      }
      var fallback := evidence[..Min(5, |evidence|)];
      assert forall h :: h in fallback ==> h in evidence;
      ScoredAtNone(fallback, keywords, n);
      ScoredAtNone(evidence, keywords, n);
    }
  }

  lemma BestStableRanked(evidence: seq<Hit>, keywords: seq<string>, n: nat)
    requires n > 0 && PositiveEvidence(evidence, keywords) != []
    ensures ScoredAt(Best(evidence, keywords), keywords, n) == ScoredAt(evidence, keywords, n)
  {
    var ss := ScoreAll(evidence, keywords);
    var sorted := SortDesc(ss, ScoreKey);
    PositivesSortPerm(ss);
    assert Positives(sorted) != [] by {
      var h := PositiveEvidence(evidence, keywords)[0];
      assert h in multiset(Positives(sorted));
    }
    assert Best(evidence, keywords) == Positives(sorted);
    SortedScoresHonest(evidence, keywords);
    PositivesAt(sorted, keywords, n);
    SortDescStable(ss, ScoreKey, n as real);
    EvidenceAt(evidence, keywords, n);
  }

  lemma ScoredAtNone(hs: seq<Hit>, keywords: seq<string>, n: nat)
    requires forall h :: h in hs ==> ScoreOf(h, keywords) != n
    ensures ScoredAt(hs, keywords, n) == []
  {
    if ScoredAt(hs, keywords, n) != [] {
      assert ScoredAt(hs, keywords, n)[0] in ScoredAt(hs, keywords, n);
    }
  }


  // ---------------------------------------------------------------------
  // format_bullets_with_citations and is_windows_os_line
  // ---------------------------------------------------------------------

  /** re.sub(r"\s+", " ", txt.strip()).lower(): the de-duplication key. */
  function BulletKey(item: (string, Hit)): string { Lower(Normalize(item.0)) }

  /** f"- {txt} {cite(src)}" */
  function Bullet(item: (string, Hit)): string { "- " + item.0 + " " + Cite(item.1.chunk) }

  /** The bullet lines: one per distinct key, from the first item with that key. */
  function BulletLines(items: seq<(string, Hit)>): seq<string> {
    Map(DedupBy(items, BulletKey), Bullet)
  }

  /** format_bullets_with_citations(items) */
  function Bullets(items: seq<(string, Hit)>): string {
    Join("\n", BulletLines(items))
  }

  /** The seen-set loop over the items, keyed by the normalised text, then the join. */
  method FormatBulletsWithCitations(items: seq<(string, Hit)>) returns (out: string)
    ensures out == Bullets(items)
  {
    var outLines := DedupMap(items, BulletKey, Bullet);
    out := Join("\n", outLines);
  }

  /**
   * One bullet per distinct normalised text, in input order, and no
   * normalised text twice; Lists.MapDedupFacts shows each bullet is that of
   * the first item with its text.
   */
  lemma BulletLinesKeys(items: seq<(string, Hit)>)
    ensures Subseq(DedupBy(items, BulletKey), items)
    ensures Keys(DedupBy(items, BulletKey), BulletKey) == Keys(items, BulletKey)
    ensures |BulletLines(items)| == |Keys(items, BulletKey)|
  {
    DedupFacts(items, BulletKey);
    MapDedupFacts(items, BulletKey, Bullet);
  }

  /** A bullet with a citable source is a stripped claim that CITE_RE recognises. */
  lemma BulletSupported(item: (string, Hit))
    requires Citable(item.1.chunk)
    ensures HasCitation(Bullet(item))
    ensures Strip(Bullet(item)) == Bullet(item) && IsClaim(Bullet(item))
    ensures NoNewline(item.0) ==> NoNewline(Bullet(item))
  {
    CiteSupported(item.1.chunk, "- " + item.0 + " ", []);
    assert Bullet(item) == "- " + item.0 + " " + Cite(item.1.chunk) + [];
    CiteOneLine(item.1.chunk);
    BulletFrame(item.0, Cite(item.1.chunk));
  }

  /** "- " + t + " " + c, for a one-line c that ends in "]". */
  lemma BulletFrame(t: string, c: string)
    requires c != [] && c[|c| - 1] == ']' && NoNewline(c)
    ensures Strip("- " + t + " " + c) == "- " + t + " " + c
    ensures IsClaim("- " + t + " " + c)
    ensures NoNewline(t) ==> NoNewline("- " + t + " " + c)
  {
    var b := "- " + t + " " + c;
    assert b[|b| - 1] == c[|c| - 1];
    StripNoEdge(b);
    assert b[..1] == "-";
    assert b[..1] != "#";
    if NoNewline(t) {
      forall p | 0 <= p < |b| ensures b[p] != '\n' {
        if 2 <= p < 2 + |t| {
          assert b[p] == t[p - 2];
        } else if 3 + |t| <= p {
          assert b[p] == c[p - 3 - |t|];
        }
      }
    }
  }

  lemma StripNoEdge(s: string)
    requires s != [] && !IsSpace(s[0]) && !IsSpace(s[|s| - 1])
    ensures Strip(s) == s
  {
    assert LStrip(s) == s;
  }

  /**
   * Bullets built from newline-free texts with citable sources pass
   * verify_citations outright: every bullet is a claim, every claim is
   * cited, so coverage is 1.0 and nothing is listed.
   */
  lemma BulletsFullyCited(items: seq<(string, Hit)>, minCoverage: real)
    requires items != []
    requires forall k :: 0 <= k < |items| ==> Citable(items[k].1.chunk) && NoNewline(items[k].0)
    requires minCoverage <= 1.0
    ensures Claims(Bullets(items)) == BulletLines(items)
    ensures Outcome(Claims(Bullets(items)), minCoverage).coverage == 1.0
    ensures !Outcome(Claims(Bullets(items)), minCoverage).needsConfirmation
  {
    var d := DedupBy(items, BulletKey);
    var lines := BulletLines(items);
    DedupFacts(items, BulletKey);
    assert d != [] by {
      assert BulletKey(items[0]) in Keys(items, BulletKey);
    }
    forall k | 0 <= k < |lines|
      ensures lines[k] != "" && Strip(lines[k]) == lines[k] && IsClaim(lines[k]) && NoNewline(lines[k])
      ensures HasCitation(lines[k])
    {
      SubseqElems(d, items, d[k]);
      var i :| 0 <= i < |items| && items[i] == d[k];
      BulletSupported(d[k]);
    }
    JoinedClaims(lines);
    AllCited(lines, minCoverage);
  }

  /** is_windows_os_line(line) */
  predicate IsWindowsOsLine(line: string) {
    Contains(Lower(line), "windows")
  }

  /** The citation of an item's source. */
  function SourceCite(item: (string, Hit)): string { Cite(item.1.chunk) }

  lemma BulletCites(item: (string, Hit))
    ensures Contains(Bullet(item), SourceCite(item))
  {
    ContainsSelf(Cite(item.1.chunk));
    ContainsRight("- " + item.0 + " ", Cite(item.1.chunk), Cite(item.1.chunk));
  }

  /**
   * The joined images of a de-duplicated non-empty list contain what the
   * image of one of its elements contains.
   */
  lemma DedupJoinContains<T>(xs: seq<T>, key: T -> string, f: T -> string, t: T -> string)
    requires xs != []
    requires forall k :: 0 <= k < |xs| ==> Contains(f(xs[k]), t(xs[k]))
    ensures exists y :: y in xs && Contains(Join("\n", Map(DedupBy(xs, key), f)), t(y))
  {
    var d := DedupBy(xs, key);
    DedupFacts(xs, key);
    assert key(xs[0]) in Keys(xs, key);
    assert d != [];
    assert d[0] in d;
    SubseqElems(d, xs, d[0]);
    var k :| 0 <= k < |xs| && xs[k] == d[0];
    ContainsJoin("\n", Map(d, f), 0, t(d[0]));
  }

  /** The bullets of a non-empty list cite the source of one of its items. */
  lemma BulletsCite(items: seq<(string, Hit)>)
    requires items != []
    ensures exists item :: item in items && Contains(Bullets(items), Cite(item.1.chunk))
  {
    forall k | 0 <= k < |items| ensures Contains(Bullet(items[k]), SourceCite(items[k])) {
      BulletCites(items[k]);
    }
    DedupJoinContains(items, BulletKey, Bullet, SourceCite);
    var y :| y in items && Contains(Join("\n", Map(DedupBy(items, BulletKey), Bullet)), SourceCite(y));
    assert Contains(Bullets(items), Cite(y.1.chunk));
  }
}
