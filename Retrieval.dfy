/**
 * api/retrieval.py: the query tokenizer and the score fusion of
 * hybrid_search.  The two rankers (BM25 and the FAISS vector index) are
 * not modelled: their (row index, score) lists arrive as inputs.  Scores
 * are exact reals where the source uses float32 and float64.
 */
module Retrieval {
  import opened Text
  import opened Records
  import opened Sorting

  // ---------------------------------------------------------------------
  // _tokenize
  // ---------------------------------------------------------------------

  predicate IsLowerOrDigit(c: char) { IsLowerLetter(c) || IsDigit(c) }

  /** The characters re.sub(r"[^a-z0-9\s]+", " ", ...) leaves alone. */
  predicate IsKept(c: char) { IsLowerOrDigit(c) || IsSpace(c) }

  /** The length of the run of replaced characters s starts with. */
  function OtherRun(s: string): (n: nat)
    ensures n <= |s|
  {
    if s != [] && !IsKept(s[0]) then 1 + OtherRun(s[1..]) else 0
  }

  /** re.sub(r"[^a-z0-9\s]+", " ", s) */
  function ReplaceOthers(s: string): (r: string)
    ensures forall i :: 0 <= i < |r| ==> IsKept(r[i])
    decreases |s|
  {
    if s == [] then []
    else if !IsKept(s[0]) then " " + ReplaceOthers(s[OtherRun(s)..])
    else [s[0]] + ReplaceOthers(s[1..])
  }

  /** _tokenize (api/retrieval.py:14-17). */
  function Tokenize(text: string): seq<string> {
    LongerThan(SplitWs(ReplaceOthers(Lower(text))), 1)
  }

  /** Every token is at least two characters drawn from [a-z0-9]. */
  lemma TokenizeShape(text: string)
    ensures forall k :: 0 <= k < |Tokenize(text)| ==>
      |Tokenize(text)[k]| >= 2 && forall i :: 0 <= i < |Tokenize(text)[k]| ==> IsLowerOrDigit(Tokenize(text)[k][i])
  {
    var s := ReplaceOthers(Lower(text));
    assert BlankOr(s, IsLowerOrDigit);
    SplitWsChars(s, IsLowerOrDigit);
    var ws := SplitWs(s);
    forall k | 0 <= k < |Tokenize(text)|
      ensures forall i :: 0 <= i < |Tokenize(text)[k]| ==> IsLowerOrDigit(Tokenize(text)[k][i])
    {
      var t := Tokenize(text)[k];
      var m :| 0 <= m < |ws| && ws[m] == t;
      assert WordOf(ws[m], IsLowerOrDigit);
    }
  }

  /** Tokenizing is blind to letter case. */
  lemma TokenizeIgnoresCase(text: string)
    ensures Tokenize(Lower(text)) == Tokenize(text)
  {
    LowerIdempotent(text);
  }

  // ---------------------------------------------------------------------
  // vec_search's -1 filter
  // ---------------------------------------------------------------------

  /** A ranker result: a corpus row index and its raw score. */
  datatype Scored = Scored(index: int, score: real)

  /** FAISS pads missing neighbours with index -1; vec_search drops them (api/retrieval.py:43). */
  function DropMissing(raw: seq<Scored>): (r: seq<Scored>)
    ensures |r| <= |raw|
    ensures forall p :: p in r <==> p in raw && p.index != -1
  {
    if raw == [] then []
    else (if raw[0].index != -1 then [raw[0]] else []) + DropMissing(raw[1..])
  }

  /**
   * vec_search's result list: FAISS's neighbour ids paired position by
   * position with their similarity scores, padding ids dropped.
   */
  function VecResults(ids: seq<int>, scores: seq<real>): (r: seq<Scored>)
    requires |ids| == |scores|
    ensures |r| <= |ids|
    ensures forall p :: p in r <==>
      exists pos :: 0 <= pos < |ids| && ids[pos] != -1 && p == Scored(ids[pos], scores[pos])
  {
    var zipped := seq(|ids|, pos requires 0 <= pos < |ids| => Scored(ids[pos], scores[pos]));
    assert forall pos :: 0 <= pos < |ids| ==> zipped[pos] == Scored(ids[pos], scores[pos]);
    DropMissing(zipped)
  }

  // ---------------------------------------------------------------------
  // norm
  // ---------------------------------------------------------------------

  /** The 1e-9 degeneracy threshold of norm. */
  const Eps: real := 0.000000001

  /** The row indices a ranker list mentions. */
  function Indices(pairs: seq<Scored>): set<int> {
    if pairs == [] then {} else Indices(pairs[..|pairs| - 1]) + {pairs[|pairs| - 1].index}
  }

  /** The index at position k; quantifiers over positions hang on it. */
  function IndexAt(xs: seq<Scored>, k: nat): int
    requires k < |xs|
  {
    xs[k].index
  }

  /** No row index occurs twice. */
  predicate DistinctIndices(xs: seq<Scored>) {
    forall a, b :: 0 <= a < b < |xs| ==> IndexAt(xs, a) != IndexAt(xs, b)
  }

  lemma {:induction false} IndicesMembers(pairs: seq<Scored>)
    ensures forall i :: i in Indices(pairs) <==> exists k :: 0 <= k < |pairs| && pairs[k].index == i
  {
    if pairs != [] {
      var init := pairs[..|pairs| - 1];
      IndicesMembers(init);
      assert forall k :: 0 <= k < |init| ==> init[k] == pairs[k];
    }
  }

  /** min(d.values()) */
  function MinScore(pairs: seq<Scored>): (m: real)
    requires pairs != []
    ensures forall k :: 0 <= k < |pairs| ==> m <= pairs[k].score
  {
    var init := pairs[..|pairs| - 1];
    var last := pairs[|pairs| - 1].score;
    if init == [] then last
    else
      var m := MinScore(init);
      assert forall k :: 0 <= k < |init| ==> init[k] == pairs[k];
      if last <= m then last else m
  }

  /** max(d.values()) */
  function MaxScore(pairs: seq<Scored>): (m: real)
    requires pairs != []
    ensures forall k :: 0 <= k < |pairs| ==> pairs[k].score <= m
  {
    var init := pairs[..|pairs| - 1];
    var last := pairs[|pairs| - 1].score;
    if init == [] then last
    else
      var m := MaxScore(init);
      assert forall k :: 0 <= k < |init| ==> init[k] == pairs[k];
      if last >= m then last else m
  }

  lemma {:induction false} ExtremesAttained(pairs: seq<Scored>)
    requires pairs != []
    ensures exists k :: 0 <= k < |pairs| && pairs[k].score == MinScore(pairs)
    ensures exists k :: 0 <= k < |pairs| && pairs[k].score == MaxScore(pairs)
  {
    var init := pairs[..|pairs| - 1];
    var last := |pairs| - 1;
    if init == [] {
      assert pairs[last].score == MinScore(pairs) == MaxScore(pairs);
    } else {
      ExtremesAttained(init);
      var a :| 0 <= a < |init| && init[a].score == MinScore(init);
      var b :| 0 <= b < |init| && init[b].score == MaxScore(init);
      assert init[a] == pairs[a] && init[b] == pairs[b];
      if MinScore(pairs) == pairs[last].score {
        assert pairs[last].score == MinScore(pairs);
      } else {
        assert pairs[a].score == MinScore(pairs);
      }
      if MaxScore(pairs) == pairs[last].score {
        assert pairs[last].score == MaxScore(pairs);
      } else {
        assert pairs[b].score == MaxScore(pairs);
      }
    }
  }

  /** The score of the last pair with index i: a dict comprehension keeps the last. */
  function LastScore(pairs: seq<Scored>, i: int): real
    requires i in Indices(pairs)
  {
    var last := pairs[|pairs| - 1];
    if last.index == i then last.score else LastScore(pairs[..|pairs| - 1], i)
  }

  /** LastScore is the score of some pair. */
  lemma {:induction false} LastScoreIn(pairs: seq<Scored>, i: int)
    requires i in Indices(pairs)
    ensures exists k :: 0 <= k < |pairs| && pairs[k].score == LastScore(pairs, i)
  {
    var last := pairs[|pairs| - 1];
    if last.index != i {
      var init := pairs[..|pairs| - 1];
      LastScoreIn(init, i);
      var k :| 0 <= k < |init| && init[k].score == LastScore(init, i);
      assert init[k] == pairs[k];
    }
  }

  /** With distinct indices a pair's own score is its index's last score. */
  lemma {:induction false} UniqueLastScore(pairs: seq<Scored>, k: nat)
    requires k < |pairs|
    requires DistinctIndices(pairs)
    ensures pairs[k].index in Indices(pairs) && LastScore(pairs, pairs[k].index) == pairs[k].score
  {
    var init := pairs[..|pairs| - 1];
    if k < |pairs| - 1 {
      assert forall j :: 0 <= j < |init| ==> IndexAt(init, j) == IndexAt(pairs, j);
      assert IndexAt(pairs, k) != IndexAt(pairs, |pairs| - 1);
      UniqueLastScore(init, k);
    }
  }

  /**
   * The normalised value of score s between lo and hi: 1.0 when the
   * scores span less than Eps, (s - lo) / (hi - lo) otherwise.
   */
  function Normalised(s: real, lo: real, hi: real): real {
    if hi - lo < Eps then 1.0 else (s - lo) / (hi - lo)
  }

  /** {i: Normalised(s, lo, hi) for i, s in pairs}, the last pair of an index winning. */
  function NormMap(pairs: seq<Scored>, lo: real, hi: real): (m: map<int, real>)
    ensures m.Keys == Indices(pairs)
  {
    if pairs == [] then map[]
    else
      var last := pairs[|pairs| - 1];
      NormMap(pairs[..|pairs| - 1], lo, hi)[last.index := Normalised(last.score, lo, hi)]
  }

  /** norm (api/retrieval.py:50-57). */
  function Norm(pairs: seq<Scored>): (m: map<int, real>)
    ensures m.Keys == Indices(pairs)
  {
    if pairs == [] then map[] else NormMap(pairs, MinScore(pairs), MaxScore(pairs))
  }

  lemma {:induction false} NormMapValue(pairs: seq<Scored>, lo: real, hi: real, i: int)
    requires i in Indices(pairs)
    ensures NormMap(pairs, lo, hi)[i] == Normalised(LastScore(pairs, i), lo, hi)
  {
    if pairs[|pairs| - 1].index != i {
      NormMapValue(pairs[..|pairs| - 1], lo, hi, i);
    }
  }

  /** Index i normalises its last score between the least and greatest score. */
  lemma NormValue(pairs: seq<Scored>, i: int)
    requires i in Indices(pairs)
    ensures Norm(pairs)[i] == Normalised(LastScore(pairs, i), MinScore(pairs), MaxScore(pairs))
  {
    NormMapValue(pairs, MinScore(pairs), MaxScore(pairs), i);
  }

  lemma NormalisedInUnit(s: real, lo: real, hi: real)
    requires lo <= s <= hi
    ensures 0.0 <= Normalised(s, lo, hi) <= 1.0
  {
    if hi - lo >= Eps {
      var d := hi - lo;
      var q := (s - lo) / d;
      assert q * d == s - lo;
    }
  }

  lemma NormalisedMonotone(s: real, t: real, lo: real, hi: real)
    requires s <= t
    ensures Normalised(s, lo, hi) <= Normalised(t, lo, hi)
  {
    if hi - lo >= Eps {
      var d := hi - lo;
      assert (s - lo) / d <= (t - lo) / d;
    }
  }

  lemma NormalisedEnds(lo: real, hi: real)
    requires hi - lo >= Eps
    ensures Normalised(lo, lo, hi) == 0.0 && Normalised(hi, lo, hi) == 1.0
  {
    var d := hi - lo;
    assert d / d == 1.0;
  }

  /** Normalised values lie within [0, 1]. */
  lemma NormInUnit(pairs: seq<Scored>, i: int)
    requires i in Indices(pairs)
    ensures 0.0 <= Norm(pairs)[i] <= 1.0
  {
    NormValue(pairs, i);
    LastScoreIn(pairs, i);
    NormalisedInUnit(LastScore(pairs, i), MinScore(pairs), MaxScore(pairs));
  }

  /** When the scores span less than Eps every index normalises to 1.0. */
  lemma NormDegenerate(pairs: seq<Scored>, i: int)
    requires i in Indices(pairs)
    requires MaxScore(pairs) - MinScore(pairs) < Eps
    ensures Norm(pairs)[i] == 1.0
  {
    NormValue(pairs, i);
  }

  /** Normalisation keeps the order of scores. */
  lemma NormMonotone(pairs: seq<Scored>, i: int, j: int)
    requires i in Indices(pairs) && j in Indices(pairs)
    requires LastScore(pairs, i) <= LastScore(pairs, j)
    ensures Norm(pairs)[i] <= Norm(pairs)[j]
  {
    NormValue(pairs, i);
    NormValue(pairs, j);
    NormalisedMonotone(LastScore(pairs, i), LastScore(pairs, j), MinScore(pairs), MaxScore(pairs));
  }

  /**
   * With distinct indices and a spread of at least Eps, a lowest-scoring
   * pair maps to 0 and a highest-scoring one to 1.
   */
  lemma NormExtremes(pairs: seq<Scored>, k: nat)
    requires k < |pairs|
    requires DistinctIndices(pairs)
    requires MaxScore(pairs) - MinScore(pairs) >= Eps
    ensures pairs[k].index in Norm(pairs)
    ensures pairs[k].score == MinScore(pairs) ==> Norm(pairs)[pairs[k].index] == 0.0
    ensures pairs[k].score == MaxScore(pairs) ==> Norm(pairs)[pairs[k].index] == 1.0
  {
    UniqueLastScore(pairs, k);
    NormValue(pairs, pairs[k].index);
    NormalisedEnds(MinScore(pairs), MaxScore(pairs));
  }

  // ---------------------------------------------------------------------
  // fusion, sort and top_k
  // ---------------------------------------------------------------------

  /** d.get(i, 0.0) */
  function Get(m: map<int, real>, i: int): real {
    if i in m then m[i] else 0.0
  }

  /** 0.55 * bm_n.get(i, 0.0) + 0.45 * vc_n.get(i, 0.0) */
  function Fused(bmN: map<int, real>, vcN: map<int, real>, i: int): real {
    0.55 * Get(bmN, i) + 0.45 * Get(vcN, i)
  }

  /** The fused score of row i for the two raw ranker lists. */
  function FusedScore(bm: seq<Scored>, vc: seq<Scored>, i: int): real {
    Fused(Norm(bm), Norm(vc), i)
  }

  /** set(bm_n.keys()) | set(vc_n.keys()) */
  function Candidates(bm: seq<Scored>, vc: seq<Scored>): set<int> {
    Indices(bm) + Indices(vc)
  }

  /** Fused scores lie in [0, 1]. */
  lemma FusedInUnit(bm: seq<Scored>, vc: seq<Scored>, i: int)
    ensures 0.0 <= FusedScore(bm, vc, i) <= 1.0
  {
    if i in Indices(bm) { NormInUnit(bm, i); }
    if i in Indices(vc) { NormInUnit(vc, i); }
  }

  /** A candidate found by only one ranker gets 0 for the other signal. */
  lemma FusedOneSided(bm: seq<Scored>, vc: seq<Scored>, i: int)
    requires i in Indices(bm) && i !in Indices(vc)
    ensures FusedScore(bm, vc, i) == 0.55 * Norm(bm)[i]
  {
  }

  function ScoreOf(x: Scored): real { x.score }

  /** Every entry carries the fused score of its own index. */
  ghost predicate FusedRows(xs: seq<Scored>, bmN: map<int, real>, vcN: map<int, real>) {
    forall k :: 0 <= k < |xs| ==> xs[k].score == Fused(bmN, vcN, IndexAt(xs, k))
  }

  lemma IndicesAt(xs: seq<Scored>)
    ensures forall k :: 0 <= k < |xs| ==> IndexAt(xs, k) in Indices(xs)
  {
    IndicesMembers(xs);
  }

  lemma IndicesSnoc(xs: seq<Scored>, x: Scored)
    ensures Indices(xs + [x]) == Indices(xs) + {x.index}
  {
    assert (xs + [x])[..|xs|] == xs;
  }

  /** No element occurs twice in a sequence whose indices are distinct. */
  lemma {:induction false} DistinctCount(xs: seq<Scored>, x: Scored)
    requires DistinctIndices(xs)
    ensures multiset(xs)[x] <= 1
  {
    if xs != [] {
      var tail := xs[1..];
      assert xs == [xs[0]] + tail;
      assert forall k :: 0 <= k < |tail| ==> IndexAt(tail, k) == IndexAt(xs, k + 1);
      assert DistinctIndices(tail) by {
        forall a, b | 0 <= a < b < |tail| ensures IndexAt(tail, a) != IndexAt(tail, b) {
          assert IndexAt(xs, a + 1) != IndexAt(xs, b + 1);
        }
      }
      DistinctCount(tail, x);
      if xs[0] == x {
        assert x !in tail by {
          forall k | 0 <= k < |tail| ensures tail[k] != x {
            assert IndexAt(xs, 0) != IndexAt(xs, k + 1);
          }
        }
      }
    }
  }

  /** A permutation of a list of fused rows with distinct indices keeps its indices distinct. */
  lemma PermutationDistinct(xs: seq<Scored>, ys: seq<Scored>, bmN: map<int, real>, vcN: map<int, real>)
    requires multiset(ys) == multiset(xs)
    requires DistinctIndices(xs) && FusedRows(xs, bmN, vcN)
    ensures DistinctIndices(ys)
  {
    forall a, b | 0 <= a < b < |ys| ensures IndexAt(ys, a) != IndexAt(ys, b) {
      if IndexAt(ys, a) == IndexAt(ys, b) {
        assert ys[a] in multiset(xs) && ys[b] in multiset(xs);
        var ja :| 0 <= ja < |xs| && xs[ja] == ys[a];
        var jb :| 0 <= jb < |xs| && xs[jb] == ys[b];
        assert IndexAt(xs, ja) == IndexAt(xs, jb);
        assert ys[a] == ys[b];
        TwiceCount(ys, a, b);
        DistinctCount(xs, ys[a]);
        assert false;
      }
    }
  }

  /**
   * A permutation of a list of fused rows with distinct indices is again
   * such a list, over the same indices.
   */
  lemma PermutationFused(xs: seq<Scored>, ys: seq<Scored>, bmN: map<int, real>, vcN: map<int, real>)
    requires multiset(ys) == multiset(xs)
    requires DistinctIndices(xs) && FusedRows(xs, bmN, vcN)
    ensures DistinctIndices(ys) && FusedRows(ys, bmN, vcN)
    ensures Indices(ys) == Indices(xs)
  {
    PermutationDistinct(xs, ys, bmN, vcN);
    forall k | 0 <= k < |ys| ensures ys[k].score == Fused(bmN, vcN, IndexAt(ys, k)) {
      assert ys[k] in multiset(xs);
      var j :| 0 <= j < |xs| && xs[j] == ys[k];
      assert IndexAt(xs, j) == IndexAt(ys, k);
    }
    PermutationIndices(xs, ys);
  }

  lemma PermutationIndices(xs: seq<Scored>, ys: seq<Scored>)
    requires multiset(ys) == multiset(xs)
    ensures Indices(ys) == Indices(xs)
  {
    IndicesLeft(xs, ys);
    IndicesLeft(ys, xs);
  }

  lemma IndicesLeft(xs: seq<Scored>, ys: seq<Scored>)
    requires multiset(ys) == multiset(xs)
    ensures Indices(ys) <= Indices(xs)
  {
    IndicesMembers(xs);
    IndicesMembers(ys);
    forall i | i in Indices(ys) ensures i in Indices(xs) {
      var k :| 0 <= k < |ys| && ys[k].index == i;
      assert ys[k] in multiset(xs);
      var j :| 0 <= j < |xs| && xs[j] == ys[k];
    }
  }

  /** The scored candidate list of hybrid_search, in set iteration order. */
  method ScoreCandidates(bmN: map<int, real>, vcN: map<int, real>) returns (scored: seq<Scored>)
    ensures |scored| == |bmN.Keys + vcN.Keys|
    ensures Indices(scored) == bmN.Keys + vcN.Keys
    ensures DistinctIndices(scored) && FusedRows(scored, bmN, vcN)
  {
    var candidates := bmN.Keys + vcN.Keys;
    scored := [];
    var rest := candidates;
    while rest != {}
      invariant rest <= candidates
      invariant Indices(scored) == candidates - rest
      invariant |scored| + |rest| == |candidates|
      invariant DistinctIndices(scored) && FusedRows(scored, bmN, vcN)
      decreases |rest|
    {
      var i := PickAny(rest);
      var x := Scored(i, Fused(bmN, vcN, i));
      AddCandidate(scored, x, bmN, vcN);
      scored := scored + [x];
      rest := rest - {i};
    }
  }

  lemma AddCandidate(scored: seq<Scored>, x: Scored, bmN: map<int, real>, vcN: map<int, real>)
    requires DistinctIndices(scored) && FusedRows(scored, bmN, vcN)
    requires x.index !in Indices(scored) && x.score == Fused(bmN, vcN, x.index)
    ensures DistinctIndices(scored + [x]) && FusedRows(scored + [x], bmN, vcN)
    ensures Indices(scored + [x]) == Indices(scored) + {x.index}
  {
    var r := scored + [x];
    IndicesAt(scored);
    assert forall k :: 0 <= k < |scored| ==> IndexAt(r, k) == IndexAt(scored, k);
    assert IndexAt(r, |scored|) == x.index;
    IndicesSnoc(scored, x);
  }

  /**
   * hybrid_search after both rankers ran (api/retrieval.py:58-76): the
   * top_k candidates by fused score, best first, each paired with its
   * corpus row.  rows records which row each hit came from.
   */
  method HybridSearch(corpus: seq<Chunk>, bm: seq<Scored>, vc: seq<Scored>, topK: nat)
    returns (hits: seq<Hit>, ghost rows: seq<int>)
    requires forall i :: i in Candidates(bm, vc) ==> 0 <= i < |corpus|
    ensures |hits| == |rows| == Min(topK, |Candidates(bm, vc)|)
    ensures forall k :: 0 <= k < |rows| ==>
      rows[k] in Candidates(bm, vc) && hits[k] == Hit(corpus[rows[k]], FusedScore(bm, vc, rows[k]))
    ensures forall a, b :: 0 <= a < b < |rows| ==> rows[a] != rows[b]
    ensures forall a, b :: 0 <= a < b < |hits| ==> hits[a].hybridScore >= hits[b].hybridScore
    ensures forall i, k :: i in Candidates(bm, vc) && i !in rows && 0 <= k < |hits| ==>
      FusedScore(bm, vc, i) <= hits[k].hybridScore
  {
    var bmN := Norm(bm);
    var vcN := Norm(vc);
    var scored := ScoreCandidates(bmN, vcN);
    var ranked := SortDesc(scored, ScoreOf);
    PermutationFused(scored, ranked, bmN, vcN);
    assert Indices(ranked) == Candidates(bm, vc);
    IndicesAt(ranked);
    var n := Min(topK, |ranked|);
    hits, rows := TopHits(corpus, ranked, n);
    TopRanked(ranked, n, bmN, vcN, rows);
  }

  /** The first n ranked entries as hits: [dict(chunks[i]) | hybrid_score = s for i, s in top]. */
  method TopHits(corpus: seq<Chunk>, ranked: seq<Scored>, n: nat) returns (hits: seq<Hit>, ghost rows: seq<int>)
    requires n <= |ranked|
    requires forall k :: 0 <= k < |ranked| ==> 0 <= IndexAt(ranked, k) < |corpus|
    ensures |hits| == |rows| == n
    ensures forall j :: 0 <= j < n ==> rows[j] == IndexAt(ranked, j) && hits[j] == Hit(corpus[rows[j]], ranked[j].score)
  {
    hits := [];
    rows := [];
    for k := 0 to n
      invariant |hits| == |rows| == k
      invariant forall j :: 0 <= j < k ==> rows[j] == IndexAt(ranked, j) && hits[j] == Hit(corpus[rows[j]], ranked[j].score)
    {
      hits := hits + [Hit(corpus[IndexAt(ranked, k)], ranked[k].score)];
      rows := rows + [IndexAt(ranked, k)];
    }
  }

  /** Whatever is ranked below the cut scores no more than anything above it. */
  lemma TopRanked(ranked: seq<Scored>, n: nat, bmN: map<int, real>, vcN: map<int, real>, rows: seq<int>)
    requires n <= |ranked| && |rows| == n
    requires SortedDesc(ranked, ScoreOf) && FusedRows(ranked, bmN, vcN)
    requires forall j :: 0 <= j < n ==> rows[j] == IndexAt(ranked, j)
    ensures forall i, k :: i in Indices(ranked) && i !in rows && 0 <= k < n ==>
      Fused(bmN, vcN, i) <= ranked[k].score
  {
    IndicesMembers(ranked);
    forall i, k | i in Indices(ranked) && i !in rows && 0 <= k < n
      ensures Fused(bmN, vcN, i) <= ranked[k].score
    {
      var p :| 0 <= p < |ranked| && IndexAt(ranked, p) == i;
      assert p >= n;
      assert ScoreOf(ranked[k]) >= ScoreOf(ranked[p]);
    }
  }
}
