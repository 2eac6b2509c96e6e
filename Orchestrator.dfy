/**
 * The /ask handler of api/main.py: up to three rounds of retrieval, each
 * capped per document and merged into an evidence pool keyed by chunk id,
 * with the query refined from the entities of the whole pool between
 * rounds; then the sufficiency gate on the pooled evidence, the answer,
 * its citation check, and the confirmation banner.
 *
 * The retriever is a parameter `search` from (query, top_k) to hits, and
 * the OS-line pattern of the answer builder is the parameter `osLine`.
 * The pool is the list of its values in insertion order (the order
 * `list(evidence_pool.values())` yields); its keys are the ids of that list.
 */
module Orchestrator {
  import opened Text
  import opened Records
  import opened Sorting
  import opened Lists
  import opened Refine
  import opened Verify
  import Synthesis
  import Answer

  // ---------------------------------------------------------------------
  // diversify_by_doc
  // ---------------------------------------------------------------------

  /**
   * h.get("doc_name", "UNKNOWN").  Corpus rows always carry the key, so the
   * default never applies and a null name is a document key of its own.
   */
  function DocKey(h: Hit): Option<string> {
    h.chunk.docName
  }

  /** The hits of xs from document d, in order. */
  function OfDoc(xs: seq<Hit>, d: Option<string>): (r: seq<Hit>)
    ensures |r| <= |xs|
  {
    if xs == [] then []
    else OfDoc(xs[..|xs| - 1], d) + (if DocKey(xs[|xs| - 1]) == d then [xs[|xs| - 1]] else [])
  }

  lemma OfDocSnoc(xs: seq<Hit>, h: Hit, d: Option<string>)
    ensures OfDoc(xs + [h], d) == OfDoc(xs, d) + (if DocKey(h) == d then [h] else [])
  {
    assert (xs + [h])[..|xs|] == xs;
  }

  /** The hits kept: a hit is kept when it is at most the maxPerDoc-th of its document. */
  function Diversified(hits: seq<Hit>, maxPerDoc: int): (r: seq<Hit>)
  {
    if hits == [] then []
    else
      var init := hits[..|hits| - 1];
      var h := hits[|hits| - 1];
      Diversified(init, maxPerDoc) + (if |OfDoc(init, DocKey(h))| + 1 <= maxPerDoc then [h] else [])
  }

  /** counts.get(doc, 0) */
  function CountIn(counts: map<Option<string>, nat>, d: Option<string>): nat {
    if d in counts then counts[d] else 0
  }

  method DiversifyByDoc(hits: seq<Hit>, maxPerDoc: int) returns (out: seq<Hit>)
    ensures out == Diversified(hits, maxPerDoc)
  {
    out := [];
    var counts: map<Option<string>, nat> := map[];
    for i := 0 to |hits|
      invariant out == Diversified(hits[..i], maxPerDoc)
      invariant forall d :: CountIn(counts, d) == |OfDoc(hits[..i], d)|
    {
      var h := hits[i];
      var doc := DocKey(h);
      assert hits[..i + 1][..i] == hits[..i];
      counts := counts[doc := CountIn(counts, doc) + 1];
      if counts[doc] <= maxPerDoc {
        out := out + [h];
      }
    }
    assert hits[..|hits|] == hits;
  }

  /** How many hits of a document with c hits are kept. */
  function Cap(c: nat, maxPerDoc: int): nat {
    if maxPerDoc <= 0 then 0 else Min(c, maxPerDoc)
  }

  /** The kept hits are the input with some hits left out, in input order. */
  lemma {:induction false} DiversifiedSubseq(hits: seq<Hit>, maxPerDoc: int)
    ensures Subseq(Diversified(hits, maxPerDoc), hits)
  {
    if hits != [] {
      var init := hits[..|hits| - 1];
      var h := hits[|hits| - 1];
      var d := Diversified(init, maxPerDoc);
      DiversifiedSubseq(init, maxPerDoc);
      assert hits == init + [h];
      if |OfDoc(init, DocKey(h))| + 1 <= maxPerDoc {
        assert Diversified(hits, maxPerDoc) == d + [h];
        assert (d + [h])[..|d|] == d;
      } else {
        assert Diversified(hits, maxPerDoc) == d;
        SubseqSnoc(d, init, h);
      }
    }
  }

  /**
   * For every document, the kept hits of that document are exactly its
   * first maxPerDoc hits (all of them when it has fewer).
   */
  lemma {:induction false} DiversifiedPerDoc(hits: seq<Hit>, maxPerDoc: int, d: Option<string>)
    ensures OfDoc(Diversified(hits, maxPerDoc), d) == OfDoc(hits, d)[..Cap(|OfDoc(hits, d)|, maxPerDoc)]
  {
    if hits != [] {
      var init := hits[..|hits| - 1];
      var h := hits[|hits| - 1];
      var before := OfDoc(init, d);
      DiversifiedPerDoc(init, maxPerDoc, d);
      DiversifiedLast(hits, maxPerDoc, d);
      CapStep(before, h, maxPerDoc, DocKey(h) == d);
    }
  }

  /** What the last hit adds to the kept hits of document d. */
  lemma DiversifiedLast(hits: seq<Hit>, maxPerDoc: int, d: Option<string>)
    requires hits != []
    ensures var init := hits[..|hits| - 1]; var h := hits[|hits| - 1];
      OfDoc(Diversified(hits, maxPerDoc), d) == OfDoc(Diversified(init, maxPerDoc), d)
        + (if DocKey(h) == d && |OfDoc(init, d)| + 1 <= maxPerDoc then [h] else [])
  {
    var init := hits[..|hits| - 1];
    var h := hits[|hits| - 1];
    var kept := Diversified(init, maxPerDoc);
    if |OfDoc(init, DocKey(h))| + 1 <= maxPerDoc {
      assert Diversified(hits, maxPerDoc) == kept + [h];
      OfDocSnoc(kept, h, d);
    } else {
      assert Diversified(hits, maxPerDoc) == kept;
    }
  }

  /** Keeping the first Cap hits of a document commutes with one more hit. */
  lemma CapStep(before: seq<Hit>, h: Hit, maxPerDoc: int, ofDoc: bool)
    ensures before[..Cap(|before|, maxPerDoc)] + (if ofDoc && |before| + 1 <= maxPerDoc then [h] else [])
      == (before + (if ofDoc then [h] else []))[..Cap(|before| + (if ofDoc then 1 else 0), maxPerDoc)]
  {
    if ofDoc && |before| + 1 <= maxPerDoc {
      assert before[..|before|] == before;
    }
  }

  /** No document has more than maxPerDoc hits kept. */
  lemma DiversifiedBound(hits: seq<Hit>, maxPerDoc: int, d: Option<string>)
    ensures |OfDoc(Diversified(hits, maxPerDoc), d)| == Cap(|OfDoc(hits, d)|, maxPerDoc)
    ensures maxPerDoc >= 0 ==> |OfDoc(Diversified(hits, maxPerDoc), d)| <= maxPerDoc
  {
    DiversifiedPerDoc(hits, maxPerDoc, d);
  }

  // ---------------------------------------------------------------------
  // evidence_overlap_ratio
  // ---------------------------------------------------------------------

  /** [w.lower() for w in re.findall(r"[a-zA-Z0-9]+", question) if len(w) > 3] */
  function QueryWords(question: string): seq<string> {
    Map(LongerThan(AlnumWords(question), 3), Lower)
  }

  /** The distinct query words that occur in the lowered evidence. */
  function FoundWords(question: string, evidenceText: string): set<string> {
    set w | w in Elems(QueryWords(question)) && Contains(Lower(evidenceText), w)
  }

  function OverlapRatio(question: string, evidenceText: string): (r: real)
    ensures 0.0 <= r <= 1.0
  {
    var distinct := Elems(QueryWords(question));
    if QueryWords(question) == [] then 0.0
    else
      SubsetCard(FoundWords(question, evidenceText), distinct);
      |FoundWords(question, evidenceText)| as real / (if |distinct| >= 1 then |distinct| else 1) as real
  }

  /** The ratio is 0.0 exactly when no query word occurs in the evidence (or there is none). */
  lemma OverlapZero(question: string, evidenceText: string)
    ensures OverlapRatio(question, evidenceText) == 0.0 <==>
      forall w :: w in QueryWords(question) ==> !Contains(Lower(evidenceText), w)
  {
    var ws := QueryWords(question);
    var found := FoundWords(question, evidenceText);
    if ws != [] {
      assert ws[0] in Elems(ws);
      if found != {} {
        var w :| w in found;
        assert w in ws && Contains(Lower(evidenceText), w);
        assert |found| as real > 0.0;
      } else {
        forall w | w in ws ensures !Contains(Lower(evidenceText), w) {
          assert w in Elems(ws);
          assert w !in found;
        }
      }
    }
  }

  /** The ratio is 1.0 exactly when there are query words and all of them occur in the evidence. */
  lemma OverlapFull(question: string, evidenceText: string)
    ensures OverlapRatio(question, evidenceText) == 1.0 <==>
      QueryWords(question) != [] && forall w :: w in QueryWords(question) ==> Contains(Lower(evidenceText), w)
  {
    var ws := QueryWords(question);
    var distinct := Elems(ws);
    var found := FoundWords(question, evidenceText);
    if ws != [] {
      assert ws[0] in distinct;
      SubsetCard(found, distinct);
      if |found| == |distinct| {
        SubsetSameCard(found, distinct);
        assert forall w :: w in ws ==> w in found;
      }
      if forall w :: w in ws ==> Contains(Lower(evidenceText), w) {
        assert found == distinct;
      }
    }
  }

  /** The query words are the lowered alphanumeric words of the question longer than 3 characters. */
  lemma QueryWordsExact(question: string, w: string)
    ensures w in QueryWords(question) <==>
      exists v :: v in AlnumWords(question) && |v| > 3 && w == Lower(v)
  {
    var long := LongerThan(AlnumWords(question), 3);
    if w in QueryWords(question) {
      var k :| 0 <= k < |long| && QueryWords(question)[k] == w;
      LongerThanExact(AlnumWords(question), 3, long[k]);
    }
    if exists v :: v in AlnumWords(question) && |v| > 3 && w == Lower(v) {
      var v :| v in AlnumWords(question) && |v| > 3 && w == Lower(v);
      LongerThanExact(AlnumWords(question), 3, v);
      var k :| 0 <= k < |long| && long[k] == v;
      assert QueryWords(question)[k] == w;
    }
  }

  // ---------------------------------------------------------------------
  // Merging a round into the evidence pool
  // ---------------------------------------------------------------------

  /** r.get("chunk_id"); the empty string stands for a missing or empty id. */
  function Id(h: Hit): string {
    h.chunk.chunkId
  }

  /**
   * The hits a merge adds to the pool, in order: those with a non-empty id
   * seen neither before the round nor earlier in it.
   */
  function NewHits(seen: set<string>, hits: seq<Hit>): (r: seq<Hit>)
  {
    if hits == [] then []
    else
      var prev := NewHits(seen, hits[..|hits| - 1]);
      var h := hits[|hits| - 1];
      prev + (if Id(h) != "" && Id(h) !in seen && Id(h) !in Keys(prev, Id) then [h] else [])
  }

  /** The distinct new ids of a round. */
  function NewIds(seen: set<string>, hits: seq<Hit>): set<string> {
    set h | h in hits && Id(h) != "" && Id(h) !in seen :: Id(h)
  }

  lemma NewHitsSnoc(seen: set<string>, hits: seq<Hit>, j: nat)
    requires j < |hits|
    ensures NewHits(seen, hits[..j + 1]) == NewHits(seen, hits[..j]) +
      (if Id(hits[j]) != "" && Id(hits[j]) !in seen + Keys(NewHits(seen, hits[..j]), Id) then [hits[j]] else [])
  {
    assert hits[..j + 1][..j] == hits[..j];
  }

  /** The merge loop: a hit is pooled unless its id is empty or already seen. */
  method MergeHits(seen: set<string>, pool: seq<Hit>, hits: seq<Hit>)
    returns (seen': set<string>, pool': seq<Hit>, newCount: nat)
    ensures pool' == pool + NewHits(seen, hits)
    ensures seen' == seen + Keys(NewHits(seen, hits), Id)
    ensures newCount == |NewHits(seen, hits)|
  {
    seen', pool', newCount := seen, pool, 0;
    for j := 0 to |hits|
      invariant pool' == pool + NewHits(seen, hits[..j])
      invariant seen' == seen + Keys(NewHits(seen, hits[..j]), Id)
      invariant newCount == |NewHits(seen, hits[..j])|
    {
      var r := hits[j];
      var cid := Id(r);
      NewHitsSnoc(seen, hits, j);
      KeysSnoc(NewHits(seen, hits[..j]), r, Id);
      if cid == "" {
        continue;
      }
      if cid !in seen' {
        seen' := seen' + {cid};
        pool' := pool' + [r];
        newCount := newCount + 1;
      }
    }
    assert hits[..|hits|] == hits;
  }

  /** The added hits keep input order. */
  lemma {:induction false} NewHitsSubseq(seen: set<string>, hits: seq<Hit>)
    ensures Subseq(NewHits(seen, hits), hits)
  {
    if hits != [] {
      var init := hits[..|hits| - 1];
      var h := hits[|hits| - 1];
      var prev := NewHits(seen, init);
      NewHitsSubseq(seen, init);
      assert hits == init + [h];
      if Id(h) != "" && Id(h) !in seen && Id(h) !in Keys(prev, Id) {
        assert NewHits(seen, hits) == prev + [h];
        assert (prev + [h])[..|prev|] == prev;
      } else {
        assert NewHits(seen, hits) == prev;
        SubseqSnoc(prev, init, h);
      }
    }
  }

  /** The added hits have non-empty ids not seen before, and no two share an id. */
  lemma {:induction false} NewHitsFresh(seen: set<string>, hits: seq<Hit>)
    ensures forall h :: h in NewHits(seen, hits) ==> Id(h) != "" && Id(h) !in seen
    ensures forall i, j :: 0 <= i < j < |NewHits(seen, hits)| ==>
      Id(NewHits(seen, hits)[i]) != Id(NewHits(seen, hits)[j])
  {
    if hits != [] {
      var init := hits[..|hits| - 1];
      var h := hits[|hits| - 1];
      var prev := NewHits(seen, init);
      NewHitsFresh(seen, init);
      if Id(h) != "" && Id(h) !in seen && Id(h) !in Keys(prev, Id) {
        assert NewHits(seen, hits) == prev + [h];
        forall i | 0 <= i < |prev| ensures Id(prev[i]) != Id(h) {
          assert prev[i] in prev;
        }
      }
    }
  }

  /** The ids of the added hits are exactly the new ids of the round. */
  lemma {:induction false} NewHitsIds(seen: set<string>, hits: seq<Hit>)
    ensures Keys(NewHits(seen, hits), Id) == NewIds(seen, hits)
  {
    if hits != [] {
      var init := hits[..|hits| - 1];
      var h := hits[|hits| - 1];
      var prev := NewHits(seen, init);
      NewHitsIds(seen, init);
      assert hits == init + [h];
      KeysSnoc(prev, h, Id);
      assert NewIds(seen, hits) == NewIds(seen, init) + (if Id(h) != "" && Id(h) !in seen then {Id(h)} else {});
    }
  }

  /** new_count is the number of distinct non-empty ids of the round not seen before. */
  lemma NewCountIsNewIds(seen: set<string>, hits: seq<Hit>)
    ensures |NewHits(seen, hits)| == |NewIds(seen, hits)|
  {
    NewHitsFresh(seen, hits);
    NewHitsIds(seen, hits);
    DistinctKeysCard(NewHits(seen, hits), Id);
  }

  /** Merging the same hits again adds nothing. */
  lemma RemergeAddsNothing(seen: set<string>, hits: seq<Hit>)
    ensures NewHits(seen + Keys(NewHits(seen, hits), Id), hits) == []
  {
    var seen' := seen + Keys(NewHits(seen, hits), Id);
    NewHitsIds(seen, hits);
    NewCountIsNewIds(seen', hits);
    forall h | h in hits && Id(h) != "" ensures Id(h) in seen' {
      if Id(h) !in seen {
        assert Id(h) in NewIds(seen, hits);
      }
    }
    assert NewIds(seen', hits) == {};
  }

  /** The pool's ids are its keys: distinct, non-empty and the seen set. */
  ghost predicate PoolKeyed(seen: set<string>, pool: seq<Hit>) {
    && Keys(pool, Id) == seen
    && "" !in seen
    && forall i, j :: 0 <= i < j < |pool| ==> Id(pool[i]) != Id(pool[j])
  }

  /** A merge keeps the pool keyed by the seen set. */
  lemma MergeKeepsKeyed(seen: set<string>, pool: seq<Hit>, hits: seq<Hit>)
    requires PoolKeyed(seen, pool)
    ensures PoolKeyed(seen + Keys(NewHits(seen, hits), Id), pool + NewHits(seen, hits))
  {
    var added := NewHits(seen, hits);
    var p := pool + added;
    NewHitsFresh(seen, hits);
    KeysAppend(pool, added);
    forall i, j | 0 <= i < j < |p| ensures Id(p[i]) != Id(p[j]) {
      if i < |pool| && j >= |pool| {
        assert p[j] in added;
        assert Id(p[i]) in Keys(pool, Id) by {
          assert pool[i] in pool;
        }
      } else if i >= |pool| {
        assert p[i] == added[i - |pool|] && p[j] == added[j - |pool|];
      }
    }
    assert "" !in Keys(added, Id);
  }

  lemma KeysAppend(xs: seq<Hit>, ys: seq<Hit>)
    ensures Keys(xs + ys, Id) == Keys(xs, Id) + Keys(ys, Id)
  {
    forall k | k in Keys(xs + ys, Id) ensures k in Keys(xs, Id) + Keys(ys, Id) {
      var y :| y in xs + ys && Id(y) == k;
    }
    forall k | k in Keys(xs, Id) + Keys(ys, Id) ensures k in Keys(xs + ys, Id) {
      if k in Keys(xs, Id) {
        var y :| y in xs && Id(y) == k;
        assert y in xs + ys;
      } else {
        var y :| y in ys && Id(y) == k;
        assert y in xs + ys;
      }
    }
  }

  // ---------------------------------------------------------------------
  // The retrieval loop
  // ---------------------------------------------------------------------

  const MaxIters: nat := 3
  const TopKFirst: nat := 12
  const TopKNext: nat := 10
  const MaxPerDoc: int := 2

  /** top_k of round i (0-based). */
  function TopK(i: nat): nat {
    if i == 0 then TopKFirst else TopKNext
  }

  /** trace["stop_reason"]: "max_iters", "no_new_evidence" or "low_evidence_overlap". */
  datatype StopReason = MaxItersReached | NoNewEvidence | LowEvidenceOverlap

  /** One entry of trace["steps"]; topHits pairs doc_name with chunk_id. */
  datatype Step = Step(iter: nat, query: string, newChunksAdded: nat, topHits: seq<(Option<string>, string)>)

  /** The (doc_name, chunk_id) of the first five hits. */
  function TopHits(hits: seq<Hit>): (r: seq<(Option<string>, string)>)
    ensures |r| == Min(5, |hits|)
    ensures forall k :: 0 <= k < |r| ==> r[k] == (hits[k].chunk.docName, hits[k].chunk.chunkId)
  {
    Map(hits[..Min(5, |hits|)], (h: Hit) => (h.chunk.docName, h.chunk.chunkId))
  }

  /** The variables of the loop; `stopped` records that it broke out. */
  datatype LoopState = LoopState(
    query: string,
    seen: set<string>,
    pool: seq<Hit>,
    refined: seq<string>,
    entities: Entities,
    stop: StopReason,
    newCounts: seq<nat>,
    steps: seq<Step>,
    round1: seq<Hit>,
    round2: seq<Hit>,
    stopped: bool)

  function Start(q: string): LoopState {
    LoopState(q, {}, [], [], Entities([], [], []), MaxItersReached, [], [], [], [], false)
  }

  /** Round i (0-based) of the loop, run from state st. */
  ghost function RoundOf(q: string, search: (string, nat) -> seq<Hit>, i: nat, st: LoopState): LoopState
  {
    Advance(q, PoolEntities, i, st, Diversified(search(st.query, TopK(i)), MaxPerDoc))
  }

  /**
   * What round i does with the diversified hits it retrieved, the entities
   * of a pool given by `refine`.
   */
  function Advance(q: string, refine: seq<Hit> -> Entities, i: nat, st: LoopState, hits: seq<Hit>): LoopState
  {
    var added := NewHits(st.seen, hits);
    var seen := st.seen + Keys(added, Id);
    var pool := st.pool + added;
    var counts := st.newCounts + [|added|];
    var steps := st.steps + [Step(i + 1, st.query, |added|, TopHits(hits))];
    var r1 := if i == 0 then hits else st.round1;
    var r2 := if i == 1 then hits else st.round2;
    if i > 0 && |added| == 0 then
      LoopState(st.query, seen, pool, st.refined, st.entities, NoNewEvidence, counts, steps, r1, r2, true)
    else
      var e := refine(pool);
      var next := BuildRefinedQuery(q, e);
      LoopState(next, seen, pool, st.refined + [next], e, st.stop, counts, steps, r1, r2, false)
  }

  /** The entities extract_entities_from_sources lists for the pooled hits. */
  ghost function PoolEntities(pool: seq<Hit>): Entities {
    EntitiesFor(TextsOf(pool))
  }

  /**
   * The loop run for at most n rounds, each round given by `step`, stopping
   * early once a round breaks out.
   */
  ghost function Run(q: string, step: (nat, LoopState) -> LoopState, n: nat): LoopState
  {
    if n == 0 then Start(q)
    else
      var st := Run(q, step, n - 1);
      if st.stopped then st else step(n - 1, st)
  }

  /** The loop of ask run for at most n rounds. */
  ghost function Rounds(q: string, search: (string, nat) -> seq<Hit>, n: nat): LoopState
  {
    Run(q, RoundStep(q, search), n)
  }

  /** The rounds of the handler, as a step function. */
  ghost function RoundStep(q: string, search: (string, nat) -> seq<Hit>): (nat, LoopState) -> LoopState
  {
    (i: nat, st: LoopState) => RoundOf(q, search, i, st)
  }

  lemma RoundsNext(q: string, search: (string, nat) -> seq<Hit>, n: nat)
    requires !Rounds(q, search, n).stopped
    ensures Rounds(q, search, n + 1) == RoundOf(q, search, n, Rounds(q, search, n))
  {
  }

  /** Once the loop has broken out, a further round changes nothing. */
  lemma RoundsStay(q: string, search: (string, nat) -> seq<Hit>, n: nat)
    requires Rounds(q, search, n).stopped
    ensures Rounds(q, search, n + 1) == Rounds(q, search, n)
  {
  }

  /** The loop of ask, from the retrieval to the refinement of the query. */
  method RetrievalLoop(q: string, search: (string, nat) -> seq<Hit>) returns (st: LoopState)
    ensures st == Rounds(q, search, MaxIters)
  {
    var seen: set<string> := {};
    var pool: seq<Hit> := [];
    var refined: seq<string> := [];
    var entities := Entities([], [], []);
    var query := q;
    var stop := MaxItersReached;
    var newCounts: seq<nat> := [];
    var steps: seq<Step> := [];
    var round1: seq<Hit> := [];
    var round2: seq<Hit> := [];
    for i := 0 to MaxIters
      invariant LoopState(query, seen, pool, refined, entities, stop, newCounts, steps, round1, round2, false)
        == Rounds(q, search, i)
    {
      RoundsNext(q, search, i);
      var hits := search(query, if i == 0 then TopKFirst else TopKNext);
      hits := DiversifyByDoc(hits, MaxPerDoc);
      if i == 0 {
        round1 := hits;
      }
      if i == 1 {
        round2 := hits;
      }
      var newCount;
      seen, pool, newCount := MergeHits(seen, pool, hits);
      newCounts := newCounts + [newCount];
      steps := steps + [Step(i + 1, query, newCount, TopHits(hits))];
      if i > 0 && newCount == 0 {
        stop := NoNewEvidence;
        st := LoopState(query, seen, pool, refined, entities, stop, newCounts, steps, round1, round2, true);
        if i + 1 < MaxIters {
          RoundsStay(q, search, i + 1);
        }
        return;
      }
      entities := ExtractEntities(pool);
      ExtractedUnique(entities, TextsOf(pool));
      query := BuildRefinedQuery(q, entities);
      refined := refined + [query];
    }
    st := LoopState(query, seen, pool, refined, entities, stop, newCounts, steps, round1, round2, false);
  }

  // ---------------------------------------------------------------------
  // Properties of the loop
  // ---------------------------------------------------------------------

  /**
   * What one round i does to the loop's variables, whatever it retrieves:
   * the pool grows by the hits added, their number is appended to the
   * counts, a step numbered i + 1 with the query used is appended to the
   * trace; the round breaks out when it is not the first and added nothing,
   * and otherwise refines the query from the entities of the grown pool;
   * the snapshots of the first two rounds are kept; the pool stays keyed by
   * the seen set.
   */
  ghost predicate StepShape(q: string, refine: seq<Hit> -> Entities, i: nat, st: LoopState, r: LoopState) {
    StepGrows(i, st, r) && StepRefines(q, refine, st, r)
  }

  ghost predicate StepGrows(i: nat, st: LoopState, r: LoopState) {
    && |st.pool| <= |r.pool| && r.pool[..|st.pool|] == st.pool
    && r.newCounts == st.newCounts + [(|r.pool| - |st.pool|) as nat]
    && |r.steps| == |st.steps| + 1 && r.steps[..|st.steps|] == st.steps
    && r.steps[|st.steps|].iter == i + 1 && r.steps[|st.steps|].query == st.query
    && r.steps[|st.steps|].newChunksAdded == |r.pool| - |st.pool|
    && r.stopped == (i > 0 && |r.pool| == |st.pool|)
    && (i != 0 ==> r.round1 == st.round1)
    && (i != 1 ==> r.round2 == st.round2)
  }

  ghost predicate StepRefines(q: string, refine: seq<Hit> -> Entities, st: LoopState, r: LoopState) {
    && (r.stopped ==> r.query == st.query && r.refined == st.refined && r.entities == st.entities && r.stop == NoNewEvidence)
    && (!r.stopped ==>
      r.entities == refine(r.pool) && r.query == BuildRefinedQuery(q, r.entities)
      && r.refined == st.refined + [r.query] && r.stop == st.stop)
  }

  ghost predicate StepKeyed(st: LoopState, r: LoopState) {
    PoolKeyed(st.seen, st.pool) ==> PoolKeyed(r.seen, r.pool)
  }

  /** Every round of the handler has that shape. */
  lemma RoundOfShape(q: string, search: (string, nat) -> seq<Hit>, i: nat, st: LoopState)
    ensures StepShape(q, PoolEntities, i, st, RoundOf(q, search, i, st))
    ensures StepKeyed(st, RoundOf(q, search, i, st))
  {
    var hits := Diversified(search(st.query, TopK(i)), MaxPerDoc);
    AdvanceGrows(q, PoolEntities, i, st, hits);
    AdvanceRefines(q, PoolEntities, i, st, hits);
    AdvanceKeyed(q, PoolEntities, i, st, hits);
  }

  lemma AdvanceGrows(q: string, refine: seq<Hit> -> Entities, i: nat, st: LoopState, hits: seq<Hit>)
    ensures StepGrows(i, st, Advance(q, refine, i, st, hits))
  {
    var r := Advance(q, refine, i, st, hits);
    assert r.pool[..|st.pool|] == st.pool;
  }

  lemma AdvanceRefines(q: string, refine: seq<Hit> -> Entities, i: nat, st: LoopState, hits: seq<Hit>)
    ensures StepRefines(q, refine, st, Advance(q, refine, i, st, hits))
  {
  }

  lemma AdvanceKeyed(q: string, refine: seq<Hit> -> Entities, i: nat, st: LoopState, hits: seq<Hit>)
    ensures StepKeyed(st, Advance(q, refine, i, st, hits))
  {
    if PoolKeyed(st.seen, st.pool) {
      MergeKeepsKeyed(st.seen, st.pool, hits);
    }
  }

  /** Every round that `step` can run has that shape. */
  ghost predicate Shaped(q: string, refine: seq<Hit> -> Entities, step: (nat, LoopState) -> LoopState) {
    forall i: nat, st: LoopState :: ShapedAt(q, refine, step, i, st)
  }

  ghost predicate ShapedAt(q: string, refine: seq<Hit> -> Entities, step: (nat, LoopState) -> LoopState, i: nat, st: LoopState) {
    StepShape(q, refine, i, st, step(i, st))
  }

  /** Every round that `step` can run keeps the pool keyed by the seen set. */
  ghost predicate KeepsKeyed(step: (nat, LoopState) -> LoopState) {
    forall i: nat, st: LoopState :: StepKeyed(st, step(i, st))
  }

  lemma RoundsShaped(q: string, search: (string, nat) -> seq<Hit>)
    ensures Shaped(q, PoolEntities, RoundStep(q, search))
    ensures KeepsKeyed(RoundStep(q, search))
  {
    forall i: nat, st: LoopState {
      RoundOfShape(q, search, i, st);
    }
  }

  /** sum(xs) */
  function Sum(xs: seq<nat>): nat {
    if xs == [] then 0 else Sum(xs[..|xs| - 1]) + xs[|xs| - 1]
  }

  lemma SumSnoc(xs: seq<nat>, x: nat)
    ensures Sum(xs + [x]) == Sum(xs) + x
  {
    assert (xs + [x])[..|xs|] == xs;
  }

  /** A round that runs has the shape of a step. */
  lemma RunStep(q: string, refine: seq<Hit> -> Entities, step: (nat, LoopState) -> LoopState, n: nat)
    requires Shaped(q, refine, step) && n > 0 && !Run(q, step, n - 1).stopped
    ensures StepShape(q, refine, n - 1, Run(q, step, n - 1), Run(q, step, n))
  {
    var st := Run(q, step, n - 1);
    assert ShapedAt(q, refine, step, n - 1, st);
  }

  /**
   * One count and one step per round run: at most n of them, exactly n
   * unless the loop broke out, which takes at least two rounds; one refined
   * query per round that did not break out.
   */
  lemma {:induction false} RunLengths(q: string, refine: seq<Hit> -> Entities, step: (nat, LoopState) -> LoopState, n: nat)
    requires Shaped(q, refine, step)
    ensures var r := Run(q, step, n);
      && |r.newCounts| == |r.steps| <= n
      && (!r.stopped ==> |r.steps| == n)
      && (r.stopped ==> |r.steps| >= 2)
      && |r.refined| + (if r.stopped then 1 else 0) == |r.steps|
  {
    if n > 0 {
      RunLengths(q, refine, step, n - 1);
      if !Run(q, step, n - 1).stopped {
        RunStep(q, refine, step, n);
      }
    }
  }

  /** The k-th step is numbered k + 1 and records the k-th count. */
  lemma {:induction false} RunStepNumbers(q: string, refine: seq<Hit> -> Entities, step: (nat, LoopState) -> LoopState, n: nat)
    requires Shaped(q, refine, step)
    ensures var r := Run(q, step, n);
      && |r.steps| == |r.newCounts|
      && forall k :: 0 <= k < |r.steps| ==> r.steps[k].iter == k + 1 && r.steps[k].newChunksAdded == r.newCounts[k]
  {
    if n > 0 {
      RunStepNumbers(q, refine, step, n - 1);
      var st := Run(q, step, n - 1);
      if !st.stopped {
        RunStep(q, refine, step, n);
        RunLengths(q, refine, step, n - 1);
        var r := Run(q, step, n);
        forall k | 0 <= k < |st.steps|
          ensures r.steps[k] == st.steps[k] && r.newCounts[k] == st.newCounts[k]
        {
          assert r.steps[k] == r.steps[..|st.steps|][k];
        }
      }
    }
  }

  /** The counts add up to the size of the pool. */
  lemma {:induction false} RunSum(q: string, refine: seq<Hit> -> Entities, step: (nat, LoopState) -> LoopState, n: nat)
    requires Shaped(q, refine, step)
    ensures Sum(Run(q, step, n).newCounts) == |Run(q, step, n).pool|
  {
    if n > 0 {
      RunSum(q, refine, step, n - 1);
      var st := Run(q, step, n - 1);
      if !st.stopped {
        RunStep(q, refine, step, n);
        var r := Run(q, step, n);
        SumSnoc(st.newCounts, (|r.pool| - |st.pool|) as nat);
      }
    }
  }

  /**
   * The loop breaks out exactly at the first round after the first that
   * adds nothing: every other round after the first added something, and
   * the stop reason is "no_new_evidence" after a break and "max_iters"
   * otherwise.
   */
  lemma {:induction false} RunStop(q: string, refine: seq<Hit> -> Entities, step: (nat, LoopState) -> LoopState, n: nat)
    requires Shaped(q, refine, step)
    ensures var r := Run(q, step, n); r.stop == if r.stopped then NoNewEvidence else MaxItersReached
    ensures var r := Run(q, step, n);
      forall k :: 0 < k < |r.newCounts| && r.newCounts[k] == 0 ==> r.stopped && k == |r.newCounts| - 1
    ensures var r := Run(q, step, n); r.stopped ==> |r.newCounts| > 1 && r.newCounts[|r.newCounts| - 1] == 0
  {
    if n > 0 {
      RunStop(q, refine, step, n - 1);
      RunLengths(q, refine, step, n - 1);
      var st := Run(q, step, n - 1);
      if !st.stopped {
        RunStep(q, refine, step, n);
        var r := Run(q, step, n);
        forall k | 0 < k < |r.newCounts| && r.newCounts[k] == 0
          ensures r.stopped && k == |r.newCounts| - 1
        {
          if k < |st.newCounts| {
            assert false;
          }
        }
      }
    }
  }

  /** The query the loop ends with is the last refined query, or the question. */
  lemma {:induction false} RunFinalQuery(q: string, refine: seq<Hit> -> Entities, step: (nat, LoopState) -> LoopState, n: nat)
    requires Shaped(q, refine, step)
    ensures var r := Run(q, step, n); r.query == if r.refined == [] then q else r.refined[|r.refined| - 1]
  {
    if n > 0 {
      RunFinalQuery(q, refine, step, n - 1);
      if !Run(q, step, n - 1).stopped {
        RunStep(q, refine, step, n);
      }
    }
  }

  /** Every refined query starts with the question. */
  lemma {:induction false} RunRefinedStart(q: string, refine: seq<Hit> -> Entities, step: (nat, LoopState) -> LoopState, n: nat)
    requires Shaped(q, refine, step)
    ensures var r := Run(q, step, n); forall k :: 0 <= k < |r.refined| ==> StartsWith(r.refined[k], q)
  {
    if n > 0 {
      RunRefinedStart(q, refine, step, n - 1);
      var st := Run(q, step, n - 1);
      if !st.stopped {
        RunStep(q, refine, step, n);
        var r := Run(q, step, n);
        if !r.stopped {
          RefinedQueryShape(q, r.entities);
          assert forall k :: 0 <= k < |st.refined| ==> r.refined[k] == st.refined[k];
        } else {
          assert r.refined == st.refined;
        }
      } else {
        assert Run(q, step, n) == st;
      }
    }
  }

  /**
   * Each round searches with the query refined in the round before, and
   * the first round with the question.
   */
  lemma {:induction false} RunStepQueries(q: string, refine: seq<Hit> -> Entities, step: (nat, LoopState) -> LoopState, n: nat)
    requires Shaped(q, refine, step)
    ensures var r := Run(q, step, n);
      && |r.steps| <= |r.refined| + 1
      && forall k :: 0 <= k < |r.steps| ==> r.steps[k].query == if k == 0 then q else r.refined[k - 1]
  {
    if n > 0 {
      RunStepQueries(q, refine, step, n - 1);
      var st := Run(q, step, n - 1);
      if !st.stopped {
        RunStep(q, refine, step, n);
        RunLengths(q, refine, step, n - 1);
        RunFinalQuery(q, refine, step, n - 1);
        var r := Run(q, step, n);
        assert r.refined[..|st.refined|] == st.refined;
        forall k | 0 <= k < |st.steps|
          ensures r.steps[k] == st.steps[k]
        {
          assert r.steps[k] == r.steps[..|st.steps|][k];
        }
      }
    }
  }

  /**
   * The pool stays keyed by the seen set, and after any round the entities
   * are those of the whole pool.
   */
  lemma {:induction false} RunPool(q: string, refine: seq<Hit> -> Entities, step: (nat, LoopState) -> LoopState, n: nat)
    requires Shaped(q, refine, step) && KeepsKeyed(step)
    ensures var r := Run(q, step, n); PoolKeyed(r.seen, r.pool)
    ensures var r := Run(q, step, n); |r.steps| > 0 ==> r.entities == refine(r.pool)
  {
    if n > 0 {
      RunPool(q, refine, step, n - 1);
      RunLengths(q, refine, step, n - 1);
      var st := Run(q, step, n - 1);
      if !st.stopped {
        RunStep(q, refine, step, n);
        var r := Run(q, step, n);
        assert StepKeyed(st, step(n - 1, st));
        if r.stopped {
          assert r.pool == r.pool[..|st.pool|];
        }
      }
    } else {
      assert Keys([], Id) == {};
    }
  }

  /**
   * Nothing recorded is taken back: the pool, the steps and the refined
   * queries of an earlier round are prefixes of those of a later one.
   */
  lemma {:induction false} RunGrows(q: string, refine: seq<Hit> -> Entities, step: (nat, LoopState) -> LoopState, n: nat, m: nat)
    requires Shaped(q, refine, step) && n <= m
    ensures |Run(q, step, n).pool| <= |Run(q, step, m).pool|
    ensures Run(q, step, m).pool[..|Run(q, step, n).pool|] == Run(q, step, n).pool
    ensures |Run(q, step, n).steps| <= |Run(q, step, m).steps|
    ensures Run(q, step, m).steps[..|Run(q, step, n).steps|] == Run(q, step, n).steps
    ensures |Run(q, step, n).refined| <= |Run(q, step, m).refined|
    ensures Run(q, step, m).refined[..|Run(q, step, n).refined|] == Run(q, step, n).refined
    decreases m
  {
    if n < m {
      RunGrows(q, refine, step, n, m - 1);
      if !Run(q, step, m - 1).stopped {
        RunStep(q, refine, step, m);
        var a := Run(q, step, n);
        var b := Run(q, step, m - 1);
        var c := Run(q, step, m);
        assert c.pool[..|a.pool|] == c.pool[..|b.pool|][..|a.pool|];
        assert c.steps[..|a.steps|] == c.steps[..|b.steps|][..|a.steps|];
        assert c.refined[..|b.refined|] == b.refined;
        assert c.refined[..|a.refined|] == c.refined[..|b.refined|][..|a.refined|];
      }
    }
  }

  /** round1 is recorded by the first round and round2 by the second, if it runs. */
  lemma {:induction false} RunSnapshots(q: string, refine: seq<Hit> -> Entities, step: (nat, LoopState) -> LoopState, n: nat)
    requires Shaped(q, refine, step)
    ensures n >= 1 ==> Run(q, step, n).round1 == Run(q, step, 1).round1
    ensures n >= 2 ==> Run(q, step, n).round2 == Run(q, step, 2).round2
    ensures n <= 1 ==> Run(q, step, n).round2 == []
  {
    if n > 0 {
      RunSnapshots(q, refine, step, n - 1);
      if !Run(q, step, n - 1).stopped {
        RunStep(q, refine, step, n);
      }
    }
  }

  // ---------------------------------------------------------------------
  // The response of ask
  // ---------------------------------------------------------------------

  /** The plan every response lists. */
  const Plan: seq<string> := [
    "Identify intent and key constraints from the question.",
    "Retrieve evidence (iterative hybrid retrieval).",
    "Extract entities (product terms/commands/keywords) from evidence.",
    "Refine the query and retrieve again until evidence stabilizes.",
    "Synthesize a step-by-step answer grounded in evidence with citations.",
    "Verify citations and warn when coverage is weak."]

  /** The answer when the loop pooled no evidence at all. */
  const NoEvidenceMessage := "### Not enough evidence in the approved manuals\n"
    + "I searched the provided dataset but could not find documentation that supports an answer.\n"
    + "Try adding product/version, OS, module name, or the exact UI screen/setting label.\n"

  /** The answer when the pooled evidence does not match the question. */
  const LowOverlapMessage := "### Not enough evidence in the approved manuals\n"
    + "I found documentation, but it does not clearly match this question.\n"
    + "Try adding product version, OS, module name, or the exact UI screen/setting label.\n"

  /** Below this overlap between question and evidence no answer is built. */
  const MinOverlap: real := 0.12

  /** The verification reported when no answer is built. */
  const Unverified := Verification(0.0, 0, 0, true, [])

  const BannerHead := "### \U{26A0}\U{FE0F} Partial evidence found \U{2014} manual confirmation recommended\n\n"
    + "The system found relevant documentation, but not every statement could be fully supported "
    + "by explicit citations in the approved dataset.\n\n"

  const UnsupportedHeading := "\n\n---\n" + "### Unsupported or weakly supported statements:\n"

  /** f"- {u}" */
  function Bullet(u: string): string {
    "- " + u
  }

  /** The list of unsupported statements closing the banner. */
  function Listing(unsupported: seq<string>): string {
    if unsupported != [] then Join("\n", Map(unsupported, Bullet)) else "- (none listed)"
  }

  /** The answer wrapped in the partial-evidence banner. */
  function Bannered(answer: string, unsupported: seq<string>): string {
    BannerHead + answer + UnsupportedHeading + Listing(unsupported)
  }

  /** The answer as returned: bannered when the verification asks for confirmation. */
  function Confirmed(answer: string, v: Verification): string {
    if v.needsConfirmation then Bannered(answer, v.unsupportedTexts) else answer
  }

  /** "\n".join(c.get("text", "") for c in evidence) */
  function EvidenceText(pool: seq<Hit>): string {
    Join("\n", TextsOf(pool))
  }

  /** The "trace" of a response. */
  datatype Trace = Trace(
    iterations: nat,
    newChunksPerIteration: seq<nat>,
    stopReason: StopReason,
    finalQuery: string,
    totalUniqueChunks: nat,
    steps: seq<Step>,
    evidenceOverlap: Option<real>)

  /** The response of ask; round1 and round2 are the chunks of format_round_payload. */
  datatype Response = Response(
    plan: seq<string>,
    round1: seq<Chunk>,
    entities: Entities,
    refinedQueries: seq<string>,
    round2: seq<Chunk>,
    verification: Verification,
    answer: string,
    trace: Trace)

  /** The trace of the response, once the loop has ended in state st. */
  function TraceFor(q: string, st: LoopState): Trace {
    var trace := Trace(|st.newCounts|, st.newCounts, st.stop, st.query, |st.pool|, st.steps, None);
    if st.pool == [] then trace
    else
      var overlap := OverlapRatio(q, EvidenceText(st.pool));
      trace.(stopReason := if overlap < MinOverlap then LowEvidenceOverlap else st.stop, evidenceOverlap := Some(overlap))
  }

  /**
   * The answer and its verification, once the loop has ended in state st:
   * a message when there is no evidence or it does not match the question,
   * otherwise the answer built from the evidence, checked and bannered.
   */
  function ReplyFor(q: string, st: LoopState, answerOf: seq<Hit> -> string): (string, Verification) {
    if st.pool == [] then (NoEvidenceMessage, Unverified)
    else if OverlapRatio(q, EvidenceText(st.pool)) < MinOverlap then (LowOverlapMessage, Unverified)
    else
      var a := answerOf(st.pool);
      var v := Outcome(Claims(a), DefaultMinCoverage);
      (Confirmed(a, v), v)
  }

  /** What ask returns once its loop has ended in state st; the rounds are shown only with evidence. */
  function Respond(q: string, st: LoopState, answerOf: seq<Hit> -> string): Response {
    var reply := ReplyFor(q, st, answerOf);
    var shown := st.pool != [];
    Response(Plan, if shown then Chunks(st.round1) else [], st.entities, st.refined,
      if shown then Chunks(st.round2) else [], reply.1, reply.0, TraceFor(q, st))
  }

  /** ask(req) for req.question == question. */
  ghost function AskOf(question: string, search: (string, nat) -> seq<Hit>, osLine: string -> bool): Response {
    var q := Strip(question);
    Respond(q, AskState(question, search), AnswerFor(q, osLine))
  }

  /** The state the loop of ask ends in. */
  ghost function AskState(question: string, search: (string, nat) -> seq<Hit>): LoopState {
    Rounds(Strip(question), search, MaxIters)
  }

  /** answer_question(q, evidence), for the evidence ask gives it, which is never empty. */
  function AnswerFor(q: string, osLine: string -> bool): seq<Hit> -> string {
    (evidence: seq<Hit>) => if evidence == [] then "" else Answer.AnswerOf(q, evidence, osLine)
  }

  method Ask(question: string, search: (string, nat) -> seq<Hit>, osLine: string -> bool) returns (resp: Response)
    ensures resp == AskOf(question, search, osLine)
  {
    var q := Strip(question);
    var st := RetrievalLoop(q, search);
    var evidence := st.pool;
    var trace := Trace(|st.newCounts|, st.newCounts, st.stop, st.query, |evidence|, st.steps, None);
    if |evidence| == 0 {
      return Response(Plan, [], st.entities, st.refined, [], Unverified, NoEvidenceMessage, trace);
    }
    var overlap := OverlapRatio(q, Join("\n", TextsOf(evidence)));
    trace := trace.(evidenceOverlap := Some(overlap));
    if overlap < MinOverlap {
      trace := trace.(stopReason := LowEvidenceOverlap);
      return Response(Plan, Chunks(st.round1), st.entities, st.refined, Chunks(st.round2), Unverified, LowOverlapMessage, trace);
    }
    var answer, verification := SynthesizeAndVerify(q, evidence, osLine);
    resp := Response(Plan, Chunks(st.round1), st.entities, st.refined, Chunks(st.round2), verification, answer, trace);
  }

  /** The answer, its verification, and the banner when confirmation is needed. */
  method SynthesizeAndVerify(q: string, evidence: seq<Hit>, osLine: string -> bool)
    returns (answer: string, verification: Verification)
    requires evidence != []
    ensures verification == Outcome(Claims(Answer.AnswerOf(q, evidence, osLine)), DefaultMinCoverage)
    ensures answer == Confirmed(Answer.AnswerOf(q, evidence, osLine), verification)
  {
    answer := Answer.AnswerQuestion(q, evidence, osLine);
    verification := VerifyCitations(answer, DefaultMinCoverage);
    if verification.needsConfirmation {
      answer := Bannered(answer, verification.unsupportedTexts);
    }
  }

  // ---------------------------------------------------------------------
  // Properties of the response
  // ---------------------------------------------------------------------

  /**
   * The banner opens the answer, keeps it whole, and lists every
   * unsupported statement as a bullet, or "- (none listed)".
   */
  lemma BanneredShape(answer: string, unsupported: seq<string>)
    ensures StartsWith(Bannered(answer, unsupported), BannerHead)
    ensures Contains(Bannered(answer, unsupported), answer)
    ensures forall u :: u in unsupported ==> Contains(Bannered(answer, unsupported), "- " + u)
    ensures unsupported == [] ==> EndsWith(Bannered(answer, unsupported), "- (none listed)")
  {
    var head := BannerHead + answer + UnsupportedHeading;
    Framed(BannerHead, answer, UnsupportedHeading, Listing(unsupported));
    ContainsInConcat(BannerHead, answer, UnsupportedHeading);
    ContainsLeft(head, Listing(unsupported), answer);
    forall u | u in unsupported
      ensures Contains(Bannered(answer, unsupported), "- " + u)
    {
      var k :| 0 <= k < |unsupported| && unsupported[k] == u;
      var bullets := Map(unsupported, Bullet);
      ContainsSelf(bullets[k]);
      ContainsJoin("\n", bullets, k, "- " + u);
      ContainsRight(head, Listing(unsupported), "- " + u);
    }
  }

  /** sum(xs) == 0 only when every element is 0. */
  lemma {:induction false} SumZero(xs: seq<nat>)
    requires Sum(xs) == 0
    ensures forall k :: 0 <= k < |xs| ==> xs[k] == 0
  {
    if xs != [] {
      SumZero(xs[..|xs| - 1]);
      assert forall k :: 0 <= k < |xs| - 1 ==> xs[k] == xs[..|xs| - 1][k];
    }
  }

  /**
   * The trace counts the rounds run, two or three since the loop never
   * breaks out of the first: one count and one numbered step per round, the
   * counts adding up to the number of chunks pooled.
   */
  lemma AskCounts(question: string, search: (string, nat) -> seq<Hit>)
    ensures var st := AskState(question, search); var t := TraceFor(Strip(question), st);
      && t.iterations == |t.newChunksPerIteration| == |t.steps|
      && 2 <= t.iterations <= MaxIters
      && t.totalUniqueChunks == Sum(t.newChunksPerIteration) == |st.pool|
      && forall k :: 0 <= k < t.iterations ==>
        t.steps[k].iter == k + 1 && t.steps[k].newChunksAdded == t.newChunksPerIteration[k]
  {
    var q := Strip(question);
    var step := RoundStep(q, search);
    RoundsShaped(q, search);
    RunLengths(q, PoolEntities, step, MaxIters);
    RunStepNumbers(q, PoolEntities, step, MaxIters);
    RunSum(q, PoolEntities, step, MaxIters);
  }

  /**
   * The loop ran all three rounds ("max_iters"), or broke out after a round
   * past the first that added nothing ("no_new_evidence"), unless the gate
   * found too little overlap ("low_evidence_overlap"); the overlap is
   * reported exactly when there is evidence.  A round past the first that
   * added nothing is the last.
   */
  lemma AskStop(question: string, search: (string, nat) -> seq<Hit>)
    ensures var st := AskState(question, search); var t := TraceFor(Strip(question), st);
      && (t.evidenceOverlap.Some? <==> st.pool != [])
      && (t.stopReason == LowEvidenceOverlap <==> t.evidenceOverlap.Some? && t.evidenceOverlap.value < MinOverlap)
      && (t.stopReason == MaxItersReached ==> t.iterations == MaxIters && |st.refined| == MaxIters)
      && (t.stopReason == NoNewEvidence ==>
        2 <= t.iterations == |t.newChunksPerIteration| && t.newChunksPerIteration[t.iterations - 1] == 0
        && |st.refined| == t.iterations - 1)
  {
    var st := AskState(question, search);
    RoundsStop(Strip(question), search, MaxIters, st);
  }

  /** How a run of n rounds can end: all n rounds, or a break after a round past the first that added nothing. */
  lemma RoundsStop(q: string, search: (string, nat) -> seq<Hit>, n: nat, st: LoopState)
    requires st == Rounds(q, search, n)
    ensures st.stop == if st.stopped then NoNewEvidence else MaxItersReached
    ensures !st.stopped ==> |st.newCounts| == n && |st.refined| == n
    ensures st.stopped ==>
      2 <= |st.newCounts| && st.newCounts[|st.newCounts| - 1] == 0 && |st.refined| == |st.newCounts| - 1
  {
    var step := RoundStep(q, search);
    RoundsShaped(q, search);
    RunLengths(q, PoolEntities, step, n);
    RunStop(q, PoolEntities, step, n);
  }

  /** A round past the first that added nothing is the last, and the loop broke out there. */
  lemma AskNothingNewEnds(question: string, search: (string, nat) -> seq<Hit>)
    ensures var st := AskState(question, search); var t := TraceFor(Strip(question), st);
      forall k :: 0 < k < |t.newChunksPerIteration| && t.newChunksPerIteration[k] == 0 ==>
        k == |t.newChunksPerIteration| - 1 && t.stopReason != MaxItersReached
  {
    var q := Strip(question);
    RoundsShaped(q, search);
    RunStop(q, PoolEntities, RoundStep(q, search), MaxIters);
  }

  /** Round k + 1 searches with the query refined after round k, the first round with the question. */
  lemma AskQueries(question: string, search: (string, nat) -> seq<Hit>)
    ensures var st := AskState(question, search);
      && |st.steps| <= |st.refined| + 1
      && forall k :: 0 <= k < |st.steps| ==>
        st.steps[k].query == if k == 0 then Strip(question) else st.refined[k - 1]
  {
    var q := Strip(question);
    RoundsShaped(q, search);
    RunStepQueries(q, PoolEntities, RoundStep(q, search), MaxIters);
  }

  /**
   * One to three refined queries, each extending the question; the loop
   * ends with the last of them as its query, reported as final_query.
   */
  lemma AskRefined(question: string, search: (string, nat) -> seq<Hit>)
    ensures var st := AskState(question, search);
      && 1 <= |st.refined| <= MaxIters
      && st.query == st.refined[|st.refined| - 1]
      && forall k :: 0 <= k < |st.refined| ==> StartsWith(st.refined[k], Strip(question))
  {
    var st := AskState(question, search);
    RoundsRefined(Strip(question), search, MaxIters, st);
  }

  /** AskRefined for any positive number of rounds. */
  lemma RoundsRefined(q: string, search: (string, nat) -> seq<Hit>, n: nat, st: LoopState)
    requires n >= 1 && st == Rounds(q, search, n)
    ensures && 1 <= |st.refined| <= n
      && st.query == st.refined[|st.refined| - 1]
      && forall k :: 0 <= k < |st.refined| ==> StartsWith(st.refined[k], q)
  {
    var step := RoundStep(q, search);
    RoundsShaped(q, search);
    RunLengths(q, PoolEntities, step, n);
    RunFinalQuery(q, PoolEntities, step, n);
    RunRefinedStart(q, PoolEntities, step, n);
  }

  /**
   * The evidence holds each chunk id once and no empty id, and the entities
   * reported are those of all of it.
   */
  lemma AskEvidence(question: string, search: (string, nat) -> seq<Hit>)
    ensures var st := AskState(question, search);
      && (forall h :: h in st.pool ==> Id(h) != "")
      && (forall i, j :: 0 <= i < j < |st.pool| ==> Id(st.pool[i]) != Id(st.pool[j]))
      && Extracted(st.entities, TextsOf(st.pool))
  {
    var q := Strip(question);
    var step := RoundStep(q, search);
    RoundsShaped(q, search);
    RunLengths(q, PoolEntities, step, MaxIters);
    RunPool(q, PoolEntities, step, MaxIters);
    var st := AskState(question, search);
    forall h | h in st.pool ensures Id(h) != "" {
      assert Id(h) in Keys(st.pool, Id);
    }
  }

  /** With no evidence pooled, the second round added nothing and ended the loop. */
  lemma AskNoEvidence(question: string, search: (string, nat) -> seq<Hit>)
    ensures var st := AskState(question, search); var t := TraceFor(Strip(question), st);
      st.pool == [] ==> t.iterations == 2 && t.stopReason == NoNewEvidence && t.evidenceOverlap == None
  {
    var q := Strip(question);
    var step := RoundStep(q, search);
    var st := AskState(question, search);
    RoundsShaped(q, search);
    RunLengths(q, PoolEntities, step, MaxIters);
    RunSum(q, PoolEntities, step, MaxIters);
    RunStop(q, PoolEntities, step, MaxIters);
    if st.pool == [] {
      SumZero(st.newCounts);
      assert st.newCounts[1] == 0;
    }
  }

  /**
   * Evidence holding none of the question's words has overlap 0.0, so it
   * gets the low-overlap message, no answer to verify, and the stop reason
   * "low_evidence_overlap", whatever answer could be built from it.
   */
  lemma LowOverlapReply(q: string, st: LoopState, answerOf: seq<Hit> -> string)
    requires st.pool != []
    requires forall w :: w in QueryWords(q) ==> !Contains(Lower(EvidenceText(st.pool)), w)
    ensures ReplyFor(q, st, answerOf) == (LowOverlapMessage, Unverified)
    ensures TraceFor(q, st).stopReason == LowEvidenceOverlap && TraceFor(q, st).evidenceOverlap == Some(0.0)
  {
    OverlapZero(q, EvidenceText(st.pool));
  }

  /**
   * The answer returned holds the one built, opens with the banner exactly
   * when the verification asks for confirmation, then listing every
   * unsupported statement, and is the built answer unchanged otherwise;
   * whatever the built answer contains, the returned one contains.
   */
  lemma ConfirmedShape(a: string, v: Verification, cite: string)
    requires Contains(a, cite)
    ensures Contains(Confirmed(a, v), a) && Contains(Confirmed(a, v), cite)
    ensures v.needsConfirmation ==>
      StartsWith(Confirmed(a, v), BannerHead) && forall u :: u in v.unsupportedTexts ==> Contains(Confirmed(a, v), "- " + u)
    ensures !v.needsConfirmation ==> Confirmed(a, v) == a
  {
    ContainsSelf(a);
    if v.needsConfirmation {
      BanneredShape(a, v.unsupportedTexts);
    }
    ContainsTrans(Confirmed(a, v), a, cite);
  }

  /**
   * Evidence that passes the gate is answered by answer_question and the
   * answer verified; the answer returned is that answer, bannered exactly
   * when the verification asks for confirmation, and cites a chunk of the
   * evidence.
   */
  lemma AskAnswered(question: string, search: (string, nat) -> seq<Hit>, osLine: string -> bool)
    ensures var q := Strip(question); var pool := AskState(question, search).pool;
      var (answer, v) := ReplyFor(q, AskState(question, search), AnswerFor(q, osLine));
      pool != [] && OverlapRatio(q, EvidenceText(pool)) >= MinOverlap ==>
        var a := Answer.AnswerOf(q, pool, osLine);
        && v == Outcome(Claims(a), DefaultMinCoverage)
        && answer == Confirmed(a, v)
        && exists h :: h in pool && Contains(answer, Synthesis.Cite(h.chunk))
  {
    var q := Strip(question);
    var pool := AskState(question, search).pool;
    if pool != [] && OverlapRatio(q, EvidenceText(pool)) >= MinOverlap {
      var a := Answer.AnswerOf(q, pool, osLine);
      var v := Outcome(Claims(a), DefaultMinCoverage);
      Answer.AnswerCitesEvidence(q, pool, osLine);
      var h :| h in pool && Contains(a, Synthesis.Cite(h.chunk));
      ConfirmedShape(a, v, Synthesis.Cite(h.chunk));
    }
  }

  /** Round 0 keeps as round1, and round 1 as round2, the diversified hits of its own search. */
  ghost predicate Retrieves(search: (string, nat) -> seq<Hit>, step: (nat, LoopState) -> LoopState) {
    forall i: nat, st: LoopState :: RetrievesAt(search, step, i, st)
  }

  ghost predicate RetrievesAt(search: (string, nat) -> seq<Hit>, step: (nat, LoopState) -> LoopState, i: nat, st: LoopState) {
    && (i == 0 ==> step(i, st).round1 == Diversified(search(st.query, TopK(i)), MaxPerDoc))
    && (i == 1 ==> step(i, st).round2 == Diversified(search(st.query, TopK(i)), MaxPerDoc))
  }

  lemma RoundsRetrieve(q: string, search: (string, nat) -> seq<Hit>)
    ensures Retrieves(search, RoundStep(q, search))
  {
    forall i: nat, st: LoopState ensures RetrievesAt(search, RoundStep(q, search), i, st) {
      AdvanceSnapshots(q, PoolEntities, i, st, Diversified(search(st.query, TopK(i)), MaxPerDoc));
    }
  }

  lemma AdvanceSnapshots(q: string, refine: seq<Hit> -> Entities, i: nat, st: LoopState, hits: seq<Hit>)
    ensures Advance(q, refine, i, st, hits).round1 == if i == 0 then hits else st.round1
    ensures Advance(q, refine, i, st, hits).round2 == if i == 1 then hits else st.round2
  {
  }

  /**
   * In a loop of at least two rounds, round1 holds what the first search,
   * with the question, retrieved and round2 what the second, with the first
   * refined query, retrieved.
   */
  lemma RunFirstTwo(q: string, refine: seq<Hit> -> Entities, step: (nat, LoopState) -> LoopState,
                    search: (string, nat) -> seq<Hit>, n: nat)
    requires Shaped(q, refine, step) && Retrieves(search, step) && n >= 2
    ensures var r := Run(q, step, n);
      && |r.refined| >= 1
      && r.round1 == Diversified(search(q, TopKFirst), MaxPerDoc)
      && r.round2 == Diversified(search(r.refined[0], TopKNext), MaxPerDoc)
  {
    var r0 := Run(q, step, 0);
    var r1 := Run(q, step, 1);
    RunStep(q, refine, step, 1);
    assert RetrievesAt(search, step, 0, r0);
    assert r1.refined == [r1.query];
    RunStep(q, refine, step, 2);
    assert RetrievesAt(search, step, 1, r1);
    RunSnapshots(q, refine, step, n);
    RunGrows(q, refine, step, 1, n);
    assert Run(q, step, n).refined[..1] == [r1.query];
  }

  /**
   * round1 and round2 are the diversified hits of the first two searches,
   * with the question at top_k 12 and with the first refined query at
   * top_k 10 (the loop always runs at least two rounds).
   */
  lemma AskRounds(question: string, search: (string, nat) -> seq<Hit>)
    ensures var st := AskState(question, search);
      && |st.refined| >= 1
      && st.round1 == Diversified(search(Strip(question), TopKFirst), MaxPerDoc)
      && st.round2 == Diversified(search(st.refined[0], TopKNext), MaxPerDoc)
  {
    var q := Strip(question);
    RoundsShaped(q, search);
    RoundsRetrieve(q, search);
    RunFirstTwo(q, PoolEntities, RoundStep(q, search), search, MaxIters);
  }
}
