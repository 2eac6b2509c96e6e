# RiA core in Dafny

RiA answers questions about a set of product manuals (RICOH ProcessDirector)
from the manuals alone. Its pipeline has these stages:

1. PDF pages are cleaned and cut into chunks with a section label and a stable chunk id.
2. The chunks are searched by a hybrid retriever that fuses BM25 and vector scores.
3. `/ask` runs an agentic loop of up to three rounds. Each round searches, caps hits per document and adds
   unseen chunks to an evidence pool. It then extracts entities from the pool and builds a refined query.
   The loop stops early when a later round adds nothing.
4. When there is no evidence, or the evidence barely shares words with the question, the answer is a fixed
   "not enough evidence" reply.
5. Otherwise a deterministic extractor writes a cited markdown answer.
6. A citation checker measures how many claims carry a `[... | chunk: id]` citation. A banner asks for
   manual confirmation when coverage is below 0.85.

The model follows the source file by file:

| source file | Dafny |
|---|---|
| ingest/parse_pdf.py | `PageText`, `ParsePdf` (ParsePdf.dfy) |
| ingest/chunker.py | `Chunker` |
| api/retrieval.py | `Retrieval` |
| api/refine.py | `Refine` |
| api/verify.py | `Verify` |
| api/synthesis.py | `Synthesis` (citations, pick_best, bullets), `Extractors` (line and command extractors), `Answer` (answer_question) |
| api/generic.py | `Generic` |
| api/main.py | `Orchestrator` |

`Text`, `Records`, `Sorting` and `Lists` hold the string, record, sorting and de-duplication
vocabulary that the modules share.

Code that loops and updates variables becomes a `method` with loop invariants. Each such method is
proved equal to a recursive specification function, or to a function of its inputs. Examples are
`SplitClaims`, `MergeHits`, `RetrievalLoop`, `DiversifyByDoc` and `PickBest`. The lemmas below then
state what the source promises about those functions.

chunk_document's `flush` closure shares its state through `nonlocal`. That state is the class
`Chunker.ChunkState`. Its methods are proved against the value-level functions `FlushAcc`, `AddAcc`
and `Chunked`.

The retriever, the regular expressions HEADING_RE and OS_LINE_RE, and SHA-1 are parameters of the
model. Their results are used as given.

## Model

| member | source | states |
|---|---|---|
| PageText.RemoveSoftHyphensLacks | ingest/parse_pdf.py:15 | no soft hyphen (U+00AD) is left after the first cleaning step |
| PageText.CollapseBlanksNoRuns | ingest/parse_pdf.py:16 | after collapsing, no tab is left and no two spaces are adjacent |
| PageText.CapNewlinesNoTriple | ingest/parse_pdf.py:17 | after capping, the text never holds three newlines in a row |
| PageText.CleanTextProperties | ingest/parse_pdf.py:14-18 | clean_text output has no soft hyphen, no tab, no two adjacent spaces, no triple newline and no whitespace at either end |
| PageText.CleanTextIdempotent | ingest/parse_pdf.py:14-18 | cleaning an already cleaned page changes nothing |
| ParsePdf.CleanPagesAll | ingest/parse_pdf.py:21-36 | the k-th extracted page becomes page number k+1 holding the cleaned text of the k-th raw page |
| ParsePdf.NonemptyBoundsChars | ingest/parse_pdf.py:50-51 | the count of non-empty pages never exceeds the total character count |
| ParsePdf.ParsePdf | ingest/parse_pdf.py:39-62 | exactly one of document and error is present. An extraction failure yields "TypeName: message". A success records name, path, page count and the cleaned pages, with total_chars their character total and nonempty_pages the number of non-empty pages |
| ParsePdf.NonemptyPagesCount | ingest/parse_pdf.py:51 | nonempty_pages equals the number of page positions whose text is non-empty |
| Chunker.IsHeadingStripped | ingest/chunker.py:22-26 | blanks around a line never change whether it is a heading |
| Chunker.SplitIntoBlocks | ingest/chunker.py:31-41 | the blocks are the pages' blank-line separated parts, in page order, tagged with their page |
| Chunker.PageBlocksFacts | ingest/chunker.py:38-40 | every block of a page carries that page's number and is non-empty and already stripped |
| Chunker.BlocksWellFormed | ingest/chunker.py:31-41 | every block is non-empty and stripped, and its page number is that of one of the input pages |
| Chunker.BlankPageNoBlocks | ingest/chunker.py:35-37 | a page whose text is blank contributes no block |
| Chunker.NormalizedLines | ingest/chunker.py:47 | the kept lines of a block are non-empty and single-spaced |
| Chunker.BuildSections | ingest/chunker.py:43-55 | the sectioned records are the left-to-right section scan of the blocks, starting from UNSPECIFIED |
| Chunker.SectionBlock | ingest/chunker.py:47-54 | one block yields at most one record, filed under the section that block leaves current |
| Chunker.SectionsLabels | ingest/chunker.py:43-55 | there are no more records than blocks, and each record's section is the starting section or a heading line |
| Chunker.HeadingBlockSetsSection | ingest/chunker.py:48-52 | a block opening with a heading makes its first line the current section, whatever section was current before |
| Chunker.TokenCountStrip | ingest/chunker.py:57-58 | stripping whitespace does not change the \w+ token count |
| Chunker.TokenCountConcat | ingest/chunker.py:57-58 | token counts add up over a concatenation that does not glue two word characters together |
| Chunker.TokenCountJoin | ingest/chunker.py:83-93 | the tokens of the newline-joined buffer are the sum of the tokens of its pieces |
| Chunker.SafeNameAlnum | ingest/chunker.py:63 | a name made only of letters and digits is kept unchanged by the non-alphanumeric substitution |
| Chunker.ChunkIdShape | ingest/chunker.py:60-64 | a chunk id consists only of word characters and is at least 30 long. It starts with the first 40 characters of the safe document name and ends with the first 12 hex digits of the digest of its base string |
| Chunker.MinPage | ingest/chunker.py:82 | page_start is a page of the buffer and no buffered page is smaller |
| Chunker.MaxPage | ingest/chunker.py:82 | page_end is a page of the buffer and no buffered page is larger |
| Chunker.ChunkOfFacts | ingest/chunker.py:81-94 | the flushed chunk is well formed with its index, spans every buffered page, keeps the current section, and its tokens_rough is the buffer's token total |
| Chunker.KeepStart | ingest/chunker.py:101-105 | the backward scan stops at the first suffix (from the end) whose tokens reach the overlap, or at the start of the buffer |
| Chunker.OverlapShortestSuffix | ingest/chunker.py:98-110 | the kept buffer is empty without overlap. Otherwise it is the shortest non-empty suffix reaching the overlap, or the whole buffer when none does |
| Chunker.KeepOverlap | ingest/chunker.py:98-107 | the backward loop keeps exactly that suffix, in buffer order, and its token total |
| Chunker.FlushAccFacts | ingest/chunker.py:77-110 | flush keeps earlier chunks and the section. It adds at most one chunk, well formed with the next index and filed under the current section |
| Chunker.AddAccFacts | ingest/chunker.py:112-129 | one loop pass keeps earlier chunks and their well-formedness. New chunks and the new current section are the old section or the record's own |
| Chunker.ChunkedGrows | ingest/chunker.py:112-132 | chunks are emitted once and never revised: the chunks after a prefix of the records are a prefix of the final ones, and each is well formed with its index |
| Chunker.SeenSectionSnoc | ingest/chunker.py:117-119 | a section seen among the records stays seen when a record is appended, and a non-empty record's own section is seen |
| Chunker.ChunkedSections | ingest/chunker.py:112-132 | every chunk, and the current section, is filed under UNSPECIFIED or the section of a non-empty record |
| Chunker.ChunkState.constructor | ingest/chunker.py:71-75 | the state starts with an empty buffer, no chunks and section UNSPECIFIED |
| Chunker.ChunkState.Flush | ingest/chunker.py:77-110 | the new state is FlushAcc of the old one, and the token total and chunk counter stay consistent |
| Chunker.ChunkState.Add | ingest/chunker.py:112-129 | the new state is AddAcc of the old one and the record |
| Chunker.ChunkState.Push | ingest/chunker.py:125-126 | the piece is appended and its tokens are added, and nothing else changes |
| Chunker.ChunkDocument | ingest/chunker.py:66-132 | the result is the chunks of the section scan after the final flush, and the k-th chunk is well formed with chunk index k |
| Retrieval.ReplaceOthers | api/retrieval.py:16 | every character left is a lower-case letter, a digit or whitespace |
| Retrieval.TokenizeShape | api/retrieval.py:14-17 | every BM25 token has at least two characters, all lower-case letters or digits |
| Retrieval.TokenizeIgnoresCase | api/retrieval.py:14-17 | tokenizing a lower-cased text gives the same tokens |
| Retrieval.VecResults | api/retrieval.py:42-43 | the vector hits are exactly the (id, score) pairs whose id is not -1 |
| Retrieval.DropMissing | api/retrieval.py:43 | a pair is kept iff it was returned and its index is not -1 |
| Retrieval.ExtremesAttained | api/retrieval.py:53-54 | the minimum and maximum scores are scores of some returned pair |
| Retrieval.NormValue | api/retrieval.py:50-57 | the normalised score of an index is min-max normalisation of its last listed score |
| Retrieval.NormInUnit | api/retrieval.py:50-57 | every normalised score lies in [0, 1] |
| Retrieval.NormDegenerate | api/retrieval.py:55-56 | when all scores are within 1e-9 of each other, every index normalises to 1.0 |
| Retrieval.NormMonotone | api/retrieval.py:57 | normalisation preserves the order of scores |
| Retrieval.NormExtremes | api/retrieval.py:57 | with a real spread, the lowest score maps to 0.0 and the highest to 1.0 |
| Retrieval.FusedInUnit | api/retrieval.py:65 | the fused score 0.55·bm25 + 0.45·vector lies in [0, 1] |
| Retrieval.FusedOneSided | api/retrieval.py:65 | a candidate found only by BM25 scores 0.55 times its normalised BM25 score |
| Retrieval.ScoreCandidates | api/retrieval.py:62-66 | each candidate from either ranker is scored once with its fused score |
| Retrieval.PermutationFused | api/retrieval.py:68 | sorting keeps the candidates, their uniqueness and their fused scores |
| Retrieval.TopRanked | api/retrieval.py:68-69 | any candidate cut off by top_k scores no more than every kept hit |
| Retrieval.TopHits | api/retrieval.py:71-76 | the hits are the chunk rows of the ranked indices, in rank order, each with its fused score |
| Retrieval.HybridSearch | api/retrieval.py:45-76 | min(top_k, #candidates) distinct candidates, best fused score first, each with its chunk row. No cut-off candidate outscores a kept one |
| Refine.RunTokenFacts | api/refine.py:7 | every token found in a run of token characters has the TOKEN_RE shape and occurs in the text |
| Refine.TokensFacts | api/refine.py:7 | every token TOKEN_RE finds has its shape (a letter, then at least two of [A-Za-z0-9_-]) and occurs in the text |
| Refine.ExtractEntities | api/refine.py:16-51 | the entities are the sorted, capped sets of software names, commands and keywords found in the sources' texts |
| Refine.ExtractedUnique | api/refine.py:16-51 | the extracted entities are determined by the texts alone |
| Refine.ExtractedOrderFree | api/refine.py:16-51 | the order and repetition of the sources do not change the entities |
| Refine.AddKeywords | api/refine.py:31-33 | one text adds exactly the keywords it contains case-insensitively |
| Refine.AddCommands | api/refine.py:36-45 | one text adds exactly its lower-cased non-stopword tokens that look like commands |
| Refine.SoftwareMembers | api/refine.py:25-28 | a software name is listed iff some source text yields it |
| Refine.SoftwareListed | api/refine.py:25-28 | software is only "RICOH ProcessDirector" and "ProcessDirector", listed iff found, and the first implies the second |
| Refine.RicohImpliesProduct | api/refine.py:25-28 | finding "RICOH ProcessDirector" always also finds "ProcessDirector" |
| Refine.SoftwareFew | api/refine.py:25-28 | at most two software names are ever found |
| Refine.KeywordsMembers | api/refine.py:31-33 | a keyword is collected iff some source text yields it |
| Refine.KeywordsListed | api/refine.py:31-33 | a keyword is listed iff it is one of the ten known keywords and some text contains it case-insensitively |
| Refine.CommandsMembers | api/refine.py:36-45 | a command is collected iff some source text yields it |
| Refine.CommandsOfTokensMembers | api/refine.py:36-45 | a command comes from the tokens iff it is a lower-cased token that looks like a command |
| Refine.CommandInText | api/refine.py:36-45 | a command of a text is a lower-cased token of it, not a stopword, and contains a command marker |
| Refine.CommandsShape | api/refine.py:36-45 | every listed command is a lower-cased, non-stopword token of some source text that contains a command marker |
| Refine.NamedCommandsMarked | api/refine.py:44-45 | stopaiw and startaiw already contain a marker, so the explicit check adds nothing |
| Refine.RefinedQueryShape | api/refine.py:53-61 | the refined query is the question followed by " item" for each entity. It starts with the question and equals it iff there are no entities |
| Refine.JoinSpaced | api/refine.py:61 | joining the question and the items with spaces is the question followed by each item after a space |
| Verify.ClassifyLine | api/verify.py:17-27 | a stripped line is kept iff it is not a heading and is a bullet, a numbered step or at least 25 long |
| Verify.SplitClaims | api/verify.py:9-29 | the claims are the classified stripped non-empty lines, in order |
| Verify.StrippedLinesExact | api/verify.py:14 | a line is kept iff it is the non-empty stripped form of some input line |
| Verify.ClaimsExact | api/verify.py:17-27 | a line is a claim iff it is one of the lines and passes the claim test |
| Verify.ClaimsOfAnswer | api/verify.py:9-29 | a string is a claim iff it is the non-empty stripped form of some line and passes the claim test. No claim is a heading |
| Verify.CitationFound | api/verify.py:7 | any "[... chunk: id]" without ']' inside the brackets is recognised as a citation |
| Verify.NoBracketNoCitation | api/verify.py:7 | text without '[' or without ']' never counts as cited |
| Verify.CountCitations | api/verify.py:42-49 | the loop counts the cited claims and lists the uncited ones in order |
| Verify.UncitedExact | api/verify.py:42-49 | cited and uncited claims partition the claims, and the uncited ones are exactly those without a citation |
| Verify.VerifyCitations | api/verify.py:31-60 | the verification record is the outcome computed from the answer's claims |
| Verify.OutcomeCounts | api/verify.py:51-60 | coverage is cited/total in [0, 1], confirmation is needed iff coverage < min, and at most 12 uncited claims are listed |
| Verify.NoClaims | api/verify.py:33-40 | an answer without claims has coverage 0 and needs confirmation |
| Verify.AllCited | api/verify.py:31-60 | when every claim is cited, coverage is 1, nothing is listed and no confirmation is needed |
| Verify.JoinedClaims | api/verify.py:9-29 | claim lines joined with newlines are split back into exactly those claims |
| Verify.OneUncitedTolerated | api/verify.py:58 | with seven or more claims, one uncited claim still passes the 0.85 threshold |
| Verify.OneUncitedAmongFewFlagged | api/verify.py:58 | with at most six claims, a single uncited claim triggers confirmation |
| Verify.OneShortRatio | api/verify.py:58 | (n-1)/n reaches 0.85 iff n >= 7 |
| Synthesis.CiteSupported | api/synthesis.py:7-8 | any text holding a chunk's citation counts as cited by the citation checker |
| Synthesis.CiteOneLine | api/synthesis.py:7-8 | a citation is one line, opening with '[' and closing with ']' |
| Synthesis.ChunkCitable | api/synthesis.py:7-8 | a chunk produced by the chunker, from a name without ']' or newline, can be cited |
| Synthesis.KeywordScoreZero | api/synthesis.py:17-21 | a chunk scores 0 iff its lower-cased text contains no keyword |
| Synthesis.KeywordScoreFull | api/synthesis.py:17-21 | a chunk scores the keyword count iff its text contains every keyword |
| Synthesis.CountKeywords | api/synthesis.py:17-21 | the loop counts the keywords contained in the lower-cased text |
| Synthesis.PickBest | api/synthesis.py:11-24 | pick_best's loop scores every piece of evidence and returns Best, whose ranking, tie order and fallback BestRanked, BestStable and BestFallback state |
| Synthesis.PositivesSortPerm | api/synthesis.py:23 | sorting does not change which scored pieces of evidence are positive |
| Synthesis.PositiveEvidenceExact | api/synthesis.py:24 | a piece of evidence survives the filter iff it is in the evidence with a positive score |
| Synthesis.BestRanked | api/synthesis.py:23-24 | with some keyword hit, the result is a permutation of the positive evidence, best score first |
| Synthesis.BestFallback | api/synthesis.py:24 | with no keyword hit, the result is the first five pieces of evidence |
| Synthesis.BestFromEvidence | api/synthesis.py:11-24 | the result is drawn from the evidence, and is non-empty when the evidence is |
| Synthesis.BestStable | api/synthesis.py:23-24 | for every positive score n, the result's items scoring n are exactly the evidence's items scoring n, in evidence order |
| Synthesis.BestEqualScores | api/synthesis.py:23 | when every piece of evidence has the same positive score, the result is the evidence unchanged |
| Synthesis.FormatBulletsWithCitations | api/synthesis.py:140-153 | the text is the newline-joined bullets of the items, de-duplicated by normalised text |
| Synthesis.BulletLinesKeys | api/synthesis.py:145-152 | the de-duplicated items are a subsequence, with the same keys, and one bullet per distinct key |
| Synthesis.BulletSupported | api/synthesis.py:152 | each bullet is a stripped claim that carries a citation |
| Synthesis.BulletsFullyCited | api/synthesis.py:140-153 | bullet text splits back into exactly its bullets, with coverage 1 and no confirmation needed |
| Synthesis.BulletsCite | api/synthesis.py:140-153 | the bullet text contains the citation of one of the items |
| Extractors.OsCandidatesExact | api/synthesis.py:46-51 | a candidate OS line is the non-empty whitespace-normalised form of a line that matches OS_LINE_RE |
| Extractors.ExtractSupportedOs | api/synthesis.py:44-61 | the OS lines are the matching normalised lines, de-duplicated case-insensitively with the first kept |
| Extractors.SupportedOsFacts | api/synthesis.py:44-61 | the OS lines are an order-preserving subsequence of the candidates, single-spaced, matching, with pairwise different lower-case forms and the same key set |
| Extractors.Extract | api/synthesis.py:64-132 | each extractor returns what it picks from the first line it accepts |
| Extractors.FirstOf | api/synthesis.py:69-76 | the loop returns the first present result |
| Extractors.AllOf | api/synthesis.py:257-260 | the loop collects the present results in order |
| Extractors.FirstSomeExact | api/synthesis.py:69-76 | the first present result is absent iff no result is present, and otherwise comes from the earliest present one |
| Extractors.LineExtractorSpec | api/synthesis.py:64-106 | the printer, RAM and DB2 extractors return the normalised first line that passes their word test, and nothing iff no line does |
| Extractors.CommandExtractorSpec | api/synthesis.py:109-132 | the shutdown and start extractors return the collapsed match in the first line holding the command, and nothing iff none does |
| Extractors.MatchShape | api/synthesis.py:118-120 | a match at a command position collapses to the command name followed by single-spaced arguments |
| Extractors.CommandShape | api/synthesis.py:40-41 | what STOP_RE or START_RE finds is the command followed by single-spaced [-/\w] arguments |
| Extractors.CommandPickLine | api/synthesis.py:114-121 | a command extractor's pick for a line is the command match found in the stripped line |
| Answer.BranchOrder | api/synthesis.py:161-254 | the branch taken is the first of OS, printer, RAM, DB2 and shutdown whose test the lower-cased question passes, else the generic one |
| Answer.FirstFound | api/synthesis.py:201-208 | the loop over the ranked chunks returns the first extraction and its chunk |
| Answer.FirstFoundSpec | api/synthesis.py:201-208 | nothing is found iff no ranked chunk yields a value, and otherwise the earliest that does |
| Answer.FoundMeans | api/synthesis.py:202-203 | a chunk counts as found iff its extractor returns a non-empty value |
| Answer.LineBranch | api/synthesis.py:198-251 | the printer, RAM and DB2 branches answer from their ranked evidence |
| Answer.CollectOsItems | api/synthesis.py:169-172 | each chunk's OS lines are collected, paired with the chunk, in rank order |
| Answer.OsItemsExact | api/synthesis.py:169-172 | an item is collected iff its chunk is ranked and its line is one of that chunk's OS lines |
| Answer.ByWindowsExact | api/synthesis.py:175-176 | the Linux/Windows split keeps exactly the items on the requested side |
| Answer.ByWindowsSplit | api/synthesis.py:174-176 | a non-empty extraction leaves at least one of the two sides non-empty |
| Answer.BuildOsReport | api/synthesis.py:174-188 | the report is the heading and the present Linux and Windows parts, joined, stripped and newline-terminated |
| Answer.OsReportCites | api/synthesis.py:174-188 | the report cites one of the extracted items' chunks |
| Answer.OsBranch | api/synthesis.py:162-196 | the OS branch answers from the OS-ranked evidence |
| Answer.OsAnswerShape | api/synthesis.py:162-196 | the OS answer starts with its title and cites one of the ranked chunks |
| Answer.ShutdownBranch | api/synthesis.py:254-279 | the shutdown branch answers from the command-ranked evidence |
| Answer.CommandsExact | api/synthesis.py:256-260 | a found command is exactly a ranked chunk's non-empty shutdown extraction |
| Answer.CommandLinesFacts | api/synthesis.py:262-271 | one bullet per distinct lower-cased command, each the first occurrence's |
| Answer.ShutdownAnswerShape | api/synthesis.py:254-279 | the shutdown answer starts with its title and cites a ranked chunk |
| Answer.QueryTermsFacts | api/synthesis.py:283 | at most eight query terms, each an alphanumeric word longer than 3 that occurs in the question |
| Answer.FallbackTitled | api/synthesis.py:190-196 | a fallback answer starts with its branch title and cites the best-ranked chunk |
| Answer.LineAnswerShape | api/synthesis.py:198-251 | printer, RAM and DB2 answers start with their title and cite a ranked chunk |
| Answer.GenericAnswerShape | api/synthesis.py:283-300 | the generic answer starts with its title and cites the top-ranked chunk |
| Answer.AnswerOfBranch | api/synthesis.py:157-300 | each branch answers from pick_best on its own keywords, which is non-empty |
| Answer.AnswerQuestion | api/synthesis.py:157-300 | answer_question's result is the branch answer for the stripped, lower-cased question |
| Answer.AnswerTitled | api/synthesis.py:157-300 | every answer starts with the title of the branch the question selects |
| Answer.AnswerCites | api/synthesis.py:157-300 | every answer starts with its branch title and cites some evidence chunk |
| Generic.ReplaceNewlines | api/generic.py:18 | newlines become spaces and every other character is kept |
| Generic.SnippetShape | api/generic.py:18 | a snippet is one line of at most 400 characters, the stripped text with its newlines turned into spaces |
| Generic.ExcerptLineShape | api/generic.py:19 | excerpt line i starts with "i. " and ends with the source's citation |
| Generic.AppendExcerpts | api/generic.py:17-19 | the loop appends one numbered excerpt line per quoted source |
| Generic.AnswerGenericGrounded | api/generic.py:4-23 | the method returns the specified generic answer |
| Generic.GenericLinesShape | api/generic.py:11-21 | four fixed lines plus one excerpt line per quoted source, each ending with that source's citation |
| Generic.GenericAnswerEnds | api/generic.py:4-23 | no sources gives the "unable" reply. Otherwise the answer opens with the grounded title and ends with the next-step note |
| Orchestrator.DiversifyByDoc | api/main.py:44-52 | the method keeps the hits allowed by the per-document count |
| Orchestrator.DiversifiedSubseq | api/main.py:44-52 | diversified hits are an order-preserving subsequence of the hits |
| Orchestrator.DiversifiedPerDoc | api/main.py:44-52 | for every document, exactly its first max_per_doc hits survive, in order |
| Orchestrator.DiversifiedBound | api/main.py:44-52 | no document keeps more than max_per_doc hits |
| Orchestrator.OverlapRatio | api/main.py:54-60 | the overlap ratio lies in [0, 1] |
| Orchestrator.OverlapZero | api/main.py:54-60 | the ratio is 0 iff no query word occurs in the lower-cased evidence |
| Orchestrator.OverlapFull | api/main.py:54-60 | the ratio is 1 iff there are query words and all of them occur in the evidence |
| Orchestrator.QueryWordsExact | api/main.py:55 | query words are exactly the lower-cased alphanumeric words longer than 3 |
| Orchestrator.MergeHits | api/main.py:124-132 | the pool gains exactly the new hits, the seen ids gain their ids, and the count is their number |
| Orchestrator.NewHitsSubseq | api/main.py:124-132 | the new hits are an order-preserving subsequence of the round's hits |
| Orchestrator.NewHitsFresh | api/main.py:126-131 | new hits have non-empty, unseen, pairwise different chunk ids |
| Orchestrator.NewHitsIds | api/main.py:124-132 | the ids of the new hits are the round's non-empty unseen ids |
| Orchestrator.NewCountIsNewIds | api/main.py:132 | new_count is the number of distinct unseen ids in the round |
| Orchestrator.RemergeAddsNothing | api/main.py:129 | merging the same hits again adds nothing |
| Orchestrator.MergeKeepsKeyed | api/main.py:129-131 | the pool stays keyed: distinct ids, all in the seen set, and every seen id in the pool |
| Orchestrator.RetrievalLoop | api/main.py:112-153 | the loop's final state is that of the round-by-round specification after MAX_ITERS rounds |
| Orchestrator.RoundsNext | api/main.py:112-153 | a loop that has not stopped runs one more round |
| Orchestrator.RoundOfShape | api/main.py:112-153 | each round appends its trace step and count, grows the pool by merge and refines the query unless it stops |
| Orchestrator.RoundsShaped | api/main.py:112-153 | every round of the loop has that shape and keeps the pool keyed |
| Orchestrator.RunLengths | api/main.py:134-153 | there is one count and one step per round run. A stop comes at round two or later, and there is one refined query per round that did not stop |
| Orchestrator.RunStepNumbers | api/main.py:136-143 | step k has number k+1 and records the k-th count |
| Orchestrator.RunSum | api/main.py:124-134 | the per-round counts add up to the pool size |
| Orchestrator.RunStop | api/main.py:145-148 | the stop reason is no_new_evidence iff the loop stopped. A zero count after round one is always the last round |
| Orchestrator.RunFinalQuery | api/main.py:152-153 | the final query is the last refined query, or the question when there is none |
| Orchestrator.RunRefinedStart | api/main.py:152 | every refined query starts with the question |
| Orchestrator.RunStepQueries | api/main.py:136-143 | step 1 searches the question and step k+1 the k-th refined query |
| Orchestrator.RunPool | api/main.py:151 | the pool stays keyed, and after any round the entities are those of the pool |
| Orchestrator.RunGrows | api/main.py:112-153 | the pool and the steps only grow: a later state extends an earlier one |
| Orchestrator.RunSnapshots | api/main.py:119-122 | round1 and round2 are fixed by the first two rounds, and round2 is empty before round two |
| Orchestrator.RunFirstTwo | api/main.py:112-122 | round1 holds the diversified hits for the question at top_k 12, and round2 those for the first refined query at top_k 10 |
| Orchestrator.Ask | api/main.py:78-255 | the response is the specified response for the stripped question |
| Orchestrator.SynthesizeAndVerify | api/main.py:230-244 | verification is computed on the synthesized answer, which gains the banner iff confirmation is needed |
| Orchestrator.BanneredShape | api/main.py:234-244 | the bannered answer opens with the warning, holds the answer and one "- u" line per unsupported claim, or "(none listed)" |
| Orchestrator.ConfirmedShape | api/main.py:234-244 | the answer and its citation survive. The banner frames it iff confirmation is needed, and otherwise the answer is unchanged |
| Orchestrator.SumZero | api/main.py:124-134 | counts summing to zero are all zero |
| Orchestrator.AskCounts | api/main.py:155-164 | the trace runs 2 to 3 iterations with one count and one numbered step each, and total_unique_chunks is their sum and the pool size |
| Orchestrator.AskStop | api/main.py:145-215 | the overlap is recorded iff there is evidence. The stop reason is low_evidence_overlap iff overlap < 0.12, and max_iters only after three rounds |
| Orchestrator.AskNothingNewEnds | api/main.py:145-148 | a round after the first that adds nothing is the last one, and the stop reason is then not max_iters |
| Orchestrator.AskQueries | api/main.py:136-143 | the trace's first step searches the stripped question and each later step the previous refined query |
| Orchestrator.AskRefined | api/main.py:150-153 | there are 1 to 3 refined queries, the final query is the last one, and all start with the question |
| Orchestrator.AskEvidence | api/main.py:124-151 | the evidence pool has non-empty, distinct ids, and the entities are those extracted from it |
| Orchestrator.AskNoEvidence | api/main.py:169-192 | with no evidence the loop stopped after two rounds for no new evidence, and no overlap is recorded |
| Orchestrator.LowOverlapReply | api/main.py:197-225 | evidence sharing no query word gives the low-overlap message, an unverified record and stop reason low_evidence_overlap |
| Orchestrator.AskAnswered | api/main.py:230-255 | past both guards, verification is that of the synthesized answer. The reply is the possibly bannered answer and cites a chunk of the evidence pool |
| Orchestrator.RoundsRetrieve | api/main.py:113-117 | each round searches its current query at its top_k and diversifies the result |
| Orchestrator.AdvanceSnapshots | api/main.py:119-122 | round one records round1, round two records round2, and other rounds keep both |
| Orchestrator.AskRounds | api/main.py:112-122 | the response's round1 and round2 are the diversified first two searches, with the question and the first refined query |
| Sorting.SortDesc | api/retrieval.py:68 | sorting by a real key descending gives a sorted permutation |
| Sorting.SortDescStable | api/synthesis.py:23 | for every key value, the sorted list's elements with that key are the input's elements with that key, in input order |
| Sorting.KeyClassExact | api/synthesis.py:23 | an element is in a key class iff it is in the list and has that key |
| Sorting.SortDescEqualKeys | api/synthesis.py:23 | with all keys equal the sort returns its input unchanged |
| Sorting.SortedPrefix | api/refine.py:47-51 | sorted(list(set))[:n] gives the n smallest members in ascending order |
| Sorting.TopSortedUnique | api/refine.py:47-51 | there is only one such list, so the entities do not depend on set iteration order |
| Sorting.TopSortedComplete | api/refine.py:47-51 | below the cap every member is listed |
| Lists.Dedup | api/synthesis.py:53-60 | the seen-set loop keeps the first item of every key |
| Lists.DedupFacts | api/synthesis.py:53-60 | de-duplication gives an order-preserving subsequence with the same keys and pairwise different keys |
| Lists.DedupKeepsFirst | api/synthesis.py:53-60 | every kept item is the first of its key in the input |
| Lists.DedupMap | api/synthesis.py:145-152 | the seen-set loop with formatting maps the de-duplicated items |
| Lists.MapDedupFacts | api/synthesis.py:145-152 | there is one output per distinct key, each formatted from the first item with that key |
| Text.StripIdempotent | ingest/chunker.py:28-29 | stripping twice is stripping once |
| Text.StripEmptyIffBlank | ingest/chunker.py:35-37 | a stripped text is empty iff the text is blank |
| Text.Normalize | ingest/chunker.py:28-29 | normalized lines are single-spaced, trimmed, and empty iff blank |
| Text.SplitLinesJoin | api/verify.py:14 | newline-free lines joined with newlines split back into the same lines |

## Left out

- Text is ASCII only. `str.lower`, `str.strip`, `\s` and `\w` are modelled on ASCII; Unicode case mapping and Unicode whitespace are left out, because Dafny strings carry no Unicode tables.
- `splitlines` splits on '\n' only. Lines ending in '\r\n' or other Unicode separators are not modelled, for the same reason.
- HEADING_RE, OS_LINE_RE and SHA-1 are parameters. HEADING_RE and OS_LINE_RE are predicates on a line, and SHA-1 is a function to 40 lower-case hex digits. Regex engines and hashing are outside the model; the length guard of is_heading, the OS-line normalisation, and the id layout and truncation are modelled.
- PDF extraction is a parameter. pdfplumber and pypdf, with the fallback between them, become an `Extraction` value, either pages of raw text or an exception. The `main()` functions, file I/O, JSON and parquet writing are left out.
- BM25 and FAISS scoring are parameters. The BM25 and vector rankers, the sentence encoder and index loading are not modelled. hybrid_search is modelled from the two ranked lists on, and within `ask` the whole retriever is the parameter `search`.
- Scores use Dafny `real`, not float32 or float64. Rounding is not modelled.
- The order of the candidate set in hybrid_search is left open. It is picked arbitrarily, and the contract holds for any order. Which of two equally scored candidates comes first therefore depends on that order only.
- The FastAPI app is left out: the routes `/health` and `/`, the CORS setup and the request model.
- format_round_payload is modelled only as the list of chunks. Its `int()` casts and defaults for missing keys are not modelled, since every chunk has those fields.
- The `conflicts: 0` field of the verification record is not modelled (api/main.py:181, 213, 232), because it is a constant.
- The plan list of the response is a constant and is carried as given.
- The evidence pool is a sequence of hits in insertion order. It stands for the dict keyed by chunk id, whose values are in insertion order in Python.
- Every chunk record has a doc_name field, of type `Option<string>`. The "UNKNOWN" default that diversify_by_doc uses for a missing key is therefore not modelled. A `None` value is its own key, as in the source.
- Answer.AnswerQuestion: requires non-empty evidence. Every branch of answer_question indexes `best[0]` or `top[0]` and so fails on empty evidence, and `ask` only calls it when the pool is non-empty.
- Answer.AnswerCites: states only that some evidence chunk is cited, not which one. The chunk depends on the branch; the per-branch lemmas name it.
- Generic reuses `Synthesis.Cite` for `_cite`, because the two formats are identical.
- The citation rule follows the code. needs_confirmation is coverage < min_coverage alone (api/verify.py:58), with no separate rule for unsupported claims.
- The first-match loops of the extractors are written once, as `Extractors.FirstOf` and `Extractors.AllOf`. answer_question's own loops use them.
- index/build_indexes.py is not part of this model.
